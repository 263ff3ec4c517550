/** The gallery's category filter and search box: which of the fetched
    snippets the page shows. */
module Search {
  import opened Wrappers
  import opened Rows
  import opened Seqs
  import opened Strings

  /** The category buttons: `'All'` shows every category. */
  predicate MatchesFilter(filter: string, s: Snippet)
  {
    filter == "All" || s.category == filter
  }

  /** `hay.toLowerCase().includes(term.toLowerCase())`. */
  predicate Mentions(hay: string, term: string)
  {
    Includes(ToLower(hay), ToLower(term))
  }

  /** The term occurs, ignoring case, in the title, the story or one of the
      tags; a snippet without tags is searched by title and story only. */
  predicate MatchesSearch(term: string, s: Snippet)
  {
    || Mentions(s.title, term)
    || Mentions(s.story, term)
    || (s.tags.Some? && exists k :: 0 <= k < |s.tags.value| && Mentions(s.tags.value[k], term))
  }

  predicate Shown(filter: string, term: string, s: Snippet)
  {
    MatchesFilter(filter, s) && MatchesSearch(term, s)
  }

  /** `filteredSnippets`. */
  function FilteredSnippets(snippets: seq<Snippet>, filter: string, term: string): (r: seq<Snippet>)
    ensures forall s :: s in r <==> s in snippets && MatchesFilter(filter, s) && MatchesSearch(term, s)
    ensures filter != "All" ==> forall s :: s in r ==> s.category == filter
    ensures forall s :: multiset(r)[s] == if Shown(filter, term, s) then multiset(snippets)[s] else 0
  {
    FilterCounts(snippets, s => Shown(filter, term, s));
    Filter(snippets, s => Shown(filter, term, s))
  }

  /** The page shows the snippets in the order they were fetched. */
  lemma FilteredKeepsOrder(snippets: seq<Snippet>, filter: string, term: string)
    ensures IsSubsequence(FilteredSnippets(snippets, filter, term), snippets)
  {
    FilterIsSubsequence(snippets, s => Shown(filter, term, s));
  }

  /** `''.includes`-style: the empty term occurs in every string. */
  lemma EmptyTermMatches(s: Snippet)
    ensures MatchesSearch("", s)
  {
    assert OccursAt(ToLower(s.title), ToLower(""), 0);
  }

  /** Search compares lowercased text, so the case of the term is irrelevant. */
  lemma SearchIgnoresCase(term: string, other: string, s: Snippet)
    requires ToLower(term) == ToLower(other)
    ensures MatchesSearch(term, s) <==> MatchesSearch(other, s)
  {
  }

  /** A title that contains the term in another case still matches. */
  lemma TitleMatchIgnoresCase(term: string, s: Snippet, i: nat)
    requires i + |term| <= |s.title|
    requires ToLower(s.title[i..i + |term|]) == ToLower(term)
    ensures MatchesSearch(term, s)
  {
    IncludesIgnoringCase(s.title, term, i);
  }

  /** With no category selected and an empty search box the page shows
      everything it fetched. */
  lemma InitialViewShowsAll(snippets: seq<Snippet>)
    ensures FilteredSnippets(snippets, "All", "") == snippets
  {
    forall s | s in snippets ensures Shown("All", "", s) {
      EmptyTermMatches(s);
    }
    FilterAll(snippets, s => Shown("All", "", s));
  }

  /** Under `'All'`, only the search decides. */
  lemma AllFilterOnlySearches(snippets: seq<Snippet>, term: string, s: Snippet)
    ensures s in FilteredSnippets(snippets, "All", term) <==> s in snippets && MatchesSearch(term, s)
  {
  }
}
