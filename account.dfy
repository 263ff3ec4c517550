/** The account panel's summary of the signed-in user's own snippets. */
module Account {
  import opened Rows
  import opened Seqs

  function LikesOf(s: Snippet): int { s.likes }
  function ViewsOf(s: Snippet): int { s.views }

  /** `snippets.filter(s => s.author === currentUser.username)`. */
  function UserSnippets(snippets: seq<Snippet>, username: string): (r: seq<Snippet>)
    ensures forall s :: s in r <==> s in snippets && s.author == username
    ensures forall s :: multiset(r)[s] == if s.author == username then multiset(snippets)[s] else 0
  {
    FilterCounts(snippets, (s: Snippet) => s.author == username);
    Filter(snippets, (s: Snippet) => s.author == username)
  }

  /** `userSnippets.reduce((sum, s) => sum + s.likes, 0)`. */
  function TotalLikes(snippets: seq<Snippet>, username: string): int
  {
    SumOf(UserSnippets(snippets, username), LikesOf)
  }

  /** `userSnippets.reduce((sum, s) => sum + s.views, 0)`. */
  function TotalViews(snippets: seq<Snippet>, username: string): int
  {
    SumOf(UserSnippets(snippets, username), ViewsOf)
  }

  /** The same total taken over the whole list, counting only the user's
      snippets: the reference the panel's figures are checked against. */
  function AuthoredSum(snippets: seq<Snippet>, username: string, f: Snippet -> int): int
  {
    if snippets == [] then 0
    else (if snippets[0].author == username then f(snippets[0]) else 0)
         + AuthoredSum(snippets[1..], username, f)
  }

  lemma {:induction false} SumOverUserSnippets(snippets: seq<Snippet>, username: string, f: Snippet -> int)
    ensures SumOf(UserSnippets(snippets, username), f) == AuthoredSum(snippets, username, f)
  {
    if snippets != [] {
      SumOverUserSnippets(snippets[1..], username, f);
      var rest := UserSnippets(snippets[1..], username);
      assert snippets == [snippets[0]] + snippets[1..];
      if snippets[0].author == username {
        assert UserSnippets(snippets, username) == [snippets[0]] + rest;
        SumOfCons(snippets[0], rest, f);
      } else {
        assert UserSnippets(snippets, username) == rest;
      }
    }
  }

  /** `totalLikes` and `totalViews` add up exactly the user's snippets. */
  lemma TotalsCountOwnSnippets(snippets: seq<Snippet>, username: string)
    ensures TotalLikes(snippets, username) == AuthoredSum(snippets, username, LikesOf)
    ensures TotalViews(snippets, username) == AuthoredSum(snippets, username, ViewsOf)
  {
    SumOverUserSnippets(snippets, username, LikesOf);
    SumOverUserSnippets(snippets, username, ViewsOf);
  }

  /** A user with no snippets sees zero likes and zero views. */
  lemma NoSnippetsNoTotals(snippets: seq<Snippet>, username: string)
    requires forall s :: s in snippets ==> s.author != username
    ensures UserSnippets(snippets, username) == []
    ensures TotalLikes(snippets, username) == 0 && TotalViews(snippets, username) == 0
  {
    FilterEmptyIff(snippets, (s: Snippet) => s.author == username);
  }

  /** The totals over two lists are the sums of the totals over each. */
  lemma TotalsAdd(a: seq<Snippet>, b: seq<Snippet>, username: string)
    ensures TotalLikes(a + b, username) == TotalLikes(a, username) + TotalLikes(b, username)
    ensures TotalViews(a + b, username) == TotalViews(a, username) + TotalViews(b, username)
  {
    var p := (s: Snippet) => s.author == username;
    FilterAppend(a, b, p);
    SumOfAppend(UserSnippets(a, username), UserSnippets(b, username), LikesOf);
    SumOfAppend(UserSnippets(a, username), UserSnippets(b, username), ViewsOf);
  }

  /** Other users' snippets do not move the totals. */
  lemma OthersDoNotCount(snippets: seq<Snippet>, s: Snippet, username: string)
    requires s.author != username
    ensures TotalLikes(snippets + [s], username) == TotalLikes(snippets, username)
    ensures TotalViews(snippets + [s], username) == TotalViews(snippets, username)
  {
    TotalsAdd(snippets, [s], username);
    NoSnippetsNoTotals([s], username);
  }
}
