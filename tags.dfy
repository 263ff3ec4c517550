/** The tags field of the new-snippet form: a comma-separated string turned
    into the list of tags the snippet is posted with. */
module Tags {
  import opened Seqs
  import opened Strings

  /** `tags.split(',').map(t => t.trim())`. */
  function Pieces(s: string): (r: seq<string>)
    ensures |r| == |Split(s, ',')|
    ensures forall k :: 0 <= k < |r| ==> r[k] == Trim(Split(s, ',')[k])
  {
    Map(Split(s, ','), Trim)
  }

  predicate NonEmpty(t: string)
  {
    t != ""
  }

  /** `.filter(Boolean)` on the trimmed pieces: the empty string is the only
      falsy string. */
  function ParseTags(s: string): (r: seq<string>)
    ensures forall t :: t in r <==> t in Pieces(s) && t != ""
    ensures forall t :: t != "" ==> multiset(r)[t] == multiset(Pieces(s))[t]
  {
    var ps := Pieces(s);
    FilterCounts(ps, NonEmpty);
    assert forall t :: NonEmpty(t) <==> t != "";
    Filter(ps, NonEmpty)
  }

  /** Every tag is non-empty, has no white space at either end and holds no
      comma. */
  lemma TagsAreClean(s: string)
    ensures forall t :: t in ParseTags(s) ==> t != "" && Trim(t) == t && ',' !in t
  {
    var parts := Split(s, ',');
    forall t | t in ParseTags(s) ensures Trim(t) == t && ',' !in t {
      var k :| 0 <= k < |parts| && t == Trim(parts[k]);
      TrimIdempotent(parts[k]);
      TrimAddsNothing(parts[k], ',');
    }
  }

  /** The tags keep the order in which they were typed. */
  lemma TagsKeepOrder(s: string)
    ensures IsSubsequence(ParseTags(s), Pieces(s))
  {
    FilterIsSubsequence(Pieces(s), NonEmpty);
  }

  /** No tags come out exactly when every piece between commas is blank. */
  lemma NoTagsIffBlank(s: string)
    ensures ParseTags(s) == [] <==> forall k :: 0 <= k < |Pieces(s)| ==> Pieces(s)[k] == ""
  {
    FilterEmptyIff(Pieces(s), NonEmpty);
  }

  /** An empty field gives no tags. */
  lemma EmptyFieldNoTags()
    ensures ParseTags("") == []
  {
    NoTagsIffBlank("");
    assert Split("", ',') == [""];
  }
}
