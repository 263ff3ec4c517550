/** How the API server picks a handler for a request: the routes in the
    order they are registered, tried first to last, the first match
    answering. No handler here passes a request on, so a route that comes
    after another with the same method and pattern is never run. */
module Routing {
  import opened Wrappers

  datatype Verb = Get | Post

  /** One path segment of a route pattern: literal text, or a `:name`
      parameter, which matches any non-empty segment. */
  datatype Segment = Lit(text: string) | Param

  datatype Handler =
    | ListSnippets | ViewSnippet | ListComments | CreateComment | CreateSnippet
    | LikeChecked | LikeUnchecked | Signup | Login | Health | Root

  datatype Route = Route(verb: Verb, pattern: seq<Segment>, handler: Handler)

  /** The registrations of server/server.js, in order. A path is its
      segments between slashes: `/api/snippets/7/like` is
      `["api", "snippets", "7", "like"]` and `/` is `[]`. */
  const Routes: seq<Route> := [
    Route(Get, [Lit("api"), Lit("snippets")], ListSnippets),
    Route(Post, [Lit("api"), Lit("snippets"), Param, Lit("view")], ViewSnippet),
    Route(Get, [Lit("api"), Lit("snippets"), Param, Lit("comments")], ListComments),
    Route(Post, [Lit("api"), Lit("snippets"), Param, Lit("comments")], CreateComment),
    Route(Post, [Lit("api"), Lit("snippets")], CreateSnippet),
    Route(Post, [Lit("api"), Lit("snippets"), Param, Lit("like")], LikeChecked),
    Route(Post, [Lit("api"), Lit("snippets"), Param, Lit("like")], LikeUnchecked),
    Route(Post, [Lit("api"), Lit("auth"), Lit("signup")], Signup),
    Route(Post, [Lit("api"), Lit("auth"), Lit("login")], Login),
    Route(Get, [Lit("api"), Lit("health")], Health),
    Route(Get, [], Root)
  ]

  predicate SegmentMatches(p: Segment, s: string)
  {
    match p
    case Lit(text) => s == text
    case Param => s != ""
  }

  predicate Matches(r: Route, verb: Verb, path: seq<string>)
  {
    && r.verb == verb
    && |r.pattern| == |path|
    && forall i :: 0 <= i < |path| ==> SegmentMatches(r.pattern[i], path[i])
  }

  /** The index of the route that handles the request: the first that
      matches, or `None` (a 404) when none does. */
  function Dispatch(routes: seq<Route>, verb: Verb, path: seq<string>): (r: Option<nat>)
    ensures r.Some? ==> r.value < |routes| && Matches(routes[r.value], verb, path)
    ensures r.Some? ==> forall j :: 0 <= j < r.value ==> !Matches(routes[j], verb, path)
    ensures r.None? <==> forall j :: 0 <= j < |routes| ==> !Matches(routes[j], verb, path)
  {
    if routes == [] then None
    else if Matches(routes[0], verb, path) then Some(0)
    else match Dispatch(routes[1..], verb, path)
      case None => None
      case Some(k) => Some(k + 1)
  }

  /** A route registered after another with the same method and pattern is
      never dispatched to. */
  lemma ShadowedRoute(routes: seq<Route>, i: nat, j: nat, verb: Verb, path: seq<string>)
    requires i < j < |routes|
    requires routes[i].verb == routes[j].verb && routes[i].pattern == routes[j].pattern
    ensures Dispatch(routes, verb, path) != Some(j)
  {
    if Dispatch(routes, verb, path) == Some(j) {
      assert Matches(routes[i], verb, path);
    }
  }

  /** Two routes with the same method and pattern answer the same requests. */
  predicate SameRoute(a: Route, b: Route)
  {
    a.verb == b.verb && a.pattern == b.pattern
  }

  /** The registrations: eleven routes, and the two `like` routes are the only
      pair with the same method and pattern. */
  lemma OnlyLikeRegisteredTwice()
    ensures |Routes| == 11
    ensures SameRoute(Routes[5], Routes[6])
    ensures forall i, j :: 0 <= i < j < |Routes| && SameRoute(Routes[i], Routes[j]) ==> i == 5 && j == 6
  {
    forall i, j | 0 <= i < j < |Routes| && SameRoute(Routes[i], Routes[j])
      ensures i == 5 && j == 6
    {
      assert |Routes[i].pattern| == |Routes[j].pattern|;
    }
  }

  /** The second like handler, which skips the user checks, is dead code. */
  lemma UncheckedLikeUnreachable(verb: Verb, path: seq<string>)
    ensures Routes[6].handler == LikeUnchecked
    ensures Dispatch(Routes, verb, path) != Some(6)
  {
    ShadowedRoute(Routes, 5, 6, verb, path);
  }

  /** Every like request reaches the handler that checks the user. */
  lemma LikeGoesToCheckedHandler(id: string)
    requires id != ""
    ensures Dispatch(Routes, Post, ["api", "snippets", id, "like"]) == Some(5)
    ensures Routes[5].handler == LikeChecked
  {
    var path := ["api", "snippets", id, "like"];
    assert Matches(Routes[5], Post, path);
    assert !SegmentMatches(Routes[1].pattern[3], path[3]);
    assert !SegmentMatches(Routes[3].pattern[3], path[3]);
    var r := Dispatch(Routes, Post, path);
    assert r.Some? && r.value <= 5;
    assert r.value != 0 && r.value != 2 && r.value != 4 by {
      assert !Matches(Routes[0], Post, path);
      assert !Matches(Routes[2], Post, path);
      assert !Matches(Routes[4], Post, path);
    }
    assert r.value != 1 && r.value != 3;
  }
}
