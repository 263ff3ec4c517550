/** The two interaction guards of the gallery: the like button of a snippet
    card and the comment form of the snippet modal. Each handler runs to its
    end in one step, so every click or submit is answered before the next
    one; the window while a request is in flight is not modelled. The
    server's answer to the request it makes is a parameter (`None` when the
    request failed and the handler's `catch` ran). */
module Widgets {
  import opened Wrappers
  import opened Rows
  import opened Strings

  /** The signed-in user the page keeps after login or signup. */
  datatype SessionUser = SessionUser(id: int, username: string, email: string)

  // ---------------------------------------------------------------------
  // The like button of a snippet card

  /** The card's `likes` and `liked` state. */
  datatype CardState = CardState(likes: int, liked: bool)

  /** `POST /api/snippets/:id/like` with body `{ user_id }`. */
  datatype LikePost = LikePost(snippetId: int, userId: int)

  /** One click on the heart: the new card state and the request made, if any.
      With nobody signed in only an alert is shown; once the card is liked a
      click does nothing; otherwise the request is sent and a reply of `n`
      likes shows `n` and marks the card liked. */
  function ClickLike(st: CardState, snippetId: int, user: Option<SessionUser>, reply: Option<int>)
    : (CardState, Option<LikePost>)
  {
    if user.None? || st.liked then (st, None)
    else
      var post := Some(LikePost(snippetId, user.value.id));
      match reply
      case Some(n) => (CardState(n, true), post)
      case None => (st, post)
  }

  /** `SnippetCard`'s like state. */
  class LikeButton {
    const snippetId: int
    var likes: int
    var liked: bool

    function Card(): CardState
      reads this
    {
      CardState(likes, liked)
    }

    /** `useState(snippet.likes)` and `useState(false)`. */
    constructor(snippet: Snippet)
      ensures snippetId == snippet.id
      ensures Card() == CardState(snippet.likes, false)
    {
      snippetId := snippet.id;
      likes := snippet.likes;
      liked := false;
    }

    /** `handleLike`. */
    method HandleLike(user: Option<SessionUser>, reply: Option<int>) returns (post: Option<LikePost>)
      modifies this
      ensures (Card(), post) == ClickLike(old(Card()), snippetId, user, reply)
      ensures user.None? || old(liked) ==> post == None && Card() == old(Card())
      ensures user.Some? && !old(liked) ==> post == Some(LikePost(snippetId, user.value.id))
      ensures old(liked) ==> liked
    {
      post := None;
      if user.Some? && !liked {
        post := Some(LikePost(snippetId, user.value.id));
        if reply.Some? {
          likes := reply.value;
          liked := true;
        }
      }
    }
  }

  /** A click, with the session at that moment and the server's reply. */
  datatype Click = Click(user: Option<SessionUser>, reply: Option<int>)

  /** A run of clicks on one card: its final state and the requests sent. */
  function Clicks(st: CardState, snippetId: int, clicks: seq<Click>): (CardState, seq<LikePost>)
    decreases |clicks|
  {
    if clicks == [] then (st, [])
    else
      var step := ClickLike(st, snippetId, clicks[0].user, clicks[0].reply);
      var rest := Clicks(step.0, snippetId, clicks[1..]);
      (rest.0, (if step.1.Some? then [step.1.value] else []) + rest.1)
  }

  /** A successful like shows the server's total and marks the card. */
  lemma LikeShowsServerTotal(st: CardState, snippetId: int, user: SessionUser, n: int)
    requires !st.liked
    ensures ClickLike(st, snippetId, Some(user), Some(n)) ==
            (CardState(n, true), Some(LikePost(snippetId, user.id)))
  {
  }

  /** Once a card is liked, however many further clicks come, none of them
      sends a request and the card stays as it is. */
  lemma {:induction false} LikedCardIgnoresClicks(st: CardState, snippetId: int, clicks: seq<Click>)
    requires st.liked
    ensures Clicks(st, snippetId, clicks) == (st, [])
  {
    if clicks != [] {
      LikedCardIgnoresClicks(st, snippetId, clicks[1..]);
      assert [] + Clicks(st, snippetId, clicks[1..]).1 == [];
    }
  }

  /** Signed out, clicks never send anything and never change the card. */
  lemma {:induction false} SignedOutClicksDoNothing(st: CardState, snippetId: int, clicks: seq<Click>)
    requires forall k :: 0 <= k < |clicks| ==> clicks[k].user.None?
    ensures Clicks(st, snippetId, clicks) == (st, [])
  {
    if clicks != [] {
      SignedOutClicksDoNothing(st, snippetId, clicks[1..]);
      assert [] + Clicks(st, snippetId, clicks[1..]).1 == [];
    }
  }

  /** For clicks each answered before the next, a card's clicks reach the
      server as one request per click up to and including the first that
      succeeds, and none after it. */
  lemma {:induction false} AtMostOneSuccessfulLike(st: CardState, snippetId: int, clicks: seq<Click>, i: nat)
    requires !st.liked
    requires i < |clicks| && clicks[i].user.Some? && clicks[i].reply.Some?
    requires forall k :: 0 <= k < i ==> clicks[k].reply.None?
    ensures |Clicks(st, snippetId, clicks).1| <= i + 1
    ensures Clicks(st, snippetId, clicks).0.liked
  {
    var next := ClickLike(st, snippetId, clicks[0].user, clicks[0].reply).0;
    if i == 0 {
      LikedCardIgnoresClicks(next, snippetId, clicks[1..]);
    } else {
      AtMostOneSuccessfulLike(st, snippetId, clicks[1..], i - 1);
    }
  }

  // ---------------------------------------------------------------------
  // The comment form of the snippet modal

  /** The modal's `comments`, `newComment` and `localComments` state. */
  datatype PanelState = PanelState(comments: seq<Comment>, draft: string, count: int)

  /** `POST /api/snippets/:id/comments` with its body. */
  datatype CommentPost = CommentPost(snippetId: int, body: CommentRequest)

  /** One submit of the form. Signed out, or with a draft that trims to
      nothing, nothing happens; otherwise the draft is posted as typed, and
      the reply is put first in the list, the count goes up and the input
      is cleared. */
  function SubmitComment(st: PanelState, snippetId: int, user: Option<SessionUser>, reply: Option<Comment>)
    : (PanelState, Option<CommentPost>)
  {
    if user.None? || Trim(st.draft) == "" then (st, None)
    else
      var post := Some(CommentPost(snippetId,
        CommentRequest(Some(user.value.id), Some(user.value.username), Some(st.draft))));
      match reply
      case Some(c) => (PanelState([c] + st.comments, "", st.count + 1), post)
      case None => (st, post)
  }

  /** `SnippetModal`'s comment state. */
  class CommentPanel {
    const snippetId: int
    var comments: seq<Comment>
    var newComment: string
    var localComments: int

    function Panel(): PanelState
      reads this
    {
      PanelState(comments, newComment, localComments)
    }

    /** `useState([])`, `useState('')` and `useState(snippet.comments)`. */
    constructor(snippet: Snippet)
      ensures snippetId == snippet.id
      ensures Panel() == PanelState([], "", snippet.comments)
    {
      snippetId := snippet.id;
      comments := [];
      newComment := "";
      localComments := snippet.comments;
    }

    /** The textarea's `onChange`. */
    method SetDraft(text: string)
      modifies this
      ensures Panel() == old(Panel()).(draft := text)
    {
      newComment := text;
    }

    /** `handleAddComment`. */
    method HandleAddComment(user: Option<SessionUser>, reply: Option<Comment>) returns (post: Option<CommentPost>)
      modifies this
      ensures (Panel(), post) == SubmitComment(old(Panel()), snippetId, user, reply)
      ensures user.None? || Trim(old(newComment)) == "" ==> post == None && Panel() == old(Panel())
      ensures user.Some? && Trim(old(newComment)) != "" ==>
                post == Some(CommentPost(snippetId, CommentRequest(
                  Some(user.value.id), Some(user.value.username), Some(old(newComment)))))
    {
      post := None;
      if user.Some? && Trim(newComment) != "" {
        post := Some(CommentPost(snippetId, CommentRequest(
          Some(user.value.id), Some(user.value.username), Some(newComment))));
        if reply.Some? {
          comments := [reply.value] + comments;
          localComments := localComments + 1;
          newComment := "";
        }
      }
    }
  }

  /** A draft of white space only sends nothing and changes nothing. */
  lemma BlankDraftDoesNothing(st: PanelState, snippetId: int, user: Option<SessionUser>, reply: Option<Comment>)
    requires forall k :: 0 <= k < |st.draft| ==> IsJsSpace(st.draft[k])
    ensures SubmitComment(st, snippetId, user, reply) == (st, None)
  {
  }

  /** On success the returned comment comes first, the count rises by one
      and the input is empty. */
  lemma SuccessfulCommentShown(st: PanelState, snippetId: int, user: SessionUser, c: Comment)
    requires Trim(st.draft) != ""
    ensures var (next, _) := SubmitComment(st, snippetId, Some(user), Some(c));
      next.comments == [c] + st.comments && next.comments[0] == c &&
      next.count == st.count + 1 && next.draft == ""
  {
  }

  /** A count that starts equal to the length of the list stays equal to it.
      A fresh panel meets this only for a snippet without comments; otherwise
      the relation can first hold once the thread has been fetched, which is
      not part of this model. */
  lemma CountTracksList(st: PanelState, snippetId: int, user: Option<SessionUser>, reply: Option<Comment>)
    requires st.count == |st.comments|
    ensures var (next, _) := SubmitComment(st, snippetId, user, reply);
      next.count == |next.comments|
  {
  }

  /** What the form posts always carries non-empty text, so the server's
      required-field check passes on it whenever the username is not blank. */
  lemma PostedCommentHasText(st: PanelState, snippetId: int, user: Option<SessionUser>, reply: Option<Comment>)
    ensures var (_, post) := SubmitComment(st, snippetId, user, reply);
      post.Some? ==> Given(post.value.body.commentText) &&
                     (user.value.username != "" ==> Given(post.value.body.username))
  {
    if st.draft == "" {
      assert Trim(st.draft) == "";
    }
  }
}
