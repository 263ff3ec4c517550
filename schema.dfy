/** The invariants the database keeps. */
module Schema {
  import opened Rows
  import opened Seqs

  // ---------------------------------------------------------------------
  // Keys and timestamps

  function UserKey(u: User): int { u.id }
  function SnippetKey(s: Snippet): int { s.id }
  function SnippetTime(s: Snippet): int { s.createdAt }
  function CommentKey(c: Comment): int { c.id }
  function CommentTime(c: Comment): int { c.createdAt }

  /** Ids in `[1, nextId)`, strictly increasing in insertion order. */
  ghost predicate UsersWellFormed(users: seq<User>, nextId: int)
  {
    && 1 <= nextId
    && (forall k :: 0 <= k < |users| ==> 1 <= users[k].id < nextId)
    && Ascending(users, UserKey)
    && (forall i, j :: 0 <= i < j < |users| ==>
          users[i].email != users[j].email && users[i].username != users[j].username)
  }

  ghost predicate SnippetsWellFormed(rows: seq<Snippet>, nextId: int, clock: nat)
  {
    && 1 <= nextId
    && (forall k :: 0 <= k < |rows| ==> 1 <= rows[k].id < nextId && rows[k].createdAt < clock)
    && Ascending(rows, SnippetKey)
    && Ascending(rows, SnippetTime)
  }

  ghost predicate CommentsWellFormed(rows: seq<Comment>, nextId: int, clock: nat)
  {
    && 1 <= nextId
    && (forall k :: 0 <= k < |rows| ==> 1 <= rows[k].id < nextId && rows[k].createdAt < clock)
    && Ascending(rows, CommentKey)
    && Ascending(rows, CommentTime)
  }

  /** The whole database: the three tables, the id counter of each, and the clock. */
  datatype Tables = Tables(
    users: seq<User>, snippets: seq<Snippet>, comments: seq<Comment>,
    nextUserId: int, nextSnippetId: int, nextCommentId: int, clock: nat)

  /** The invariant of the database: each table's ids ascend below its
      counter, rows are stored oldest first, and users are unique. */
  ghost predicate WellFormed(t: Tables)
  {
    && UsersWellFormed(t.users, t.nextUserId)
    && SnippetsWellFormed(t.snippets, t.nextSnippetId, t.clock)
    && CommentsWellFormed(t.comments, t.nextCommentId, t.clock)
  }
}
