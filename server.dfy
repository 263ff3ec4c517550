/** The request handlers of the API service, over in-memory tables.

    Each table is a sequence of rows in insertion order. Ids come from one
    counter per table, starting at 1 as a serial column does. The snippet and
    comment rows take `created_at` from one logical clock that each of their
    inserts advances, so rows later in those tables are strictly newer; user
    rows carry no timestamp, and a user insert leaves the clock alone. Each
    handler is one sequential step. */
module Api {
  import opened Wrappers
  import opened Rows
  import opened Seqs
  import opened Schema

  const ServerError := "Server error"
  const CommentFieldsRequired := "Comment text and username required"
  const LoginToComment := "Must be logged in to comment"
  const InvalidUser := "Invalid user"
  const MissingFields := "Missing required fields"
  const LoginToCreate := "Must be logged in to create snippets"
  const LoginToLike := "Must be logged in to like snippets"
  const AllFieldsRequired := "All fields required"
  const UserExists := "User already exists"
  const InvalidCredentials := "Invalid credentials"

  /** The JSON a handler sends. `UserBody` has no password: it is all a
      signup or login response holds. */
  datatype Body =
    | ErrorBody(error: string)
    | SnippetList(snippets: seq<Snippet>)
    | ViewsBody(views: int)
    | LikesBody(likes: int)
    | CommentList(comments: seq<Comment>)
    | CommentBody(comment: Comment)
    | SnippetBody(snippet: Snippet)
    | UserBody(id: int, username: string, email: string)

  datatype Response = Response(status: int, body: Body)

  function Error(status: int, message: string): Response
  {
    Response(status, ErrorBody(message))
  }

  // ---------------------------------------------------------------------
  // Counters: UPDATE snippets SET <counter> = <counter> + 1 WHERE id = $1

  datatype Counter = Views | Likes | Comments

  function Count(s: Snippet, c: Counter): int
  {
    match c
    case Views => s.views
    case Likes => s.likes
    case Comments => s.comments
  }

  /** Everything in a row except its three counters. */
  function Content(s: Snippet): Snippet
  {
    s.(views := 0, likes := 0, comments := 0)
  }

  /** One counter of one row, plus one. */
  function Bump(s: Snippet, c: Counter): (r: Snippet)
    ensures Count(r, c) == Count(s, c) + 1
    ensures forall d :: d != c ==> Count(r, d) == Count(s, d)
    ensures Content(r) == Content(s)
  {
    match c
    case Views => s.(views := s.views + 1)
    case Likes => s.(likes := s.likes + 1)
    case Comments => s.(comments := s.comments + 1)
  }

  /** The UPDATE statement: every row with the id is bumped, the rest kept. */
  function UpdateWhere(rows: seq<Snippet>, id: int, c: Counter): (r: seq<Snippet>)
    ensures |r| == |rows|
    ensures forall k :: 0 <= k < |rows| ==>
              r[k] == if rows[k].id == id then Bump(rows[k], c) else rows[k]
  {
    if rows == [] then []
    else [if rows[0].id == id then Bump(rows[0], c) else rows[0]] + UpdateWhere(rows[1..], id, c)
  }

  /** SELECT ... FROM snippets WHERE id = $1, then `rows[0]`: the first row
      with the id, or `None` when the result is empty. */
  function IndexOfId(rows: seq<Snippet>, id: int): (r: Option<nat>)
    ensures r.Some? ==> r.value < |rows| && rows[r.value].id == id &&
                        forall j :: 0 <= j < r.value ==> rows[j].id != id
    ensures r.None? ==> forall j :: 0 <= j < |rows| ==> rows[j].id != id
  {
    if rows == [] then None
    else if rows[0].id == id then Some(0)
    else match IndexOfId(rows[1..], id)
      case None => None
      case Some(k) => Some(k + 1)
  }

  /** With unique ids, the UPDATE changes exactly the one row that has the id. */
  lemma UpdateAtUniqueId(rows: seq<Snippet>, k: nat, c: Counter)
    requires Ascending(rows, SnippetKey) && k < |rows|
    ensures UpdateWhere(rows, rows[k].id, c) == rows[k := Bump(rows[k], c)]
  {
    var r := UpdateWhere(rows, rows[k].id, c);
    forall j | 0 <= j < |rows| && j != k ensures r[j] == rows[j] {
      assert SnippetKey(rows[j]) != SnippetKey(rows[k]);
    }
  }

  /** With no row having the id, the UPDATE changes nothing. */
  lemma UpdateMissingId(rows: seq<Snippet>, id: int, c: Counter)
    requires forall j :: 0 <= j < |rows| ==> rows[j].id != id
    ensures UpdateWhere(rows, id, c) == rows
  {
  }

  /** Bumping a counter keeps the row's id and timestamp. */
  lemma BumpKeepsKeys(s: Snippet, c: Counter)
    ensures Bump(s, c).id == s.id && Bump(s, c).createdAt == s.createdAt
  {
    assert Content(Bump(s, c)).id == Content(s).id;
    assert Content(Bump(s, c)).createdAt == Content(s).createdAt;
  }

  /** The UPDATE keeps every id and timestamp, so the table stays well formed. */
  lemma UpdateKeepsWellFormed(rows: seq<Snippet>, nextId: int, clock: nat, id: int, c: Counter)
    requires SnippetsWellFormed(rows, nextId, clock)
    ensures SnippetsWellFormed(UpdateWhere(rows, id, c), nextId, clock)
  {
    var r := UpdateWhere(rows, id, c);
    forall k | 0 <= k < |rows| ensures r[k].id == rows[k].id && r[k].createdAt == rows[k].createdAt {
      BumpKeepsKeys(rows[k], c);
    }
    SameKeysWellFormed(rows, r, nextId, clock);
  }

  lemma SameKeysWellFormed(rows: seq<Snippet>, r: seq<Snippet>, nextId: int, clock: nat)
    requires SnippetsWellFormed(rows, nextId, clock)
    requires |r| == |rows|
    requires forall k :: 0 <= k < |rows| ==> r[k].id == rows[k].id && r[k].createdAt == rows[k].createdAt
    ensures SnippetsWellFormed(r, nextId, clock)
  {
    assert Ascending(r, SnippetKey) by {
      forall i, j | 0 <= i < j < |r| ensures SnippetKey(r[i]) < SnippetKey(r[j]) {
        assert SnippetKey(rows[i]) < SnippetKey(rows[j]);
      }
    }
    assert Ascending(r, SnippetTime) by {
      forall i, j | 0 <= i < j < |r| ensures SnippetTime(r[i]) < SnippetTime(r[j]) {
        assert SnippetTime(rows[i]) < SnippetTime(rows[j]);
      }
    }
  }

  /** The outcome of an UPDATE followed by its SELECT, on rows with unique ids. */
  lemma UpdateThenSelect(rows: seq<Snippet>, id: int, c: Counter)
    requires Ascending(rows, SnippetKey)
    ensures match IndexOfId(rows, id)
      case None =>
        && UpdateWhere(rows, id, c) == rows
        && IndexOfId(UpdateWhere(rows, id, c), id).None?
      case Some(k) =>
        && UpdateWhere(rows, id, c) == rows[k := Bump(rows[k], c)]
        && IndexOfId(UpdateWhere(rows, id, c), id) == Some(k)
  {
    match IndexOfId(rows, id)
    case None =>
      UpdateMissingId(rows, id, c);
    case Some(k) =>
      UpdateAtUniqueId(rows, k, c);
      var r := UpdateWhere(rows, id, c);
      BumpKeepsKeys(rows[k], c);
      assert r[k].id == id;
      var found := IndexOfId(r, id);
      assert found.Some? && found.value <= k;
      assert forall j :: 0 <= j < k ==> r[j] == rows[j] && r[j].id != id;
      assert found.value == k;
  }

  // ---------------------------------------------------------------------
  // Queries

  /** Does `SELECT id FROM users WHERE id = $1` return a row? */
  predicate HasUser(users: seq<User>, id: int)
  {
    exists k :: 0 <= k < |users| && users[k].id == id
  }

  /** Is the category filter of the listing applied (`category && category !== 'All'`)? */
  predicate FiltersCategory(category: Option<string>)
  {
    Given(category) && category.value != "All"
  }

  predicate InCategory(category: Option<string>, s: Snippet)
  {
    !FiltersCategory(category) || s.category == category.value
  }

  /** The rows of `GET /api/snippets`: ORDER BY created_at DESC over rows
      kept in creation order. */
  function Listing(rows: seq<Snippet>, category: Option<string>): seq<Snippet>
  {
    Reverse(Filter(rows, s => InCategory(category, s)))
  }

  /** SELECT * FROM comments WHERE snippet_id = $1, in insertion order. */
  function CommentsOn(rows: seq<Comment>, id: int): seq<Comment>
  {
    Filter(rows, (c: Comment) => c.snippetId == id)
  }

  /** The rows of `GET /api/snippets/:id/comments`, newest first. */
  function CommentThread(rows: seq<Comment>, id: int): seq<Comment>
  {
    Reverse(CommentsOn(rows, id))
  }

  lemma ListingMembers(rows: seq<Snippet>, category: Option<string>, s: Snippet)
    ensures s in Listing(rows, category) <==> s in rows && InCategory(category, s)
  {
    ReverseMembers(Filter(rows, s => InCategory(category, s)), s);
  }

  lemma ListingNewestFirst(rows: seq<Snippet>, category: Option<string>)
    requires Ascending(rows, SnippetTime)
    ensures Descending(Listing(rows, category), SnippetTime)
  {
    FilterKeepsAscending(rows, s => InCategory(category, s), SnippetTime);
    ReverseOfAscending(Filter(rows, s => InCategory(category, s)), SnippetTime);
  }

  /** Without a category filter the listing is the whole table, newest first. */
  lemma {:induction false} ListingUnfiltered(rows: seq<Snippet>, category: Option<string>)
    requires !FiltersCategory(category)
    ensures Listing(rows, category) == Reverse(rows)
  {
    FilterAll(rows, s => InCategory(category, s));
  }

  /** A row inserted last is first in every listing that shows it, and the
      listings that do not show it are unchanged. */
  lemma ListingAfterInsert(rows: seq<Snippet>, s: Snippet, category: Option<string>)
    ensures Listing(rows + [s], category) ==
              if InCategory(category, s) then [s] + Listing(rows, category) else Listing(rows, category)
  {
    var p := (x: Snippet) => InCategory(category, x);
    FilterAppend(rows, [s], p);
    assert Filter([s], p) == if p(s) then [s] else [];
    if p(s) {
      ReverseSnoc(Filter(rows, p), s);
    } else {
      assert Filter(rows, p) + [] == Filter(rows, p);
    }
  }

  /** A comment inserted last heads its snippet's thread; other threads keep their rows. */
  lemma ThreadAfterInsert(rows: seq<Comment>, c: Comment, id: int)
    ensures CommentThread(rows + [c], id) ==
              if c.snippetId == id then [c] + CommentThread(rows, id) else CommentThread(rows, id)
  {
    var p := (x: Comment) => x.snippetId == id;
    FilterAppend(rows, [c], p);
    assert Filter([c], p) == if p(c) then [c] else [];
    if p(c) {
      ReverseSnoc(Filter(rows, p), c);
    } else {
      assert Filter(rows, p) + [] == Filter(rows, p);
    }
  }

  lemma ThreadMembers(rows: seq<Comment>, id: int, c: Comment)
    ensures c in CommentThread(rows, id) <==> c in rows && c.snippetId == id
  {
    ReverseMembers(CommentsOn(rows, id), c);
  }

  lemma ThreadNewestFirst(rows: seq<Comment>, id: int)
    requires Ascending(rows, CommentTime)
    ensures Descending(CommentThread(rows, id), CommentTime)
  {
    FilterKeepsAscending(rows, (c: Comment) => c.snippetId == id, CommentTime);
    ReverseOfAscending(CommentsOn(rows, id), CommentTime);
  }

  /** Each snippet's comment counter equals the number of its comments. */
  ghost predicate CountsAgree(snippets: seq<Snippet>, comments: seq<Comment>)
  {
    forall k :: 0 <= k < |snippets| ==> snippets[k].comments == |CommentsOn(comments, snippets[k].id)|
  }

  /** SELECT * FROM users WHERE email = $1 OR username = $2 is not empty. */
  predicate Taken(users: seq<User>, email: string, username: string)
  {
    exists k :: 0 <= k < |users| && (users[k].email == email || users[k].username == username)
  }

  /** WHERE email = $1 AND password = $2: an absent field binds NULL, which
      equals nothing. */
  predicate Credentials(u: User, req: LoginRequest)
  {
    req.email == Some(u.email) && req.password == Some(u.password)
  }

  /** The first user row matching the credentials. */
  function FindLogin(users: seq<User>, req: LoginRequest): (r: Option<nat>)
    ensures r.Some? ==> r.value < |users| && Credentials(users[r.value], req)
    ensures r.None? <==> forall k :: 0 <= k < |users| ==> !Credentials(users[k], req)
  {
    if users == [] then None
    else if Credentials(users[0], req) then Some(0)
    else match FindLogin(users[1..], req)
      case None => None
      case Some(k) => Some(k + 1)
  }

  /** Emails are unique, so at most one user matches a login. */
  lemma LoginMatchUnique(users: seq<User>, nextId: int, req: LoginRequest, i: nat, j: nat)
    requires UsersWellFormed(users, nextId)
    requires i < |users| && j < |users|
    requires Credentials(users[i], req) && Credentials(users[j], req)
    ensures i == j
  {
  }

  /** The row `POST /api/snippets` inserts: the request's fields, `before`
      stored as `before_code`, counters 0. */
  function NewSnippet(req: SnippetRequest, id: int, at: nat): Snippet
    requires req.title.Some? && req.category.Some? && req.language.Some?
    requires req.story.Some? && req.code.Some? && req.author.Some? && req.userId.Some?
  {
    Snippet(id, req.title.value, req.category.value, req.language.value, req.story.value,
            req.code.value, req.before, req.tags, req.author.value, req.userId.value,
            0, 0, 0, at)
  }

  predicate SnippetFieldsGiven(req: SnippetRequest)
  {
    && Given(req.title) && Given(req.category) && Given(req.language)
    && Given(req.story) && Given(req.code) && Given(req.author)
  }

  // ---------------------------------------------------------------------
  // The statements that change the tables

  /** `UPDATE snippets SET <counter> = <counter> + 1 WHERE id = $1`. */
  function CountUp(t: Tables, id: int, c: Counter): Tables
  {
    t.(snippets := UpdateWhere(t.snippets, id, c))
  }

  /** `INSERT INTO comments ...`: the row is appended and takes the next id
      and the current time. */
  function InsertComment(t: Tables, c: Comment): Tables
  {
    t.(comments := t.comments + [c], nextCommentId := t.nextCommentId + 1, clock := t.clock + 1)
  }

  /** `INSERT INTO snippets ...`. */
  function InsertSnippet(t: Tables, s: Snippet): Tables
  {
    t.(snippets := t.snippets + [s], nextSnippetId := t.nextSnippetId + 1, clock := t.clock + 1)
  }

  /** `INSERT INTO users ...`. */
  function InsertUser(t: Tables, u: User): Tables
  {
    t.(users := t.users + [u], nextUserId := t.nextUserId + 1)
  }

  /** The effect the counter UPDATE has on a table with unique ids: the one
      row with the id gets its counter bumped; without such a row nothing
      changes. */
  function BumpRow(rows: seq<Snippet>, id: int, c: Counter): seq<Snippet>
  {
    match IndexOfId(rows, id)
    case None => rows
    case Some(k) => rows[k := Bump(rows[k], c)]
  }

  class Server {
    var users: seq<User>
    var snippets: seq<Snippet>
    var comments: seq<Comment>
    var nextUserId: int
    var nextSnippetId: int
    var nextCommentId: int
    var clock: nat

    ghost predicate Valid()
      reads this
    {
      WellFormed(Db())
    }

    /** The state as one value, so that an `ensures` can say what changed. */
    function Db(): Tables
      reads this
    {
      Tables(users, snippets, comments, nextUserId, nextSnippetId, nextCommentId, clock)
    }

    /** Writes back the whole state at once. */
    method Store(t: Tables)
      modifies this
      ensures Db() == t
    {
      users, snippets, comments := t.users, t.snippets, t.comments;
      nextUserId, nextSnippetId, nextCommentId := t.nextUserId, t.nextSnippetId, t.nextCommentId;
      clock := t.clock;
    }

    constructor ()
      ensures Valid()
      ensures Db() == Tables([], [], [], 1, 1, 1, 0)
    {
      users, snippets, comments := [], [], [];
      nextUserId, nextSnippetId, nextCommentId := 1, 1, 1;
      clock := 0;
    }

    /** GET /api/snippets?category=&search= (server.js:33-50). The search
        term is accepted and ignored. */
    method ListSnippets(category: Option<string>, search: Option<string>) returns (r: Response)
      requires Valid()
      ensures r.status == 200 && r.body.SnippetList?
      ensures r.body.snippets == Listing(snippets, category)
      ensures forall s :: s in r.body.snippets <==>
                s in snippets && (!FiltersCategory(category) || s.category == category.value)
      ensures Descending(r.body.snippets, SnippetTime)
    {
      var rows := Listing(snippets, category);
      forall s ensures s in rows <==> s in snippets && InCategory(category, s) {
        ListingMembers(snippets, category, s);
      }
      ListingNewestFirst(snippets, category);
      r := Response(200, SnippetList(rows));
    }

    /** POST /api/snippets/:id/view (server.js:54-64). */
    method View(id: int) returns (r: Response)
      requires Valid()
      modifies this
      ensures Valid()
      ensures Db() == CountUp(old(Db()), id, Views)
      ensures r == match IndexOfId(old(snippets), id)
                   case None => Error(500, ServerError)
                   case Some(k) => Response(200, ViewsBody(old(snippets)[k].views + 1))
    {
      var t := Db();
      CounterUpdate(t, id, Views);
      Store(CountUp(t, id, Views));
      // the SELECT that follows: with no row, rows[0].views throws and the
      // handler answers 500
      var found := IndexOfId(snippets, id);
      r := if found.None? then Error(500, ServerError)
           else Response(200, ViewsBody(snippets[found.value].views));
    }

    /** GET /api/snippets/:id/comments (server.js:67-79). */
    method ListComments(id: int) returns (r: Response)
      requires Valid()
      ensures r.status == 200 && r.body.CommentList?
      ensures r.body.comments == CommentThread(comments, id)
      ensures forall c :: c in r.body.comments <==> c in comments && c.snippetId == id
      ensures Descending(r.body.comments, CommentTime)
    {
      var rows := CommentThread(comments, id);
      forall c ensures c in rows <==> c in comments && c.snippetId == id {
        ThreadMembers(comments, id, c);
      }
      ThreadNewestFirst(comments, id);
      r := Response(200, CommentList(rows));
    }

    /** POST /api/snippets/:id/comments (server.js:83-116). */
    method CreateComment(id: int, req: CommentRequest) returns (r: Response)
      requires Valid()
      modifies this
      ensures Valid()
      ensures !Given(req.commentText) || !Given(req.username) ==>
                r == Error(400, CommentFieldsRequired) && Db() == old(Db())
      ensures Given(req.commentText) && Given(req.username) && !GivenId(req.userId) ==>
                r == Error(401, LoginToComment) && Db() == old(Db())
      ensures Given(req.commentText) && Given(req.username) && GivenId(req.userId) &&
              !HasUser(old(users), req.userId.value) ==>
                r == Error(401, InvalidUser) && Db() == old(Db())
      ensures Given(req.commentText) && Given(req.username) && GivenId(req.userId) &&
              HasUser(old(users), req.userId.value) ==>
                var c := Comment(old(nextCommentId), id, req.userId.value, req.username.value,
                                 req.commentText.value, old(clock));
                && r == Response(201, CommentBody(c))
                && Db() == CountUp(InsertComment(old(Db()), c), id, Comments)
    {
      if !Given(req.commentText) || !Given(req.username) {
        r := Error(400, CommentFieldsRequired);
      } else if !GivenId(req.userId) {
        r := Error(401, LoginToComment);
      } else if !HasUser(users, req.userId.value) {
        r := Error(401, InvalidUser);
      } else {
        var t := Db();
        var c := Comment(t.nextCommentId, id, req.userId.value, req.username.value,
                         req.commentText.value, t.clock);
        CommentInsertFacts(t, c);
        // INSERT INTO comments ... RETURNING *, then the counter UPDATE
        Store(CountUp(InsertComment(t, c), id, Comments));
        r := Response(201, CommentBody(c));
      }
    }

    /** POST /api/snippets (server.js:120-151). */
    method CreateSnippet(req: SnippetRequest) returns (r: Response)
      requires Valid()
      modifies this
      ensures Valid()
      ensures !SnippetFieldsGiven(req) ==> r == Error(400, MissingFields) && Db() == old(Db())
      ensures SnippetFieldsGiven(req) && !GivenId(req.userId) ==>
                r == Error(401, LoginToCreate) && Db() == old(Db())
      ensures SnippetFieldsGiven(req) && GivenId(req.userId) && !HasUser(old(users), req.userId.value) ==>
                r == Error(401, InvalidUser) && Db() == old(Db())
      ensures SnippetFieldsGiven(req) && GivenId(req.userId) && HasUser(old(users), req.userId.value) ==>
                var s := Snippet(old(nextSnippetId), req.title.value, req.category.value,
                                 req.language.value, req.story.value, req.code.value,
                                 req.before, req.tags, req.author.value, req.userId.value,
                                 0, 0, 0, old(clock));
                && r == Response(201, SnippetBody(s))
                && Db() == InsertSnippet(old(Db()), s)
    {
      if !SnippetFieldsGiven(req) {
        r := Error(400, MissingFields);
      } else if !GivenId(req.userId) {
        r := Error(401, LoginToCreate);
      } else if !HasUser(users, req.userId.value) {
        r := Error(401, InvalidUser);
      } else {
        var t := Db();
        var s := NewSnippet(req, t.nextSnippetId, t.clock);
        SnippetInsertFacts(t, s);
        Store(InsertSnippet(t, s));
        r := Response(201, SnippetBody(s));
      }
    }

    /** POST /api/snippets/:id/like, as registered first (server.js:153-177). */
    method Like(id: int, userId: Option<int>) returns (r: Response)
      requires Valid()
      modifies this
      ensures Valid()
      ensures !GivenId(userId) ==> r == Error(401, LoginToLike) && Db() == old(Db())
      ensures GivenId(userId) && !HasUser(old(users), userId.value) ==>
                r == Error(401, InvalidUser) && Db() == old(Db())
      ensures GivenId(userId) && HasUser(old(users), userId.value) ==>
                && Db() == CountUp(old(Db()), id, Likes)
                && r == match IndexOfId(old(snippets), id)
                        case None => Error(500, ServerError)
                        case Some(k) => Response(200, LikesBody(old(snippets)[k].likes + 1))
    {
      if !GivenId(userId) {
        r := Error(401, LoginToLike);
      } else if !HasUser(users, userId.value) {
        r := Error(401, InvalidUser);
      } else {
        var t := Db();
        CounterUpdate(t, id, Likes);
        Store(CountUp(t, id, Likes));
        var found := IndexOfId(snippets, id);
        r := if found.None? then Error(500, ServerError)
             else Response(200, LikesBody(snippets[found.value].likes));
      }
    }

    /** POST /api/auth/signup (server.js:195-224). */
    method Signup(req: SignupRequest) returns (r: Response)
      requires Valid()
      modifies this
      ensures Valid()
      ensures !(Given(req.username) && Given(req.email) && Given(req.password)) ==>
                r == Error(400, AllFieldsRequired) && Db() == old(Db())
      ensures Given(req.username) && Given(req.email) && Given(req.password) &&
              Taken(old(users), req.email.value, req.username.value) ==>
                r == Error(400, UserExists) && Db() == old(Db())
      ensures Given(req.username) && Given(req.email) && Given(req.password) &&
              !Taken(old(users), req.email.value, req.username.value) ==>
                var u := User(old(nextUserId), req.username.value, req.email.value, req.password.value);
                && r == Response(201, UserBody(u.id, u.username, u.email))
                && Db() == InsertUser(old(Db()), u)
    {
      if !Given(req.username) || !Given(req.email) || !Given(req.password) {
        r := Error(400, AllFieldsRequired);
      } else if Taken(users, req.email.value, req.username.value) {
        r := Error(400, UserExists);
      } else {
        var t := Db();
        var u := User(t.nextUserId, req.username.value, req.email.value, req.password.value);
        UserInsertFacts(t, u);
        Store(InsertUser(t, u));
        r := Response(201, UserBody(u.id, u.username, u.email));
      }
    }

    /** POST /api/auth/login (server.js:227-245). Reads the users table only. */
    method Login(req: LoginRequest) returns (r: Response)
      requires Valid()
      ensures r.status == 200 <==> exists k :: 0 <= k < |users| && Credentials(users[k], req)
      ensures r.status == 200 ==>
                forall k :: 0 <= k < |users| && Credentials(users[k], req) ==>
                  r.body == UserBody(users[k].id, users[k].username, users[k].email)
      ensures r.status != 200 ==> r == Error(401, InvalidCredentials)
    {
      var found := FindLogin(users, req);
      if found.None? {
        return Error(401, InvalidCredentials);
      }
      var u := users[found.value];
      forall k | 0 <= k < |users| && Credentials(users[k], req) ensures k == found.value {
        LoginMatchUnique(users, nextUserId, req, k, found.value);
      }
      r := Response(200, UserBody(u.id, u.username, u.email));
    }
  }

  // ---------------------------------------------------------------------
  // What each statement does to a well-formed database

  lemma CommentsOnAfterInsert(rows: seq<Comment>, c: Comment)
    ensures |CommentsOn(rows + [c], c.snippetId)| == |CommentsOn(rows, c.snippetId)| + 1
    ensures forall id :: id != c.snippetId ==> CommentsOn(rows + [c], id) == CommentsOn(rows, id)
  {
    forall id ensures CommentsOn(rows + [c], id) ==
                      CommentsOn(rows, id) + (if c.snippetId == id then [c] else []) {
      var p := (x: Comment) => x.snippetId == id;
      FilterAppend(rows, [c], p);
      assert Filter([c], p) == if p(c) then [c] else [];
    }
  }

  /** The counter UPDATE on a well-formed database bumps exactly the row
      with the id, if there is one, and the SELECT after it finds the same
      row as before. */
  lemma CounterUpdate(t: Tables, id: int, c: Counter)
    requires WellFormed(t)
    ensures WellFormed(CountUp(t, id, c))
    ensures CountUp(t, id, c) == t.(snippets := BumpRow(t.snippets, id, c))
    ensures IndexOfId(CountUp(t, id, c).snippets, id) == IndexOfId(t.snippets, id)
  {
    UpdateKeepsWellFormed(t.snippets, t.nextSnippetId, t.clock, id, c);
    UpdateThenSelect(t.snippets, id, c);
  }

  /** `n` counter UPDATEs in a row, as `n` view or like requests on the
      same id make them. */
  function CountUpTimes(t: Tables, id: int, c: Counter, n: nat): Tables
  {
    if n == 0 then t else CountUp(CountUpTimes(t, id, c, n - 1), id, c)
  }

  /** Row `s` with counter `c` raised by `n`. */
  function Raise(s: Snippet, c: Counter, n: int): (r: Snippet)
    ensures Count(r, c) == Count(s, c) + n
    ensures forall d :: d != c ==> Count(r, d) == Count(s, d)
    ensures Content(r) == Content(s)
  {
    match c
    case Views => s.(views := s.views + n)
    case Likes => s.(likes := s.likes + n)
    case Comments => s.(comments := s.comments + n)
  }

  lemma BumpRaised(s: Snippet, c: Counter, n: int)
    ensures Bump(Raise(s, c, n), c) == Raise(s, c, n + 1)
  {
    match c
    case Views =>
    case Likes =>
    case Comments =>
  }

  /** `n` UPDATEs of the snippets table alone: every row with the id has
      its counter raised by `n`, and the other rows stay as they are. */
  function UpdateTimes(rows: seq<Snippet>, id: int, c: Counter, n: nat): (r: seq<Snippet>)
    ensures |r| == |rows|
    ensures forall j :: 0 <= j < |rows| ==>
              r[j] == if rows[j].id == id then Raise(rows[j], c, n) else rows[j]
  {
    if n == 0 then
      assert forall j :: 0 <= j < |rows| ==> Raise(rows[j], c, 0) == rows[j];
      rows
    else
      var v := UpdateTimes(rows, id, c, n - 1);
      var r := UpdateWhere(v, id, c);
      assert forall j :: 0 <= j < |rows| && rows[j].id == id ==>
        Content(v[j]) == Content(rows[j]) && Bump(Raise(rows[j], c, n - 1), c) == Raise(rows[j], c, n) by {
        forall j | 0 <= j < |rows| && rows[j].id == id
          ensures Bump(Raise(rows[j], c, n - 1), c) == Raise(rows[j], c, n) {
          BumpRaised(rows[j], c, n - 1);
        }
      }
      r
  }

  /** The other tables and the counters are not touched by the UPDATEs. */
  lemma {:induction false} CountUpTimesOnlySnippets(t: Tables, id: int, c: Counter, n: nat)
    ensures CountUpTimes(t, id, c, n) == t.(snippets := UpdateTimes(t.snippets, id, c, n))
  {
    if n > 0 {
      CountUpTimesOnlySnippets(t, id, c, n - 1);
    }
  }

  /** On an existing snippet, `n` counter UPDATEs raise its counter by
      exactly `n` (likes are not deduplicated) and change nothing else: not
      its other counters or fields, not the other rows, not the other
      tables. What each request answers is stated by `Server.View` and
      `Server.Like`. */
  lemma CountUpTimesAdds(t: Tables, id: int, c: Counter, n: nat, k: nat)
    requires Ascending(t.snippets, SnippetKey) && IndexOfId(t.snippets, id) == Some(k)
    ensures CountUpTimes(t, id, c, n) == t.(snippets := t.snippets[k := Raise(t.snippets[k], c, n)])
  {
    forall j | 0 <= j < |t.snippets| && j != k ensures t.snippets[j].id != id {
      assert SnippetKey(t.snippets[j]) != SnippetKey(t.snippets[k]);
    }
    CountUpTimesOnlySnippets(t, id, c, n);
  }

  /** Inserting comment `c` and bumping its snippet's counter keeps the
      database well formed, puts `c` at the head of its thread, and keeps
      every comment counter equal to the number of comments if they were
      equal before, whether or not the snippet exists. */
  lemma CommentInsertFacts(t: Tables, c: Comment)
    requires WellFormed(t)
    requires c.id == t.nextCommentId && c.createdAt == t.clock
    ensures WellFormed(CountUp(InsertComment(t, c), c.snippetId, Comments))
    ensures CountUp(InsertComment(t, c), c.snippetId, Comments).snippets ==
              BumpRow(t.snippets, c.snippetId, Comments)
    ensures CommentThread(InsertComment(t, c).comments, c.snippetId) ==
              [c] + CommentThread(t.comments, c.snippetId)
    ensures CountsAgree(t.snippets, t.comments) ==>
              CountsAgree(CountUp(InsertComment(t, c), c.snippetId, Comments).snippets, t.comments + [c])
  {
    CommentInsertWellFormed(t, c);
    ThreadAfterInsert(t.comments, c, c.snippetId);
    if CountsAgree(t.snippets, t.comments) {
      CountsAfterComment(t.snippets, t.comments, c);
    }
  }

  lemma CommentInsertWellFormed(t: Tables, c: Comment)
    requires WellFormed(t)
    requires c.id == t.nextCommentId && c.createdAt == t.clock
    ensures WellFormed(CountUp(InsertComment(t, c), c.snippetId, Comments))
    ensures CountUp(InsertComment(t, c), c.snippetId, Comments).snippets ==
              BumpRow(t.snippets, c.snippetId, Comments)
  {
    var (snippets, comments, nextSnippetId, nextCommentId, clock) :=
      (t.snippets, t.comments, t.nextSnippetId, t.nextCommentId, t.clock);
    UpdateKeepsWellFormed(snippets, nextSnippetId, clock, c.snippetId, Comments);
    SnippetsStayBelow(UpdateWhere(snippets, c.snippetId, Comments), nextSnippetId, clock);
    CommentsStayWellFormed(comments, c, nextCommentId, clock);
    UpdateThenSelect(snippets, c.snippetId, Comments);
  }


  /** Inserting snippet `s` keeps the database well formed, puts `s` at the
      head of the listing, and keeps the comment counters right. */
  lemma SnippetInsertFacts(t: Tables, s: Snippet)
    requires WellFormed(t)
    requires s.id == t.nextSnippetId && s.createdAt == t.clock && s.comments == 0
    ensures WellFormed(InsertSnippet(t, s))
    ensures Listing(InsertSnippet(t, s).snippets, None) == [s] + Listing(t.snippets, None)
    ensures Listing(InsertSnippet(t, s).snippets, Some(s.category)) ==
              [s] + Listing(t.snippets, Some(s.category))
    ensures CountsAgree(t.snippets, t.comments) && CommentsOn(t.comments, s.id) == [] ==>
              CountsAgree(InsertSnippet(t, s).snippets, t.comments)
  {
    SnippetInsertWellFormed(t, s);
    ListingAfterInsert(t.snippets, s, None);
    ListingAfterInsert(t.snippets, s, Some(s.category));
    CountsAfterSnippet(t.snippets, t.comments, s);
  }

  lemma SnippetInsertWellFormed(t: Tables, s: Snippet)
    requires WellFormed(t)
    requires s.id == t.nextSnippetId && s.createdAt == t.clock
    ensures WellFormed(InsertSnippet(t, s))
  {
    SnippetsStayWellFormed(t.snippets, s, t.nextSnippetId, t.clock);
    CommentsStayBelow(t.comments, t.nextCommentId, t.clock);
  }

  /** Inserting a user whose email and username are free keeps the
      database well formed. */
  lemma UserInsertFacts(t: Tables, u: User)
    requires WellFormed(t)
    requires u.id == t.nextUserId && !Taken(t.users, u.email, u.username)
    ensures WellFormed(InsertUser(t, u))
  {
    UsersStayWellFormed(t.users, u, t.nextUserId);
  }

  /** After a signup, logging in with the same email and password finds the
      new user. */
  lemma SignupThenLogin(t: Tables, u: User)
    requires !Taken(t.users, u.email, u.username)
    ensures FindLogin(InsertUser(t, u).users, LoginRequest(Some(u.email), Some(u.password))) ==
              Some(|t.users|)
  {
    var users := t.users + [u];
    var req := LoginRequest(Some(u.email), Some(u.password));
    assert Credentials(users[|t.users|], req);
    forall k | 0 <= k < |t.users| ensures !Credentials(users[k], req) {
      assert users[k] == t.users[k];
    }
  }

  /** Bumping views or likes leaves the comment counters in agreement. */
  lemma UpdateKeepsCounts(snippets: seq<Snippet>, comments: seq<Comment>, id: int, c: Counter)
    requires c != Comments
    ensures CountsAgree(snippets, comments) ==> CountsAgree(UpdateWhere(snippets, id, c), comments)
  {
    var r := UpdateWhere(snippets, id, c);
    if CountsAgree(snippets, comments) {
      forall k | 0 <= k < |r| ensures r[k].comments == |CommentsOn(comments, r[k].id)| {
        BumpKeepsKeys(snippets[k], c);
        assert Count(r[k], Comments) == Count(snippets[k], Comments);
      }
    }
  }

  lemma CountsAfterComment(snippets: seq<Snippet>, comments: seq<Comment>, c: Comment)
    requires Ascending(snippets, SnippetKey)
    requires CountsAgree(snippets, comments)
    ensures CountsAgree(UpdateWhere(snippets, c.snippetId, Comments), comments + [c])
  {
    CommentsOnAfterInsert(comments, c);
    var r := UpdateWhere(snippets, c.snippetId, Comments);
    forall k | 0 <= k < |r| ensures r[k].comments == |CommentsOn(comments + [c], r[k].id)| {
      BumpKeepsKeys(snippets[k], Comments);
    }
  }

  lemma CommentsStayWellFormed(rows: seq<Comment>, c: Comment, nextId: int, clock: nat)
    requires CommentsWellFormed(rows, nextId, clock)
    requires c.id == nextId && c.createdAt == clock
    ensures CommentsWellFormed(rows + [c], nextId + 1, clock + 1)
  {
    var t := rows + [c];
    forall k | 0 <= k < |t| ensures 1 <= t[k].id < nextId + 1 && t[k].createdAt < clock + 1 {
      if k < |rows| { assert t[k] == rows[k]; }
    }
    forall i, j | 0 <= i < j < |t|
      ensures CommentKey(t[i]) < CommentKey(t[j]) && CommentTime(t[i]) < CommentTime(t[j])
    {
      assert t[i] == rows[i];
      if j < |rows| {
        assert t[j] == rows[j];
        assert CommentKey(rows[i]) < CommentKey(rows[j]);
        assert CommentTime(rows[i]) < CommentTime(rows[j]);
      }
    }
  }

  lemma SnippetsStayWellFormed(rows: seq<Snippet>, s: Snippet, nextId: int, clock: nat)
    requires SnippetsWellFormed(rows, nextId, clock)
    requires s.id == nextId && s.createdAt == clock
    ensures SnippetsWellFormed(rows + [s], nextId + 1, clock + 1)
  {
    var t := rows + [s];
    forall k | 0 <= k < |t| ensures 1 <= t[k].id < nextId + 1 && t[k].createdAt < clock + 1 {
      if k < |rows| { assert t[k] == rows[k]; }
    }
    forall i, j | 0 <= i < j < |t|
      ensures SnippetKey(t[i]) < SnippetKey(t[j]) && SnippetTime(t[i]) < SnippetTime(t[j])
    {
      assert t[i] == rows[i];
      if j < |rows| {
        assert t[j] == rows[j];
        assert SnippetKey(rows[i]) < SnippetKey(rows[j]);
        assert SnippetTime(rows[i]) < SnippetTime(rows[j]);
      }
    }
  }

  lemma UsersStayWellFormed(users: seq<User>, u: User, nextId: int)
    requires UsersWellFormed(users, nextId)
    requires u.id == nextId && !Taken(users, u.email, u.username)
    ensures UsersWellFormed(users + [u], nextId + 1)
  {
    var t := users + [u];
    forall k | 0 <= k < |t| ensures 1 <= t[k].id < nextId + 1 {
      if k < |users| { assert t[k] == users[k]; }
    }
    forall i, j | 0 <= i < j < |t|
      ensures UserKey(t[i]) < UserKey(t[j])
      ensures t[i].email != t[j].email && t[i].username != t[j].username
    {
      assert t[i] == users[i];
      if j < |users| {
        assert t[j] == users[j];
        assert UserKey(users[i]) < UserKey(users[j]);
      }
    }
  }

  /** A new snippet whose id no comment references keeps the counters in agreement. */
  lemma CountsAfterSnippet(snippets: seq<Snippet>, comments: seq<Comment>, s: Snippet)
    requires s.comments == 0
    ensures CountsAgree(snippets, comments) && CommentsOn(comments, s.id) == [] ==>
              CountsAgree(snippets + [s], comments)
  {
    var t := snippets + [s];
    if CountsAgree(snippets, comments) && CommentsOn(comments, s.id) == [] {
      forall k | 0 <= k < |t| ensures t[k].comments == |CommentsOn(comments, t[k].id)| {
        if k < |snippets| { assert t[k] == snippets[k]; }
      }
    }
  }

  lemma CommentsStayBelow(rows: seq<Comment>, nextId: int, clock: nat)
    requires CommentsWellFormed(rows, nextId, clock)
    ensures CommentsWellFormed(rows, nextId, clock + 1)
  {
  }

  lemma SnippetsStayBelow(rows: seq<Snippet>, nextId: int, clock: nat)
    requires SnippetsWellFormed(rows, nextId, clock)
    ensures SnippetsWellFormed(rows, nextId, clock + 1)
  {
  }
}
