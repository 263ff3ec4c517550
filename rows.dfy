/** The rows of the three tables and the JSON request bodies, shared by the
    server and the client. A body field the client leaves out is `None`;
    a nullable column holding NULL is `None`. */
module Rows {
  import opened Wrappers

  datatype User = User(id: int, username: string, email: string, password: string)

  datatype Snippet = Snippet(
    id: int,
    title: string,
    category: string,
    language: string,
    story: string,
    code: string,
    beforeCode: Option<string>,
    tags: Option<seq<string>>,
    author: string,
    userId: int,
    views: int,
    likes: int,
    comments: int,
    createdAt: nat)

  datatype Comment = Comment(
    id: int,
    snippetId: int,
    userId: int,
    username: string,
    commentText: string,
    createdAt: nat)

  /** Body of `POST /api/snippets/:id/comments`. */
  datatype CommentRequest = CommentRequest(
    userId: Option<int>, username: Option<string>, commentText: Option<string>)

  /** Body of `POST /api/snippets`. */
  datatype SnippetRequest = SnippetRequest(
    title: Option<string>,
    category: Option<string>,
    language: Option<string>,
    story: Option<string>,
    code: Option<string>,
    before: Option<string>,
    tags: Option<seq<string>>,
    author: Option<string>,
    userId: Option<int>)

  /** Body of `POST /api/auth/signup`. */
  datatype SignupRequest = SignupRequest(
    username: Option<string>, email: Option<string>, password: Option<string>)

  /** Body of `POST /api/auth/login`. */
  datatype LoginRequest = LoginRequest(email: Option<string>, password: Option<string>)

  /** JavaScript truthiness of a string field: present and not `""`. */
  predicate Given(f: Option<string>)
  {
    f.Some? && f.value != ""
  }

  /** JavaScript truthiness of a numeric field: present and not `0`. */
  predicate GivenId(f: Option<int>)
  {
    f.Some? && f.value != 0
  }
}
