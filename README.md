# Code Snippet Museum — a verified model of its core

Code Snippet Museum is a small gallery where users post code snippets
together with the story behind them. Other users can view, like and
comment on those snippets. This project models two parts of it in Dafny and
proves properties of the model:

- **The API service** (`server/server.js`). It is modelled as the class
  `Api.Server`, which holds three tables as sequences of rows in insertion
  order: users, snippets and comments.
  - Each table has an id counter that starts at 1, as a serial column does.
  - A logical clock supplies `created_at` to snippets and comments, and each
    snippet or comment insert advances it. So `ORDER BY created_at DESC` is
    the reverse of insertion order. User rows carry no timestamp, and a user
    insert leaves the clock alone.
  - Each endpoint is one method. It checks its fields in the server's order
    and answers with the server's status and error text. It changes the
    tables only on the success path.
  - `Valid()` is the invariant every handler keeps. Ids and timestamps are
    strictly increasing, and every id lies below its table's counter. Emails
    and usernames are unique (module `Schema`).
  - Module `Routing` models Express's first-match dispatch. It proves that
    the second `like` handler can never run.
- **The client's helpers** (`client/src/App.jsx`):
  - gallery filtering and search (`Search`);
  - tag parsing (`Tags`);
  - the account totals (`Account`);
  - the escape step of the highlighter (`Highlight`);
  - the like button and the comment form (`Widgets`, as classes over the
    components' state variables).

  The JavaScript string operations are modelled on `seq<char>` in module
  `Strings`: `toLowerCase`, `includes`, `trim` and `split`. `Strings.Join`
is not called by the client; it is only the inverse that `Strings.JoinSplit`
uses to pin `split` down.

Request bodies have `Option` fields, and `None` means the field is absent.
JavaScript truthiness is written out by two predicates:
- `Given`: a string field is truthy when it is present and not `""`;
- `GivenId`: an id field is truthy when it is present and not `0`.

Each handler's server reply is a parameter of its method. The request a
handler sends is its result.

## Model

| member | source | states |
|---|---|---|
| Rows.Given | server/server.js:124 | The `!field` test on a string field, negated: the field is present and not `""`. It is used at lines 88, 124 and 199. |
| Rows.GivenId | server/server.js:159 | The `!user_id` test, negated: the id is present and not `0`. It is used at lines 93, 129 and 159. |
| Api.Server.ListSnippets | server/server.js:33-50 | Answers 200 with exactly the snippets of the requested category, or all of them when the category is absent, empty or `All`. The snippets come newest first. The search parameter is read and ignored. |
| Api.FiltersCategory | server/server.js:39 | The listing's `category && category !== 'All'` test: the category is present, not empty and not `All`. |
| Api.Listing | server/server.js:36-41 | The rows the listing query returns: the rows of the requested category, or all rows when the filter is off, in reverse insertion order, which is `ORDER BY created_at DESC`. |
| Api.ListingMembers | server/server.js:39-41 | A snippet is listed if and only if it is in the table and passes the category filter. |
| Api.ListingNewestFirst | server/server.js:36-45 | The listing is strictly newest first by `created_at`. |
| Api.ListingUnfiltered | server/server.js:36-39 | Without a category filter, the listing is the whole table in reverse insertion order. |
| Api.ListingAfterInsert | server/server.js:36-45 | A newly inserted snippet comes first in every listing that shows it. Listings that do not show it are unchanged. |
| Api.Server.View | server/server.js:54-64 | Adds 1 to `views` of the row with the id, and changes nothing else. For an existing snippet it answers 200 with the new total. For an unknown id it answers 500, because `rows[0]` is undefined; the table is then unchanged. Since the new state is the UPDATE of the old one and validity is kept, two views of an existing snippet in a row answer consecutive totals. |
| Api.UpdateWhere | server/server.js:57 | The counter UPDATE adds 1 to the counter of every row whose id matches, and leaves the other rows as they are. |
| Api.Bump | server/server.js:57 | One counter goes up by exactly 1. The other two counters and every other column stay. |
| Api.IndexOfId | server/server.js:58-59 | `SELECT ... WHERE id = $1` finds the first row with the id, or reports that there is none. |
| Api.UpdateAtUniqueId | server/server.js:57 | With unique ids, the UPDATE changes exactly one row. |
| Api.UpdateMissingId | server/server.js:57 | With no row carrying the id, the UPDATE changes nothing. |
| Api.UpdateThenSelect | server/server.js:57-59 | The SELECT after the UPDATE finds the same row as before, now bumped. For a missing id both statements see no row. |
| Api.UpdateKeepsWellFormed | server/server.js:57 | The counter UPDATE keeps ids and timestamps, so the invariant holds. |
| Api.CounterUpdate | server/server.js:169-171 | On a valid database the UPDATE bumps exactly the row with the id, if one exists. The SELECT finds the same row, and validity is kept. |
| Api.UpdateTimes | server/server.js:57 | `n` consecutive UPDATEs add exactly `n` to the counter of every row with the id. |
| Api.CountUpTimesAdds | server/server.js:169-172 | On an existing snippet, `n` like requests (or `n` view requests) add exactly `n` to its counter. Nothing deduplicates likes per user. No other field, row or table changes. |
| Api.Server.ListComments | server/server.js:67-79 | Answers 200 with exactly the comments whose `snippet_id` is the id, newest first. |
| Api.CommentThread | server/server.js:70-73 | The rows of `SELECT * FROM comments WHERE snippet_id = $1 ORDER BY created_at DESC`: the comments naming the snippet, in reverse insertion order. |
| Api.ThreadMembers | server/server.js:70-73 | A comment is in the thread if and only if it is in the table and names the snippet. |
| Api.ThreadNewestFirst | server/server.js:70-73 | The thread is strictly newest first. |
| Api.Server.CreateComment | server/server.js:83-116 | Checks in this order: missing or empty text or username gives 400; a missing or zero `user_id` gives 401; an unknown user gives 401. No error path changes any table. On success it appends exactly one comment, with the next id and the given snippet id, user id, username and text. It then raises that snippet's `comments` counter by 1 and answers 201 with the inserted row. |
| Api.HasUser | server/server.js:98-100 | `SELECT id FROM users WHERE id = $1` returns a row: some user has the id. The same check stands at 134-136 and 164-166. |
| Api.CountUp | server/server.js:57 | `UPDATE snippets SET <counter> = <counter> + 1 WHERE id = $1` as a change of the tables: only the snippet rows change, through `Api.UpdateWhere`. It stands for lines 57, 109 and 169. |
| Api.InsertComment | server/server.js:103-106 | `INSERT INTO comments ... RETURNING *`: the row is appended, the comment id counter and the clock advance, and the other tables stay. |
| Api.CommentInsertFacts | server/server.js:103-111 | After the insert and its counter UPDATE, the database is still valid. The new comment heads its snippet's thread. If every counter agreed with its comment count before, every counter still agrees afterwards, whether or not the snippet exists. For a comment on an unknown id the UPDATE changes nothing, and no counter names that id. |
| Api.ThreadAfterInsert | server/server.js:103-106 | A newly inserted comment comes first in its snippet's thread. Other threads are unchanged. |
| Api.CommentsOnAfterInsert | server/server.js:103-109 | An insert adds exactly one comment to its snippet's set and none to any other snippet's set. |
| Api.CountsAfterComment | server/server.js:103-109 | If every `comments` counter equalled the number of comments on its snippet, inserting a comment and raising its snippet's counter keeps them equal. This holds also when no snippet has the comment's id. |
| Api.CommentsStayWellFormed | server/server.js:103-106 | The inserted comment takes the next id and the latest time, so the comment table stays ordered. |
| Api.Server.CreateSnippet | server/server.js:120-151 | If any of title, category, language, story, code or author is missing or empty, it answers 400. A missing `user_id` gives 401, and so does an unknown user. No row is inserted on any of these paths. On success it appends exactly the row built from the request: `before` goes into `before_code`, the counters are 0, and the row takes the next id. It answers 201 with that row. |
| Api.SnippetFieldsGiven | server/server.js:124 | `!title || !category || !language || !story || !code || !author` is false: all six fields are present and not empty. |
| Api.NewSnippet | server/server.js:139-143 | The row the snippet INSERT returns: the request's title, category, language, story, code, tags, author and user id, `before` as `before_code`, the counters 0, the next id and the current time. |
| Api.InsertSnippet | server/server.js:139-144 | `INSERT INTO snippets ... RETURNING *`: the row is appended, the snippet id counter and the clock advance, and the other tables stay. |
| Api.SnippetInsertFacts | server/server.js:139-146 | After the insert the database is still valid. The new snippet heads the unfiltered listing and the listing of its own category; `Api.ListingAfterInsert` covers every other filter. If the comment counters agreed with the comments before and no comment names the new id yet, they still agree afterwards. Foreign keys are not enforced, so a comment posted earlier to the id the snippet now takes breaks that agreement. |
| Api.SnippetsStayWellFormed | server/server.js:139-144 | The inserted snippet takes the next id and the latest time, so the snippet table stays ordered. |
| Api.CountsAfterSnippet | server/server.js:139-144 | A new snippet with counter 0, whose id no comment names, keeps the comment counters in agreement. |
| Api.Server.Like | server/server.js:153-177 | A missing or zero `user_id` gives 401, and so does an unknown user. On both paths `likes` is unchanged. Otherwise it adds 1 to `likes` of the row with the id and answers 200 with the new total. An unknown id gives 500. |
| Api.UpdateKeepsCounts | server/server.js:169 | Raising views or likes keeps the comment counters in agreement. |
| Routing.Dispatch | server/server.js:153-192 | A request goes to the first registered route that matches it, and to none when nothing matches. |
| Routing.OnlyLikeRegisteredTwice | server/server.js:33-253 | `Routing.Routes` lists the eleven registrations in order (lines 33, 54, 67, 83, 120, 153, 180, 195, 227, 248 and 253). The two `like` registrations are the only two with the same method and pattern. |
| Routing.ShadowedRoute | server/server.js:180 | A route registered after another with the same verb and pattern never receives a request. |
| Routing.UncheckedLikeUnreachable | server/server.js:180-192 | The second `like` handler, which has no user check, is never dispatched to. |
| Routing.LikeGoesToCheckedHandler | server/server.js:153-177 | Every `POST /api/snippets/<id>/like` goes to the handler that checks the user. |
| Api.Server.Signup | server/server.js:195-224 | A missing or empty username, email or password gives 400 `All fields required`. An email or username already in use gives 400 `User already exists`. Neither path changes the table. Otherwise it appends the user with the next id and answers 201 with the id, username and email, without the password. |
| Api.Taken | server/server.js:204-209 | `SELECT * FROM users WHERE email = $1 OR username = $2` is not empty: some user has the email or the username. |
| Api.InsertUser | server/server.js:214-217 | `INSERT INTO users ...`: the row is appended and the user id counter advances. The clock and the other tables stay. |
| Api.UserInsertFacts | server/server.js:214-217 | A user whose email and username are both free keeps the users table valid. |
| Api.UsersStayWellFormed | server/server.js:214-217 | Ids stay increasing, and emails and usernames stay unique. |
| Api.SignupThenLogin | server/server.js:214-234 | After a signup, logging in with the same email and password finds exactly the new row. |
| Api.Server.Login | server/server.js:227-245 | Answers 200 if and only if some user has exactly that email and password, and the body is that user's id, username and email. Otherwise it answers 401 `Invalid credentials`. The tables are not changed. |
| Api.Credentials | server/server.js:231-234 | `WHERE email = $1 AND password = $2` for one row: both fields present and equal. An absent field binds NULL, which equals nothing. |
| Api.FindLogin | server/server.js:231-238 | The login query finds a matching user row, or reports that no row matches. |
| Api.LoginMatchUnique | server/server.js:231-240 | Emails are unique, so at most one user matches a login. |
| Search.FilteredSnippets | client/src/App.jsx:531-537 | A snippet is shown if and only if it was fetched, its category equals the selected one (or `All` is selected), and the search term occurs, ignoring case, in its title, its story or one of its tags. A selected category admits only snippets of that category. Each shown snippet appears as often as in the fetched list. |
| Search.MatchesFilter | client/src/App.jsx:532 | `matchesFilter`: the filter is `All`, or it equals the snippet's category. |
| Search.MatchesSearch | client/src/App.jsx:533-535 | `matchesSearch`: the lowercased term occurs in the lowercased title, in the story, or in one of the tags when the snippet has tags. |
| Search.FilteredKeepsOrder | client/src/App.jsx:531 | The shown snippets keep the order in which they were fetched. |
| Search.EmptyTermMatches | client/src/App.jsx:533-535 | An empty search box matches every snippet. |
| Search.SearchIgnoresCase | client/src/App.jsx:533-535 | Two terms that agree once lowercased select the same snippets. |
| Search.TitleMatchIgnoresCase | client/src/App.jsx:533 | A title that contains the term in any case of ASCII letters matches. |
| Search.InitialViewShowsAll | client/src/App.jsx:500-501 | With the initial `All` filter and an empty search, the page shows every fetched snippet, in order. |
| Search.AllFilterOnlySearches | client/src/App.jsx:532 | Under `All`, only the search decides. |
| Strings.ToLower | client/src/App.jsx:533 | `toLowerCase` maps each ASCII capital to its small letter, keeps every other character, and keeps the length. |
| Strings.ToLowerIdempotent | client/src/App.jsx:533 | Lowercasing twice is lowercasing once. |
| Strings.Includes | client/src/App.jsx:533 | `includes` is true if and only if the needle occurs at some position of the haystack. |
| Strings.IncludesIgnoringCase | client/src/App.jsx:533 | A stretch equal to the term up to case makes the lowercased haystack include the lowercased term. |
| Strings.Trim | client/src/App.jsx:364 | `trim` returns a slice of its input. The slice neither starts nor ends with white space, and only white space is cut off at either end. |
| Strings.TrimIdempotent | client/src/App.jsx:364 | Trimming twice is trimming once. |
| Strings.TrimAddsNothing | client/src/App.jsx:364 | Trimming introduces no character that the input did not have. |
| Strings.Split | client/src/App.jsx:364 | `split(',')` gives at least one piece, and no piece contains a comma. |
| Strings.JoinSplit | client/src/App.jsx:364 | Joining the pieces with the separator gives back the input. |
| Tags.Pieces | client/src/App.jsx:364 | The pieces between commas are trimmed, and there are exactly as many of them as the split produced. |
| Tags.ParseTags | client/src/App.jsx:364 | A tag is produced if and only if it is a non-empty trimmed piece, and each non-empty piece is kept once per occurrence, so `"react, react"` gives two tags. With `Tags.TagsKeepOrder` this fixes the result exactly. |
| Tags.TagsAreClean | client/src/App.jsx:364 | Every tag is non-empty, has no white space at either end and contains no comma. |
| Tags.TagsKeepOrder | client/src/App.jsx:364 | The tags keep the order in which they were typed. |
| Tags.NoTagsIffBlank | client/src/App.jsx:364 | There are no tags if and only if every piece between commas is blank. |
| Tags.EmptyFieldNoTags | client/src/App.jsx:364 | An empty field gives no tags. |
| Account.UserSnippets | client/src/App.jsx:424 | Exactly the snippets whose author is the current username are selected, each as often as it occurs in the list. |
| Account.TotalLikes | client/src/App.jsx:425 | `totalLikes`: the left fold of `sum + s.likes` from 0 over the user's snippets. |
| Account.TotalViews | client/src/App.jsx:426 | `totalViews`: the left fold of `sum + s.views` from 0 over the user's snippets. |
| Account.SumOverUserSnippets | client/src/App.jsx:425-426 | A sum over the user's snippets equals the same sum taken over the whole list, counting only rows the user authored. |
| Account.TotalsCountOwnSnippets | client/src/App.jsx:425-426 | `totalLikes` and `totalViews` add up the likes and views of exactly the user's snippets. |
| Account.NoSnippetsNoTotals | client/src/App.jsx:424-426 | A user with no snippets sees an empty selection and totals of 0. |
| Account.TotalsAdd | client/src/App.jsx:425-426 | The totals over two lists joined together are the sums of the totals over each list. |
| Account.OthersDoNotCount | client/src/App.jsx:424-426 | A snippet by another author does not change the totals. |
| Highlight.ReplaceAll | client/src/App.jsx:13 | A global replace of one character removes that character, unless the replacement contains it. It adds only characters of the input or of the replacement. |
| Highlight.EscapeAngles | client/src/App.jsx:13 | The escaped code contains no `<` and no `>`. |
| Highlight.EscapeAnglesPerCharacter | client/src/App.jsx:13 | The two passes together replace every `<` with `&lt;` and every `>` with `&gt;`, and leave every other character unchanged, in order. |
| Highlight.EscapeAnglesMergesSources | client/src/App.jsx:13 | The code `<` and the code `&lt;` escape to the same HTML, and the browser shows both as `<`. |
| Highlight.EscapeHtml | client/src/App.jsx:13 | The corrected escape, which also turns `&` into `&amp;`, leaves no `<` and no `>`. |
| Highlight.EscapeHtmlRoundTrip | client/src/App.jsx:13 | With the corrected escape, decoding the entities gives back exactly the source code. |
| Highlight.EscapeHtmlInjective | client/src/App.jsx:13 | With the corrected escape, different code always gives different HTML. |
| Widgets.LikeButton.constructor | client/src/App.jsx:41-42 | A card starts with the snippet's likes and in the not-liked state. |
| Widgets.LikeButton.HandleLike | client/src/App.jsx:44-62 | With nobody signed in, or on a card already liked, a click sends no request and changes nothing. Otherwise it sends exactly one like request, carrying the snippet id and the user's id. On success the card shows the returned total and becomes liked. On failure the card is unchanged. A liked card stays liked. |
| Widgets.LikeShowsServerTotal | client/src/App.jsx:50-54 | A successful like shows the server's total and marks the card as liked. |
| Widgets.LikedCardIgnoresClicks | client/src/App.jsx:50 | Once a card is liked, no number of further clicks sends a request or changes the card. |
| Widgets.SignedOutClicksDoNothing | client/src/App.jsx:46-49 | Signed out, no click ever sends a request or changes the card. |
| Widgets.AtMostOneSuccessfulLike | client/src/App.jsx:44-62 | For clicks each answered before the next: if the first successful like comes at click `i`, at most `i + 1` requests are sent, and the card ends up liked. |
| Widgets.CommentPanel.constructor | client/src/App.jsx:116-119 | The form starts with no comments and an empty input, and the count starts at the snippet's comment count. |
| Widgets.CommentPanel.SetDraft | client/src/App.jsx:246 | Typing replaces the draft and nothing else. |
| Widgets.CommentPanel.HandleAddComment | client/src/App.jsx:148-169 | Signed out, or with a draft that trims to nothing, it sends nothing and changes nothing. Otherwise it posts the untrimmed draft with the user's id and username. On success the returned comment is put first, the count rises by 1 and the input is cleared. On failure nothing changes. |
| Widgets.BlankDraftDoesNothing | client/src/App.jsx:154 | A draft made only of white space sends nothing and changes nothing. |
| Widgets.SuccessfulCommentShown | client/src/App.jsx:162-164 | On success the returned comment heads the list, the count is one higher and the input is empty. |
| Widgets.CountTracksList | client/src/App.jsx:162-163 | A count that starts equal to the length of the list stays equal to it. A fresh panel meets this only for a snippet without comments; otherwise the relation can first hold after the thread is fetched (`client/src/App.jsx:139-146`), which is not modelled. |
| Widgets.PostedCommentHasText | client/src/App.jsx:154-159 | A posted comment always has non-empty text. So the server's 400 check for missing text never fires on it, nor the username check when the username is not blank. |

## Left out

- The Express, cors and `pg` setup, the connection test, `listen`, and the
  health and root routes (`server/server.js:1-28`, `247-264`). They are
  framework plumbing. `Routing` lists the health and root routes only so
  that dispatch sees every route.
- SQL and Postgres themselves. The tables are modelled by their semantics:
  rows in insertion order, serial ids, and the logical clock.
  - Foreign keys are not enforced. A comment on an unknown snippet id is
    inserted, and its counter UPDATE changes nothing. The schema that would
    reject it is not part of this model.
  - The schema is not shown, so column defaults are assumed: the counters
    of a new snippet start at 0.
  - Route parameters are modelled as integers. A non-numeric `:id`, which
    makes Postgres raise an error and the handler answer 500, is not
    modelled.
  - The 500 answers of the `catch` blocks are modelled only where the shown
    code itself fails: `rows[0]` being undefined after the view and like
    SELECTs.
  - Integer columns are unbounded, so Postgres integer overflow is left
    out.
- Atomicity between the statements of a handler, and concurrent requests.
  Each handler is one sequential step.
- JSON fields are modelled with their intended types: strings as
  `Option<string>`, ids as `Option<int>`. Other JSON values and their
  truthiness are left out. For example, `"user_id": "0"` is truthy in the
  source and reaches the user lookup, answering 401 `Invalid user`. A
  numeric `comment_text` is truthy and is inserted.
- Widgets.AtMostOneSuccessfulLike: holds only for clicks each answered
  before the next. `HandleLike` and `HandleAddComment` are modelled as
  running to their end in one step. In the source each handler awaits its
  request before it updates state (`client/src/App.jsx:52-56`, `157-164`).
  So a second click while a like is in flight sends a second request, and
  the server adds two likes from one card. A second submit while a comment
  is in flight posts the same draft again, and it builds the list from the
  stale `comments`, so the first reply drops out of the display. This
  in-flight window is not modelled.
- Express's case-insensitive and trailing-slash route matching. `Routing`
  matches segments exactly. This does not affect the two `like`
  registrations, which have identical patterns.
- Strings.ToLower: maps only the ASCII capitals. Full Unicode case mapping
  is left out. A `string` here is a sequence of Unicode scalar values, not
  of UTF-16 code units as in JavaScript, so text holding lone surrogates,
  on which `includes` and `trim` can behave differently, is not modelled.
- Auth tokens, password hashing and sessions do not exist in the source.
  On the client, the signed-in user's `localStorage` persistence is left
  out, and that user is a parameter.
- `alert`, `console.error` and `axios`. `axios` replies are parameters
  (`None` when the request fails), and the request sent is a result.
- The string, comment and keyword passes of `highlightCode`
  (`client/src/App.jsx:14-20`). They depend on regular expressions with
  lookahead and back-references, and they rewrite the markup they insert.
  Only the escape at line 13 is modelled.
- Date formatting (`client/src/App.jsx:280`, the `date` field at 364). It
  depends on the clock and the locale.
- The client's other effects: `incrementView`, `fetchComments` and
  fetching the gallery only forward a server answer into component state.
  Two further client behaviours are not modelled either:
  - the add-snippet form's own required-field check, which shows an alert
    and sends nothing (`client/src/App.jsx:360-362`);
  - the sample snippets the gallery substitutes when its fetch fails
    (`client/src/App.jsx:523`).
- `server/server.js:180-192`: the second `like` handler is not modelled as
  a method. `Routing.UncheckedLikeUnreachable` proves that it is never
  dispatched to. The model follows the code and Express, where the first
  matching route answers.
- The comment counter agreeing with the comments (`Api.CountsAgree`) is
  proved as lemmas about each statement, not kept inside `Valid()`. FK
  enforcement is left out, so a comment on an unknown snippet exists
  without a counter. Agreement still holds after such a comment
  (`Api.CountsAfterComment`); it breaks only when a snippet later takes
  that id (`Api.SnippetInsertFacts`).

## Findings

| source | as written | input that shows it | evidently intended | confidence | as-written member | corrected member |
|---|---|---|---|---|---|---|
| client/src/App.jsx:13 | Only `<` and `>` are escaped before the code is inserted as HTML; `&` is left as it is. | Code containing `&lt;`: it escapes to `&lt;`, the same HTML as the code `<`, and the browser shows `<`. The snippet is displayed differently from what was posted. The same holds for any character reference in the code, such as `&#60;` or `&amp;`. | Escape `&` as `&amp;` first, so that the browser shows exactly the code. | not executed | Highlight.EscapeAnglesMergesSources | Highlight.EscapeHtmlRoundTrip |
