# hope_log: a verified model of the blog service's rules

hope_log is a personal blog service written in Go on gin, gorm, Redis and
SMTP. This project models the sequential rules inside its request handlers
and proves properties of them:

- **Unique-visitor counter** (`Metrics` module). Redis is modelled as a
  `RedisClient` object with two fields: the `site:visit_users` set and the
  `site:visit_count` counter. `SAdd` reports whether a user is new, and only
  a new user is counted by `Incr`.
- **Message board** (`Messages` module): listing, message creation, the
  administrator and reply notifications, and the worker pool of 10 mail
  tokens as a counter.
- **Blog posts** (`Blogs` module): listing, the draft filter, visibility,
  the view-count gate, summary derivation, and the authorship checks on
  update and delete.
- **Mail** (`Email` module): the "unconfigured" skip, the header layout, and
  Go's `strings.Split`/`strings.Join` on recipient lists.
- **Passwords** (`Users` module): the `BeforeSave` hook's decision whether
  to hash a password, as a method on a `User` object.
- **Replies** (`Common` module): the JSON reply helpers and their mapping
  from error codes to HTTP statuses.
- **Support modules**:
  - `Pagination` holds the page arithmetic that both lists share.
  - `Utf8` holds UTF-8 decoding as RFC 3629 section 4 describes it. It reads
    an invalid byte as a one-byte character, as Go's `utf8.DecodeRune` does.

Modelling choices:

- **Database tables are values.** A table handled by ID is a
  `map<nat, Row>`. A listing is a `seq` of rows already in `created_at DESC`
  order.
- **Foreign calls become parameters.** The outcome of every database query,
  Redis command and SMTP transfer that the code acts on is passed in as an
  `Outcome` (`Pass` or `Fail(reason)`) or a `Result`. This includes the
  `First` lookups of one post, where any error, not only a missing row,
  gives 404. So are the session and the bound JSON
  body. A body that fails to bind is `None`.
- **bcrypt is a function parameter.** The hash is a `Hasher` function
  passed in.
- **Query values arrive parsed**, as `strconv.Atoi` leaves them. A value
  with a syntax error arrives as 0. An out-of-range numeral arrives clamped
  to the 64-bit range.
- **Strings that Go measures in bytes are byte strings.** Blog content and
  summaries and user passwords are `seq<byte>`, so their length is Go's
  `len`.
- **Go's operators carry over.** Go's truncating `/` matches Dafny's
  Euclidean `/` here, because no operand is negative.

## Model

| member | source | states |
|---|---|---|
| Common.ErrorStatus | internal/controllers/common.go:24-29 | the status is the code itself for every code of 400 or more, with 401 included, and 200 for every lower code |
| Common.ReturnSuccess | internal/controllers/common.go:17-20 | the HTTP status is 200 whatever the code; the body is a success body holding exactly the code, message, data and count given |
| Common.ReturnError | internal/controllers/common.go:21-31 | the HTTP status is ErrorStatus(code); the body is an error body holding exactly the code, message and data given, without a count |
| Pagination.Normalize | internal/controllers/messages.go:201-211 | page ≥ 1 (a smaller page becomes 1); the page size is kept when it is in 1..max and otherwise becomes the default; offset = (page-1)·size ≥ 0 |
| Pagination.PageCount | internal/controllers/messages.go:241 | the ceiling of total/pageSize: pages·size ≥ total, (pages-1)·size < total when total > 0, and pages = 0 exactly when total = 0 |
| Pagination.Window | internal/controllers/messages.go:226-230 | LIMIT/OFFSET: at most `limit` rows; row i of the window is row offset+i of the input; its length is exact in each of the three cases |
| Pagination.Paginate | internal/controllers/blogs.go:25-83 | the page object of a list reply: the page is the query's page clamped to at least 1; the size is the query's size when it is in 1..max and otherwise the default; the items are exactly the LIMIT size OFFSET (page-1)·size window of the rows; total = number of rows; pages = PageCount, the ceiling of total/size |
| Pagination.LastPageIsNonEmpty | internal/controllers/blogs.go:83 | for a non-empty listing, the last counted page holds at least one row and the page after it holds none |
| Metrics.RedisClient.constructor | config/configs.go:133 | a fresh store: an empty visitor set and a counter of 0 (SetNX) |
| Metrics.RedisClient.Get | internal/controllers/metrics.go:26 | GET returns the counter, or the error it is given |
| Metrics.RedisClient.SAdd | internal/controllers/metrics.go:36-40 | on success, it reports whether the id was new and adds it to the set; on failure, the set is unchanged |
| Metrics.RedisClient.Incr | internal/controllers/metrics.go:44-48 | on success, the counter goes up by one and is returned; on failure, it is unchanged |
| Metrics.IncrementVisit | internal/controllers/metrics.go:15-55 | the command-by-command method leaves the store and returns the reply exactly as the specification function Visit describes, for every combination of faults, including a nil client |
| Metrics.NoClientFails | internal/controllers/metrics.go:17-20 | without a client: a 500 reply and the store unchanged |
| Metrics.AnonymousChangesNothing | internal/controllers/metrics.go:26-30 | without a session user, whatever fails: status 200 and the store unchanged; the current count is returned when the GET succeeds, 0 when it fails |
| Metrics.IncrementIffNew | internal/controllers/metrics.go:36-49 | without faults: the user joins the set, the counter rises by one exactly when the user was new, and the reply carries the new counter |
| Metrics.RepeatVisitChangesNothing | internal/controllers/metrics.go:26-54 | a user already in the set changes nothing whatever fails, and gets the count read before SADD |
| Metrics.SAddFailureChangesNothing | internal/controllers/metrics.go:37-40 | a failed SADD gives a 500 reply and leaves the set and the counter unchanged |
| Metrics.FaultFreeRunCountsVisitors | internal/controllers/metrics.go:36-49 | from any store where counter = set size (such as the fresh one), every fault-free sequence of visits keeps counter = set size |
| Metrics.UndercountIsPermanent | internal/controllers/metrics.go:36-49 | under any faults the counter never exceeds the set size, the set only grows, and the number of uncounted visitors never shrinks |
| Metrics.PartialFailureLosesVisit | internal/controllers/metrics.go:42-48 | if SADD succeeds and INCR fails, the user is in the set but uncounted, and any later visit by that user leaves the store as it is |
| Metrics.ScenarioU1U1U2 | internal/controllers/metrics.go:36-54 | from the fresh store, visits by u1, u1, u2 return 1, 1, 2 and end with the set {u1, u2} and counter 2 |
| Metrics.ScenarioOnClient | internal/controllers/metrics.go:36-54 | the same scenario against a fresh RedisClient object returns 1, 1, 2 |
| Messages.Approved | internal/controllers/messages.go:217 | the listed rows all have status 1 and are no more than the input |
| Messages.ApprovedExactly | internal/controllers/messages.go:217 | a message is listed if and only if it is in the table with status 1 |
| Messages.ApprovedConcat | internal/controllers/messages.go:216-230 | the filter keeps the table's order: filtering a concatenation concatenates the filtered parts |
| Messages.GetMessages | internal/controllers/messages.go:200-244 | either query's failure gives 500; otherwise 200 and a page equal to Paginate of the approved rows with maximum 100 and default 20: the normalised page and size, exactly that window of the approved rows, each with status 1, and total = count = number of approved rows |
| Messages.NewMessage | internal/controllers/messages.go:66-84 | status 1, user and name from the session, content and IP from the request; ReplyTo is set if and only if the request's ReplyTo > 0; the request email wins, then the session email, then "" |
| Messages.CreateMessage | internal/controllers/messages.go:48-115 | in order: no session gives 401, a failed bind or empty message gives 400, a failed insert gives 500, and each leaves the table unchanged with no task; on success the row with the assigned ID is stored, an admin task is always queued, a reply task exactly when ReplyTo > 0, and the reply carries the ID |
| Messages.WorkerPool.Acquire | internal/controllers/messages.go:120 | takes one token; the pool stays within its 10 tokens |
| Messages.WorkerPool.Release | internal/controllers/messages.go:121-122 | gives one token back |
| Messages.AdminNotifyBody | internal/controllers/messages.go:133-159 | the mail goes to the comma-split admin list; notify_time is written (to that row only) exactly when the send returned no error and the update succeeds; after a send error, no row changes |
| Messages.ReplyNotifyBody | internal/controllers/messages.go:172-196 | a missing ReplyTo, a failed lookup or a missing parent sends nothing; otherwise nothing is sent exactly when the parent has no email, and a sent mail goes to [parent email] with the reply text |
| Messages.RunAdminNotify | internal/controllers/messages.go:118-160 | the token count is back to its prior value and within 10 on every path, including a recovered panic (which changes nothing); without a panic, the error and recipient rules and the notify_time rule of AdminNotifyBody hold for the task |
| Messages.RunReplyNotify | internal/controllers/messages.go:163-197 | the token count is back to its prior value and within 10 on every path, including a recovered panic (which sends nothing); without a panic, the not-sent and recipient rules of ReplyNotifyBody hold for the task |
| Blogs.ListingRule | internal/controllers/blogs.go:47-63 | status "0" lists a post only when own = "1", a user is logged in, and the post is a draft by that user; any other status lists exactly the published posts |
| Blogs.Matching | internal/controllers/blogs.go:47-63 | every listed post passes the filter; the filter that matches nothing lists nothing |
| Blogs.MatchingExactly | internal/controllers/blogs.go:47-63 | a post is listed if and only if it is in the table and the filter admits it |
| Blogs.MatchingConcat | internal/controllers/blogs.go:47-72 | the filter keeps the `created_at DESC` order: filtering a concatenation concatenates the filtered parts |
| Blogs.GetBlogs | internal/controllers/blogs.go:24-86 | either query's failure gives 500; otherwise 200 and a page equal to Paginate of the matching posts with maximum 50 and default 10: the normalised page and size, exactly that window of the matching posts, each passing the filter, total = count = number of matching posts, and nothing when the filter admits nothing |
| Blogs.GetBlog | internal/controllers/blogs.go:89-117 | a failed lookup, a missing post or an invisible post gives 404 and no change; a visible one is returned as fetched with its own ID as the count, and the table changes only for a published post whose update succeeds, by one view |
| Blogs.VisibilityRule | internal/controllers/blogs.go:98-109 | an anonymous viewer gets 200 exactly for published posts; another user's draft gives 404; a 200 means published or the viewer's own post |
| Blogs.ViewCountOnlyForPublished | internal/controllers/blogs.go:112-114 | the set of posts never changes; the table changes only for a published post, by one view; a draft leaves it unchanged |
| Blogs.SummaryAsWritten | internal/controllers/blogs.go:139-143 | the rule as written: a given summary is kept; short content is the summary; content over 200 bytes gives its first 200 bytes plus "...", 203 bytes in all |
| Blogs.AsWrittenSummaryBreaksUtf8 | internal/controllers/blogs.go:139-143 | 67 copies of 一 are well-formed UTF-8 of 67 characters and 201 bytes, yet the as-written rule gives a malformed summary |
| Blogs.DeriveSummary | internal/controllers/blogs.go:138-143 | the corrected rule: a given summary is kept; content of at most 200 characters is the summary; longer content gives its first 200 characters plus "..." |
| Blogs.DeriveSummaryKeepsUtf8 | internal/controllers/blogs.go:138-143 | for well-formed input the corrected summary is well-formed, and a cut summary has exactly 203 characters |
| Blogs.AsciiSummaryUnchanged | internal/controllers/blogs.go:139-143 | on ASCII content the corrected and the as-written rules give the same summary |
| Blogs.CreateBlog | internal/controllers/blogs.go:120-165 | in order: no session gives 401, a failed bind (title or content missing) gives 400, a failed insert gives 500, each with the table unchanged; on success the stored post has the request's fields, the summary of the rule as written (SummaryAsWritten: the 200-byte cut), the session user as author and 0 views |
| Blogs.Authorise | internal/controllers/blogs.go:175-190 | the checks in order: no session gives 401, a failed lookup or a missing post gives 404, a post by another user gives 403; the checks pass exactly for the author of a post the lookup found |
| Blogs.UpdateBlog | internal/controllers/blogs.go:168-213 | a failed check gives its code, a failed bind 400 and a failed save 500, each with the table unchanged; on success exactly title, content, summary and status are overwritten (the summary as sent), ID, author and views are kept, and no other post changes |
| Blogs.DeleteBlog | internal/controllers/blogs.go:216-246 | a failed check (401, 404 or 403, as in lines 223-238) or a failed delete (500) leaves the table unchanged; otherwise exactly that post is removed |
| Email.Split | pkg/email/email.go:63 | strings.Split on a one-character separator: always at least one piece, and no piece holds the separator |
| Email.JoinSplit | pkg/email/email.go:42-63 | joining the pieces of a split gives the original string back |
| Email.SplitJoin | pkg/email/email.go:42-63 | splitting the join of one or more separator-free pieces gives the pieces back |
| Email.MessageText | pkg/email/email.go:41-46 | the text ends with the body, and before it come the From, To (recipients joined by commas), Subject and Content-Type lines, each ended by CRLF, then an empty CRLF line |
| Email.ComposeMessage | pkg/email/email.go:41-46 | the successive appends build exactly MessageText |
| Email.SendEmail | pkg/email/email.go:33-59 | skipped (no error, nothing sent) if and only if host or username is empty; otherwise this address host:port, PLAIN auth, sender, recipients and MessageText go to the transport; an error is returned if and only if the transport fails, and it wraps the transport's reason |
| Email.SendMessageNotification | pkg/email/email.go:62-83 | always reaches SendEmail; the recipients are the comma split of the admin list, their join is the list itself, an empty list gives [""], and the mail holds the admin body |
| Email.SendReplyNotification | pkg/email/email.go:86-104 | nothing is sent, with no error, if and only if the address is empty; otherwise the recipients are exactly [address]; an error comes only from a configured transport failing |
| Users.HookedPassword | models/user.go:28-42 | an empty password or one that looks hashed (60 or more bytes and a $2a$, $2b$ or $2y$ prefix) is kept; any other password becomes the hash's output |
| Users.LengthCountsBytes | models/user.go:31 | the length test counts bytes: "$2a$" followed by n ≥ 19 copies of 一 has n + 4 characters (23 for n = 19) but 3n + 4 ≥ 61 bytes, and is kept unhashed |
| Users.HookIdempotent | models/user.go:30-38 | when the hash output has bcrypt's shape, running the hook on its result leaves it unchanged |
| Users.User.BeforeSave | models/user.go:28-42 | the hook fails exactly when a needed hash fails, and then Password is unchanged; otherwise Password becomes HookedPassword; an empty or already-hashed password is kept |
| Users.User.ChangePassword | models/user.go:51-54 | the new plaintext goes through the hook; if the hook fails, the save fails and Password holds the plaintext; otherwise Password is the hooked value and the save's outcome is reported |
| Users.User.UpdateLastLogin | models/user.go:57-61 | LastLogin becomes the given time, and the column write's outcome is returned |

## Findings

| source | as written | input that shows it | evidently intended | confidence | as-written member | corrected member |
|---|---|---|---|---|---|---|
| internal/controllers/blogs.go:139-143 | an empty summary becomes `Content[:200] + "..."` when `len(Content) > 200`, which cuts after 200 bytes | content of 67 copies of 一 (U+4E00, 3 bytes each, 201 bytes) is cut after 66 characters and 2 bytes of the 67th, and the summary is malformed UTF-8 | the comment on line 138 says the first 200 characters: cut after 200 characters, and only when there are more than 200 | high (not executed) | Blogs.AsWrittenSummaryBreaksUtf8 | Blogs.DeriveSummaryKeepsUtf8 |

`Blogs.CreateBlog` follows the source and stores the summary of the rule
as written (`Blogs.SummaryAsWritten`). `Blogs.DeriveSummary` is the
corrected rule, and `Blogs.DeriveSummaryKeepsUtf8` is proved about it.
`Blogs.AsciiSummaryUnchanged` shows that the correction changes nothing on
ASCII text.

## Left out

- Goroutines, blocking channel sends and panic/recover mechanics. `WorkerPool.Acquire` requires a free token rather than blocking. A panic inside a task is a flag that aborts the task before it has any effect. Concurrent interleavings of Redis commands and database writes are not modelled: each command is one atomic step.
- `BatchProcessMessages` (internal/controllers/messages.go:247-294) is not part of this model: it changes no data. It starts one goroutine per bound ID, each of which sleeps 100 ms and sends a string to a results channel, and then replies with the gathered strings and their number. Its only content is concurrency and timing, and it does not use the e-mail worker pool.
- `CheckLoginStatus` (internal/controllers/messages.go:27-42) is not part of this model: it only echoes the session.
- `User.ValidatePassword` (models/user.go:45-48) is not part of this model: it is a call into bcrypt's comparison, which is foreign code.
- bcrypt itself is a function parameter (`Hasher`). Nothing is assumed about it except, in `HookIdempotent`, that its outputs have bcrypt's shape.
- The clock, durations and date formatting: `now` and the formatted `sentAt` text are parameters.
- Logging is left out: it has no effect on results.
- The reply, subject and mail-body texts are given in English; the rules do not depend on their wording.
- gin binding is modelled as an `Option` of the request plus the two `binding:"required"` checks (`Blogs.Binds`, a non-empty message in `CreateMessage`). Type errors in the JSON body are `None`.
- gorm's `Preload` of the author or user, `updated_at` and the `created_at DESC` ordering are left out: the listing's order is the order of the input sequence.
- Blogs.UpdateBlog: the re-fetch after a successful save (internal/controllers/blogs.go:209-210) is left out. Its error is ignored, and it only adds the preloaded author, so the reply carries the row as saved.
- A table's keys are meant to equal the rows' `id` fields; the model does not state this as an invariant.
- Pagination.Normalize computes the offset in unbounded integers. Go's `int` would wrap for a page beyond about 9·10^16, which an out-of-range numeral clamped by `strconv.Atoi` reaches.
- Metrics.RedisClient.Incr does not model Redis's overflow error at the 64-bit maximum.
- Messages.AdminNotifyBody: when mail is unconfigured, `SendEmail` returns nil, so notify_time is still written even though nothing was sent. The model states this as the source does (an unconfigured send is not an error).
- Messages.ReplyNotifyBody: a failed parent lookup and a missing parent row are the same failure, as in the source, where `First` returns an error for both.
- Wiring is not part of this model: configuration loading, the router, `main`, the logger package and the demo program.
