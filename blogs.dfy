/** The blog posts of internal/controllers/blogs.go: listing, viewing,
    creating, updating and deleting, with their visibility and authorship
    rules. The database is a value: the blogs table as a map from ID to
    row, or, for listings, the rows in `created_at DESC` order. Each
    database call's outcome is a parameter. Post content and summary are
    byte strings, as Go's strings are. */
module Blogs {
  import opened Common
  import Pagination
  import opened Utf8

  const MaxPageSize := 50
  const DefaultPageSize := 10
  /** The summary limit. */
  const SummaryLimit := 200
  /** "..." */
  const Ellipsis: Bytes := [0x2E, 0x2E, 0x2E]

  /** Status 1 is published, 0 a draft. */
  datatype Blog = Blog(id: nat, title: string, content: Bytes, summary: Bytes, authorId: nat,
                       status: int, viewCount: int)

  /** The bound JSON body of create and update. */
  datatype BlogRequest = BlogRequest(title: string, content: Bytes, summary: Bytes, status: int)

  /** The `data` field of the replies. */
  datatype BlogData =
    | NoData
    | ErrorText(text: string)
    | OneBlog(blog: Blog)
    | BlogPage(pagination: Pagination.PageOf<Blog>)

  /** The `binding:"required"` checks on Title and Content. */
  predicate Binds(req: Option<BlogRequest>)
  {
    req.Some? && req.value.title != "" && req.value.content != []
  }

  // ---------------------------------------------------------------- listing

  /** The WHERE clause GetBlogs picks. */
  datatype Listing = Published | DraftsOf(author: nat) | NoRows

  /** `status` and `own` are the raw query strings (defaults "1" and "0"),
      `user` the session's user_id. */
  function ListFilter(status: string, own: string, user: Option<nat>): Listing
  {
    if status == "0" then
      if own == "1" && user.Some? then DraftsOf(user.value) else NoRows
    else Published
  }

  predicate Lists(f: Listing, b: Blog)
  {
    match f
    case Published => b.status == 1
    case DraftsOf(a) => b.status == 0 && b.authorId == a
    case NoRows => false
  }

  /** Which posts a listing shows: status "0" shows the caller's own drafts
      and only with own = "1" and a session; any other status value shows
      published posts only. */
  lemma ListingRule(status: string, own: string, user: Option<nat>, b: Blog)
    ensures Lists(ListFilter(status, own, user), b) <==>
      if status == "0" then own == "1" && user.Some? && b.status == 0 && b.authorId == user.value
      else b.status == 1
  {
  }

  /** The rows a listing selects, in order. */
  function Matching(f: Listing, rows: seq<Blog>): (r: seq<Blog>)
    ensures |r| <= |rows|
    ensures forall i :: 0 <= i < |r| ==> Lists(f, r[i])
    ensures f.NoRows? ==> r == []
    decreases |rows|
  {
    if rows == [] then []
    else if Lists(f, rows[0]) then [rows[0]] + Matching(f, rows[1..])
    else Matching(f, rows[1..])
  }

  /** The filter keeps the table's order: filtering a concatenation
      concatenates the filtered parts, so earlier rows stay earlier. */
  lemma {:induction false} MatchingConcat(f: Listing, a: seq<Blog>, b: seq<Blog>)
    ensures Matching(f, a + b) == Matching(f, a) + Matching(f, b)
    decreases |a|
  {
    if a == [] {
      assert a + b == b;
    } else {
      assert (a + b)[0] == a[0] && (a + b)[1..] == a[1..] + b;
      MatchingConcat(f, a[1..], b);
    }
  }

  /** A post is listed exactly when it is in the table and the filter
      admits it. */
  lemma {:induction false} MatchingExactly(f: Listing, rows: seq<Blog>, b: Blog)
    ensures b in Matching(f, rows) <==> b in rows && Lists(f, b)
    decreases |rows|
  {
    if rows != [] {
      MatchingExactly(f, rows[1..], b);
      assert rows == [rows[0]] + rows[1..];
    }
  }

  /** GetBlogs. `page` and `pageSize` are the parsed query parameters;
      `count` and `list` the outcomes of the two queries. */
  function GetBlogs(rows: seq<Blog>, page: int, pageSize: int, status: string, own: string, user: Option<nat>,
                    count: Outcome, list: Outcome): (r: Reply<BlogData>)
    ensures count.Fail? || list.Fail? ==> r.status == 500 && r.body.Bad?
    ensures count.Pass? && list.Pass? ==>
      && r.status == 200 && r.body.Success? && r.body.data.BlogPage?
      && var d := r.body.data.pagination;
      && d == Pagination.Paginate(Matching(ListFilter(status, own, user), rows), page, pageSize,
                                  MaxPageSize, DefaultPageSize)
      && d.total == |Matching(ListFilter(status, own, user), rows)| == r.body.count
      && (forall i :: 0 <= i < |d.items| ==> Lists(ListFilter(status, own, user), d.items[i]))
      && (ListFilter(status, own, user).NoRows? ==> d.items == [] && d.total == 0)
  {
    if count.Fail? then ReturnError(500, "counting posts failed", ErrorText(count.reason))
    else if list.Fail? then ReturnError(500, "listing posts failed", ErrorText(list.reason))
    else
      var f := ListFilter(status, own, user);
      var shown := Matching(f, rows);
      var d := Pagination.Paginate(shown, page, pageSize, MaxPageSize, DefaultPageSize);
      assert forall i :: 0 <= i < |d.items| ==> Lists(f, d.items[i]);
      ReturnSuccess(200, "ok", BlogPage(d), d.total)
  }

  // ---------------------------------------------------------------- viewing

  /** The query GetBlog runs: a viewer sees published posts and, when
      logged in, their own drafts. */
  predicate Visible(viewer: Option<nat>, b: Blog)
  {
    if viewer.Some? then b.status == 1 || (b.status == 0 && b.authorId == viewer.value)
    else b.status == 1
  }

  /** GetBlog. `lookup` is the outcome of the `First` query: any error it
      reports, not only a missing row, gives 404. `bump` is the outcome of
      the view-count update, whose error the source ignores. The reply
      carries the row as fetched, before the update, and its own ID as the
      count. */
  function GetBlog(rows: map<nat, Blog>, id: nat, viewer: Option<nat>, lookup: Outcome, bump: Outcome): (r: (map<nat, Blog>, Reply<BlogData>))
    ensures lookup.Fail? || id !in rows || !Visible(viewer, rows[id]) ==>
      r.0 == rows && r.1.status == 404 && r.1.body.Bad?
    ensures lookup.Pass? && id in rows && Visible(viewer, rows[id]) ==>
      && r.1 == ReturnSuccess(200, "ok", OneBlog(rows[id]), rows[id].id)
      && r.0 == (if rows[id].status == 1 && bump.Pass?
                 then rows[id := rows[id].(viewCount := rows[id].viewCount + 1)] else rows)
  {
    if lookup.Fail? || id !in rows || !Visible(viewer, rows[id]) then (rows, ReturnError(404, "post not found", NoData))
    else
      var blog := rows[id];
      var rows' := if blog.status == 1 && bump.Pass? then rows[id := blog.(viewCount := blog.viewCount + 1)] else rows;
      (rows', ReturnSuccess(200, "ok", OneBlog(blog), blog.id))
  }

  /** Anonymous viewers see exactly the published posts; logged-in viewers
      also their own drafts and never another user's draft. */
  lemma VisibilityRule(rows: map<nat, Blog>, id: nat, viewer: Option<nat>, bump: Outcome)
    requires id in rows
    ensures viewer.None? ==> (GetBlog(rows, id, viewer, Pass, bump).1.status == 200 <==> rows[id].status == 1)
    ensures viewer.Some? && rows[id].status == 0 && rows[id].authorId != viewer.value ==>
      GetBlog(rows, id, viewer, Pass, bump).1.status == 404
    ensures GetBlog(rows, id, viewer, Pass, bump).1.status == 200 ==>
      rows[id].status == 1 || (viewer.Some? && rows[id].authorId == viewer.value)
  {
  }

  /** Only a published post's view count goes up, by one. */
  lemma ViewCountOnlyForPublished(rows: map<nat, Blog>, id: nat, viewer: Option<nat>, lookup: Outcome, bump: Outcome)
    requires id in rows
    ensures var rows' := GetBlog(rows, id, viewer, lookup, bump).0;
      && rows'.Keys == rows.Keys
      && (rows' != rows ==> rows[id].status == 1 && rows'[id].viewCount == rows[id].viewCount + 1)
      && (rows[id].status != 1 ==> rows' == rows)
  {
  }

  // ---------------------------------------------------------------- summary

  /** The summary rule as written: cut the content after 200 BYTES
      (`len(req.Content) > 200`, `req.Content[:200]`). */
  function SummaryAsWritten(content: Bytes, summary: Bytes): (r: Bytes)
    ensures summary != [] ==> r == summary
    ensures summary == [] && |content| <= SummaryLimit ==> r == content
    ensures summary == [] && |content| > SummaryLimit ==>
      |r| == SummaryLimit + 3 && r[..SummaryLimit] == content[..SummaryLimit] && r[SummaryLimit..] == Ellipsis
  {
    if summary == [] && |content| > SummaryLimit then content[..SummaryLimit] + Ellipsis
    else if summary == [] then content
    else summary
  }

  /** The as-written rule breaks well-formed text: 67 copies of 一 are 201
      bytes, so the cut falls after 66 characters and two bytes of the
      67th, leaving a malformed summary, though the text has only 67
      characters, far below the limit of 200. */
  lemma AsWrittenSummaryBreaksUtf8()
    ensures var content := Repeat(Yi, 67);
      && Valid(content) && RuneCount(content) == 67 && |content| == 201
      && !Valid(SummaryAsWritten(content, []))
  {
    assert StartsWithRune(Yi) && Yi[3..] == [];
    assert Valid(Yi) && RuneCount(Yi) == 1 by {
      assert Valid(Yi[RuneWidth(Yi)..]);
    }
    RepeatValid(Yi, 67);
    var head := Repeat(Yi, 66);
    RepeatValid(Yi, 66);
    var content := Repeat(Yi, 67);
    assert content == head + Yi;
    assert content[..SummaryLimit] == head + Yi[..2];
    var bad: Bytes := [0xE4, 0xB8, 0x2E, 0x2E, 0x2E];
    assert SummaryAsWritten(content, []) == head + bad;
    assert !StartsWithRune(bad);
    ValidConcat(head, bad);
  }

  /** The evidently intended rule ("the first 200 characters"): count and
      cut by characters. */
  function DeriveSummary(content: Bytes, summary: Bytes): (r: Bytes)
    ensures summary != [] ==> r == summary
    ensures summary == [] && RuneCount(content) <= SummaryLimit ==> r == content
    ensures summary == [] && RuneCount(content) > SummaryLimit ==>
      && |r| == RunePrefix(content, SummaryLimit) + 3
      && r[..|r| - 3] == content[..RunePrefix(content, SummaryLimit)]
      && r[|r| - 3..] == Ellipsis
  {
    if summary == [] && RuneCount(content) > SummaryLimit then content[..RunePrefix(content, SummaryLimit)] + Ellipsis
    else if summary == [] then content
    else summary
  }

  /** The corrected rule keeps text well-formed, and a cut summary holds
      exactly 200 characters of the content and the three dots. */
  lemma DeriveSummaryKeepsUtf8(content: Bytes, summary: Bytes)
    requires Valid(content) && Valid(summary)
    ensures Valid(DeriveSummary(content, summary))
    ensures summary == [] && RuneCount(content) > SummaryLimit ==>
      RuneCount(DeriveSummary(content, summary)) == SummaryLimit + 3
  {
    if summary == [] && RuneCount(content) > SummaryLimit {
      var cut := content[..RunePrefix(content, SummaryLimit)];
      RunePrefixValid(content, SummaryLimit);
      RunePrefixCount(content, SummaryLimit);
      AsciiRunes(Ellipsis, 0);
      ValidConcat(cut, Ellipsis);
    }
  }

  /** On ASCII content the two rules agree: the correction only changes
      multi-byte text. */
  lemma AsciiSummaryUnchanged(content: Bytes, summary: Bytes)
    requires AllAscii(content)
    ensures DeriveSummary(content, summary) == SummaryAsWritten(content, summary)
  {
    AsciiRunes(content, SummaryLimit);
  }

  // ----------------------------------------------------- create/update/delete

  /** CreateBlog. `insert` is the ID the database assigns, or its error;
      only Title, Content, Summary, AuthorID and Status are inserted, so the
      view count starts at its column default 0. The summary is derived by
      the rule as written (SummaryAsWritten), a cut after 200 bytes. */
  method CreateBlog(rows: map<nat, Blog>, user: Option<nat>, req: Option<BlogRequest>, insert: Result<nat>)
    returns (rows': map<nat, Blog>, reply: Reply<BlogData>)
    ensures user.None? ==> rows' == rows && reply.status == 401
    ensures user.Some? && !Binds(req) ==> rows' == rows && reply.status == 400
    ensures user.Some? && Binds(req) && insert.Err? ==> rows' == rows && reply.status == 500
    ensures user.Some? && Binds(req) && insert.Ok? ==>
      var b := Blog(insert.value, req.value.title, req.value.content,
                    SummaryAsWritten(req.value.content, req.value.summary), user.value, req.value.status, 0);
      rows' == rows[insert.value := b] && reply == ReturnSuccess(200, "created", OneBlog(b), insert.value)
  {
    if user.None? {
      return rows, ReturnError(401, "log in first", NoData);
    }
    if !Binds(req) {
      return rows, ReturnError(400, "bad parameters", ErrorText("binding failed"));
    }
    var r := req.value;
    if r.summary == [] && |r.content| > SummaryLimit {
      r := r.(summary := r.content[..SummaryLimit] + Ellipsis);
    } else if r.summary == [] {
      r := r.(summary := r.content);
    }
    if insert.Err? {
      return rows, ReturnError(500, "creating the post failed", ErrorText(insert.reason));
    }
    var b := Blog(insert.value, r.title, r.content, r.summary, user.value, r.status, 0);
    rows' := rows[insert.value := b];
    reply := ReturnSuccess(200, "created", OneBlog(b), insert.value);
  }

  /** The checks update and delete share, in order: a session (401), the
      row (404, for a missing row or any other error of the `First` query,
      whose outcome is `lookup`), authorship (403). None when all pass. */
  function Authorise(rows: map<nat, Blog>, id: nat, user: Option<nat>, lookup: Outcome): (code: Option<int>)
    ensures code == None <==> user.Some? && lookup.Pass? && id in rows && rows[id].authorId == user.value
    ensures user.None? ==> code == Some(401)
    ensures user.Some? && (lookup.Fail? || id !in rows) ==> code == Some(404)
    ensures user.Some? && lookup.Pass? && id in rows && rows[id].authorId != user.value ==> code == Some(403)
  {
    if user.None? then Some(401)
    else if lookup.Fail? || id !in rows then Some(404)
    else if rows[id].authorId != user.value then Some(403)
    else None
  }

  /** UpdateBlog: after the checks and binding, overwrite Title, Content,
      Summary and Status in place; the summary is taken as sent. */
  method UpdateBlog(rows: map<nat, Blog>, id: nat, user: Option<nat>, lookup: Outcome, req: Option<BlogRequest>, save: Outcome)
    returns (rows': map<nat, Blog>, reply: Reply<BlogData>)
    ensures Authorise(rows, id, user, lookup).Some? ==>
      rows' == rows && reply.status == Authorise(rows, id, user, lookup).value && reply.body.Bad?
    ensures Authorise(rows, id, user, lookup).None? && !Binds(req) ==> rows' == rows && reply.status == 400
    ensures Authorise(rows, id, user, lookup).None? && Binds(req) && save.Fail? ==> rows' == rows && reply.status == 500
    ensures Authorise(rows, id, user, lookup).None? && Binds(req) && save.Pass? ==>
      && id in rows' && rows'.Keys == rows.Keys
      && (forall k :: k in rows && k != id ==> rows'[k] == rows[k])
      && var b := rows'[id];
      && b.title == req.value.title && b.content == req.value.content
      && b.summary == req.value.summary && b.status == req.value.status
      && b.id == rows[id].id && b.authorId == rows[id].authorId && b.viewCount == rows[id].viewCount
      && reply == ReturnSuccess(200, "updated", OneBlog(b), b.id)
  {
    var denied := Authorise(rows, id, user, lookup);
    if denied.Some? {
      return rows, ReturnError(denied.value, "not allowed", NoData);
    }
    if !Binds(req) {
      return rows, ReturnError(400, "bad parameters", ErrorText("binding failed"));
    }
    var blog := rows[id];
    blog := blog.(title := req.value.title);
    blog := blog.(content := req.value.content);
    blog := blog.(summary := req.value.summary);
    blog := blog.(status := req.value.status);
    if save.Fail? {
      return rows, ReturnError(500, "updating the post failed", ErrorText(save.reason));
    }
    rows' := rows[id := blog];
    reply := ReturnSuccess(200, "updated", OneBlog(blog), blog.id);
  }

  /** DeleteBlog: after the checks, remove the row. */
  function DeleteBlog(rows: map<nat, Blog>, id: nat, user: Option<nat>, lookup: Outcome, del: Outcome): (r: (map<nat, Blog>, Reply<BlogData>))
    ensures Authorise(rows, id, user, lookup).Some? ==> r.0 == rows && r.1.status == Authorise(rows, id, user, lookup).value
    ensures Authorise(rows, id, user, lookup).None? && del.Fail? ==> r.0 == rows && r.1.status == 500
    ensures Authorise(rows, id, user, lookup).None? && del.Pass? ==>
      r.0 == rows - {id} && id !in r.0 && |r.0| == |rows| - 1 && r.1.status == 200
  {
    var denied := Authorise(rows, id, user, lookup);
    if denied.Some? then (rows, ReturnError(denied.value, "not allowed", NoData))
    else if del.Fail? then (rows, ReturnError(500, "deleting the post failed", ErrorText(del.reason)))
    else (rows - {id}, ReturnSuccess(200, "deleted", NoData, 0))
  }
}
