/** The message board of internal/controllers/messages.go: listing,
    creation, and the two notification tasks with their shared worker pool.
    The database is a value: the message table as a map from ID to row,
    or, for listings, the rows in `created_at DESC` order. Each database
    call's outcome is a parameter. */
module Messages {
  import opened Common
  import Pagination
  import Email

  /** The capacity of emailWorkerPool. */
  const WorkerPoolSize := 10
  const MaxPageSize := 100
  const DefaultPageSize := 20

  /** What the session holds: user_id, username and, optionally, email. */
  datatype Session = Session(userId: Option<nat>, username: string, email: Option<string>)

  /** The bound JSON body; ReplyTo 0 means "not a reply". */
  datatype MessageRequest = MessageRequest(message: string, email: string, replyTo: nat)

  /** A row of the messages table (models/message.go). */
  datatype Message = Message(id: nat, content: string, userId: nat, username: string, email: string,
                             ip: string, status: int, replyTo: Option<nat>, notifyTime: Option<int>)

  /** The `data` field of the replies. */
  datatype MessageData =
    | NoData
    | ErrorText(text: string)
    | CreatedIds(messageId: nat, status: int)
    | MessagePage(pagination: Pagination.PageOf<Message>)

  /** The work CreateMessage detaches: one goroutine per task. */
  datatype Task = AdminNotify(message: Message) | ReplyNotify(message: Message)

  /** The messages that are listed: those with status 1, in order. */
  function Approved(rows: seq<Message>): (r: seq<Message>)
    ensures |r| <= |rows|
    ensures forall i :: 0 <= i < |r| ==> r[i].status == 1
    decreases |rows|
  {
    if rows == [] then []
    else if rows[0].status == 1 then [rows[0]] + Approved(rows[1..])
    else Approved(rows[1..])
  }

  /** The filter keeps the table's order: filtering a concatenation
      concatenates the filtered parts, so earlier rows stay earlier. */
  lemma {:induction false} ApprovedConcat(a: seq<Message>, b: seq<Message>)
    ensures Approved(a + b) == Approved(a) + Approved(b)
    decreases |a|
  {
    if a == [] {
      assert a + b == b;
    } else {
      assert (a + b)[0] == a[0] && (a + b)[1..] == a[1..] + b;
      ApprovedConcat(a[1..], b);
    }
  }

  /** A message is listed exactly when it is in the table with status 1. */
  lemma {:induction false} ApprovedExactly(rows: seq<Message>, m: Message)
    ensures m in Approved(rows) <==> m in rows && m.status == 1
    decreases |rows|
  {
    if rows != [] {
      ApprovedExactly(rows[1..], m);
      assert rows == [rows[0]] + rows[1..];
    }
  }

  /** GetMessages. `page` and `pageSize` are the parsed query parameters;
      `count` and `list` the outcomes of the two queries. */
  function GetMessages(rows: seq<Message>, page: int, pageSize: int, count: Outcome, list: Outcome): (r: Reply<MessageData>)
    ensures count.Fail? || list.Fail? ==> r.status == 500 && r.body.Bad?
    ensures count.Pass? && list.Pass? ==>
      && r.status == 200 && r.body.Success? && r.body.data.MessagePage?
      && var d := r.body.data.pagination;
      && d == Pagination.Paginate(Approved(rows), page, pageSize, MaxPageSize, DefaultPageSize)
      && d.total == |Approved(rows)| == r.body.count
      && (forall i :: 0 <= i < |d.items| ==> d.items[i].status == 1)
  {
    if count.Fail? then ReturnError(500, "counting messages failed", ErrorText(count.reason))
    else if list.Fail? then ReturnError(500, "listing messages failed", ErrorText(list.reason))
    else
      var shown := Approved(rows);
      var d := Pagination.Paginate(shown, page, pageSize, MaxPageSize, DefaultPageSize);
      assert forall i :: 0 <= i < |d.items| ==> d.items[i].status == 1;
      ReturnSuccess(200, "ok", MessagePage(d), d.total)
  }

  /** The message CreateMessage builds for a logged-in user, with its two
      in-place rewrites: ReplyTo when the request names a parent, and the
      session's email when the request gives none. */
  method NewMessage(userId: nat, username: string, sessionEmail: Option<string>, req: MessageRequest, ip: string)
    returns (m: Message)
    ensures m.id == 0 && m.content == req.message && m.ip == ip && m.notifyTime == None
    ensures m.status == 1 && m.userId == userId && m.username == username
    ensures m.replyTo.Some? <==> req.replyTo > 0
    ensures m.replyTo.Some? ==> m.replyTo.value == req.replyTo
    ensures req.email != "" ==> m.email == req.email
    ensures req.email == "" && sessionEmail.Some? ==> m.email == sessionEmail.value
    ensures req.email == "" && sessionEmail.None? ==> m.email == ""
  {
    m := Message(0, req.message, userId, username, req.email, ip, 1, None, None);
    if req.replyTo > 0 {
      m := m.(replyTo := Some(req.replyTo));
    }
    if m.email == "" && sessionEmail.Some? {
      m := m.(email := sessionEmail.value);
    }
  }

  /** CreateMessage. `req` is None when the body is not valid JSON;
      `insert` is the ID the database assigns, or its error. Returns the
      new table, the reply, the detached tasks and the stored row. */
  method CreateMessage(table: map<nat, Message>, session: Session, req: Option<MessageRequest>, ip: string,
                       insert: Result<nat>)
    returns (table': map<nat, Message>, reply: Reply<MessageData>, tasks: seq<Task>, created: Option<Message>)
    ensures created.None? ==> table' == table && tasks == [] && reply.body.Bad?
    ensures session.userId.None? ==> created.None? && reply.status == 401
    ensures session.userId.Some? && (req.None? || req.value.message == "") ==> created.None? && reply.status == 400
    ensures session.userId.Some? && req.Some? && req.value.message != "" && insert.Err? ==>
      created.None? && reply.status == 500
    ensures session.userId.Some? && req.Some? && req.value.message != "" && insert.Ok? ==>
      && created.Some?
      && var m := created.value;
      && m.id == insert.value && table' == table[m.id := m]
      && m.status == 1 && m.userId == session.userId.value && m.username == session.username
      && m.content == req.value.message && m.ip == ip && m.notifyTime.None?
      && m.email == (if req.value.email != "" then req.value.email
                     else if session.email.Some? then session.email.value else "")
      && (m.replyTo.Some? ==> m.replyTo.value == req.value.replyTo)
      && (m.replyTo.Some? <==> req.value.replyTo > 0)
      && tasks == [AdminNotify(m)] + (if req.value.replyTo > 0 then [ReplyNotify(m)] else [])
      && reply == ReturnSuccess(200, "message submitted", CreatedIds(m.id, 1), m.id)
  {
    table', tasks, created := table, [], None;
    if session.userId.None? {
      reply := ReturnError(401, "log in before posting", NoData);
      return;
    }
    if req.None? || req.value.message == "" {
      reply := ReturnError(400, "bad parameters", ErrorText("binding failed"));
      return;
    }
    var m := NewMessage(session.userId.value, session.username, session.email, req.value, ip);
    if insert.Err? {
      reply := ReturnError(500, "saving the message failed", ErrorText(insert.reason));
      return;
    }
    m := m.(id := insert.value);
    table' := table[m.id := m];
    created := Some(m);
    tasks := [AdminNotify(m)];
    if m.replyTo.Some? && m.replyTo.value > 0 {
      tasks := tasks + [ReplyNotify(m)];
    }
    reply := ReturnSuccess(200, "message submitted", CreatedIds(m.id, m.status), m.id);
  }

  /** The emailWorkerPool channel as a counter of held tokens. */
  class WorkerPool {
    var inUse: nat

    ghost predicate Valid()
      reads this
    {
      inUse <= WorkerPoolSize
    }

    constructor ()
      ensures Valid() && inUse == 0
    {
      inUse := 0;
    }

    /** `emailWorkerPool <- struct{}{}`; the send blocks while all tokens are
        held, so a sequential caller only acquires below capacity. */
    method Acquire()
      requires Valid() && inUse < WorkerPoolSize
      modifies this
      ensures Valid() && inUse == old(inUse) + 1
    {
      inUse := inUse + 1;
    }

    /** `<-emailWorkerPool` in the deferred function. */
    method Release()
      requires Valid() && inUse > 0
      modifies this
      ensures Valid() && inUse == old(inUse) - 1
    {
      inUse := inUse - 1;
    }
  }

  /** The body of sendNotificationAsync: mail the administrators, then,
      only when that returned no error, write notify_time = `now` to the
      message's row (`update` is the outcome of that write, whose error the
      source ignores). */
  method AdminNotifyBody(svc: Email.EmailService, adminEmails: string, table: map<nat, Message>, message: Message,
                         now: int, sentAt: string, transport: Outcome, update: Outcome)
    returns (table': map<nat, Message>, mail: Email.MailOutcome)
    ensures mail.IsError() <==> !Email.Unconfigured(svc) && transport.Fail?
    ensures mail.IsError() ==> table' == table
    ensures table' != table ==> !mail.IsError()
    ensures table'.Keys == table.Keys
    ensures forall k :: k in table && k != message.id ==> table'[k] == table[k]
    ensures !mail.IsError() && update.Pass? && message.id in table ==>
      table'[message.id] == table[message.id].(notifyTime := Some(now))
    ensures update.Fail? ==> table' == table
    ensures mail.Delivered? || mail.TransportFailed? ==> mail.envelope.to == Email.Split(adminEmails, ',')
  {
    mail := Email.SendMessageNotification(svc, adminEmails, message.content, message.username, message.email,
                                          message.ip, sentAt, transport);
    table' := table;
    if !mail.IsError() && update.Pass? && message.id in table {
      table' := table[message.id := table[message.id].(notifyTime := Some(now))];
    }
  }

  /** The body of notifyOriginalAuthor: find the parent message (`lookup`
      is the query's own outcome; a missing row is also a failure), and
      mail its author unless the parent has no email. A reply without
      ReplyTo would dereference nil; that panic is recovered, so nothing is
      sent. */
  method ReplyNotifyBody(svc: Email.EmailService, table: map<nat, Message>, reply: Message,
                         lookup: Outcome, transport: Outcome)
    returns (mail: Email.MailOutcome)
    ensures reply.replyTo.None? || lookup.Fail? || reply.replyTo.value !in table ==> mail.NotSent?
    ensures reply.replyTo.Some? && lookup.Pass? && reply.replyTo.value in table ==>
      var parent := table[reply.replyTo.value];
      && (mail.NotSent? <==> parent.email == "")
      && (mail.Delivered? || mail.TransportFailed? ==>
            && mail.envelope.to == [parent.email]
            && mail.envelope.msg == Email.MessageText(svc.from, [parent.email], Email.ReplySubject,
                                                      Email.ReplyBody(parent.content, reply.content)))
  {
    if reply.replyTo.None? || lookup.Fail? || reply.replyTo.value !in table {
      return Email.NotSent;
    }
    var parent := table[reply.replyTo.value];
    if parent.email == "" {
      return Email.NotSent;
    }
    mail := Email.SendReplyNotification(svc, parent.email, parent.content, reply.content, transport);
  }

  /** sendNotificationAsync as one task: hold a token while the body runs;
      `fault` is a panic inside the body, which the deferred function
      recovers after releasing the token. */
  method RunAdminNotify(pool: WorkerPool, svc: Email.EmailService, adminEmails: string, table: map<nat, Message>,
                        message: Message, now: int, sentAt: string, transport: Outcome, update: Outcome,
                        fault: bool)
    returns (table': map<nat, Message>, mail: Email.MailOutcome)
    requires pool.Valid() && pool.inUse < WorkerPoolSize
    modifies pool
    ensures pool.Valid() && pool.inUse == old(pool.inUse)
    ensures fault ==> table' == table && mail.NotSent?
    ensures mail.IsError() ==> table' == table
    ensures !fault ==> (mail.IsError() <==> !Email.Unconfigured(svc) && transport.Fail?)
    ensures table'.Keys == table.Keys
    ensures forall k :: k in table && k != message.id ==> table'[k] == table[k]
    ensures !fault && !mail.IsError() && update.Pass? && message.id in table ==>
      table'[message.id] == table[message.id].(notifyTime := Some(now))
    ensures update.Fail? ==> table' == table
    ensures !fault && (mail.Delivered? || mail.TransportFailed?) ==> mail.envelope.to == Email.Split(adminEmails, ',')
  {
    pool.Acquire();
    if fault {
      table', mail := table, Email.NotSent;
    } else {
      table', mail := AdminNotifyBody(svc, adminEmails, table, message, now, sentAt, transport, update);
    }
    pool.Release();
  }

  /** notifyOriginalAuthor as one task, with the same token discipline. */
  method RunReplyNotify(pool: WorkerPool, svc: Email.EmailService, table: map<nat, Message>, reply: Message,
                        lookup: Outcome, transport: Outcome, fault: bool)
    returns (mail: Email.MailOutcome)
    requires pool.Valid() && pool.inUse < WorkerPoolSize
    modifies pool
    ensures pool.Valid() && pool.inUse == old(pool.inUse)
    ensures fault ==> mail.NotSent?
    ensures !fault && (reply.replyTo.None? || lookup.Fail? || reply.replyTo.value !in table) ==> mail.NotSent?
    ensures !fault && reply.replyTo.Some? && lookup.Pass? && reply.replyTo.value in table ==>
      var parent := table[reply.replyTo.value];
      && (mail.NotSent? <==> parent.email == "")
      && (mail.Delivered? || mail.TransportFailed? ==>
            && mail.envelope.to == [parent.email]
            && mail.envelope.msg == Email.MessageText(svc.from, [parent.email], Email.ReplySubject,
                                                      Email.ReplyBody(parent.content, reply.content)))
  {
    pool.Acquire();
    if fault {
      mail := Email.NotSent;
    } else {
      mail := ReplyNotifyBody(svc, table, reply, lookup, transport);
    }
    pool.Release();
  }
}
