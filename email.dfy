/** The mail service of pkg/email/email.go: message composition, the
    "unconfigured" skip and the two notification helpers. The SMTP
    transport (smtp.SendMail) is foreign: its outcome is a parameter. HTML
    bodies and subjects are given in English wording. */
module Email {
  import opened Common

  const CRLF := "\r\n"
  const ContentTypeLine := "Content-Type: text/html; charset=UTF-8\r\n"
  const AdminSubject := "New message on your blog"
  const ReplySubject := "Your message received a reply"

  /** EmailService: the mail settings copied from the configuration. */
  datatype EmailService = EmailService(host: string, port: string, username: string, password: string, from: string)

  /** smtp.PlainAuth(identity, username, password, host). */
  datatype Auth = PlainAuth(identity: string, username: string, password: string, host: string)

  /** One call of smtp.SendMail. */
  datatype Envelope = Envelope(addr: string, auth: Auth, from: string, to: seq<string>, msg: string)

  /** What a send attempt did. NotSent: returned nil before reaching
      SendEmail; Skipped: SendEmail found the service unconfigured, logged a
      warning and returned nil; Delivered: the transport accepted the
      message and success was logged; TransportFailed: the transport
      failed and a wrapped error was returned. */
  datatype MailOutcome =
    | NotSent
    | Skipped
    | Delivered(envelope: Envelope)
    | TransportFailed(envelope: Envelope, reason: string)
  {
    /** The returned Go error is non-nil. */
    predicate IsError() { TransportFailed? }
  }

  /** strings.Split(s, string(sep)) for a one-character separator: the
      pieces between separators, always at least one. */
  function Split(s: string, sep: char): (parts: seq<string>)
    ensures |parts| >= 1
    ensures forall i :: 0 <= i < |parts| ==> sep !in parts[i]
    decreases |s|
  {
    if s == [] then [""]
    else
      var rest := Split(s[1..], sep);
      if s[0] == sep then [""] + rest
      else [[s[0]] + rest[0]] + rest[1..]
  }

  /** strings.Join(parts, string(sep)). */
  function Join(parts: seq<string>, sep: char): string
  {
    if |parts| == 0 then ""
    else if |parts| == 1 then parts[0]
    else parts[0] + [sep] + Join(parts[1..], sep)
  }

  /** Joining the pieces of a split restores the string. */
  lemma {:induction false} JoinSplit(s: string, sep: char)
    ensures Join(Split(s, sep), sep) == s
    decreases |s|
  {
    if s != [] {
      var rest := Split(s[1..], sep);
      JoinSplit(s[1..], sep);
      if s[0] == sep {
        assert Join([""] + rest, sep) == "" + [sep] + Join(rest, sep) by {
          assert ([""] + rest)[1..] == rest;
        }
      } else {
        var parts := [[s[0]] + rest[0]] + rest[1..];
        assert parts[1..] == rest[1..];
        if |rest| > 1 {
          assert Join(rest, sep) == rest[0] + [sep] + Join(rest[1..], sep);
        }
      }
    }
  }

  /** Splitting a string whose front piece holds no separator. */
  lemma {:induction false} SplitFront(a: string, t: string, sep: char)
    requires sep !in a
    ensures Split(a + t, sep) == [a + Split(t, sep)[0]] + Split(t, sep)[1..]
    decreases |a|
  {
    if a != [] {
      SplitFront(a[1..], t, sep);
      assert (a + t)[1..] == a[1..] + t;
      assert (a + t)[0] == a[0];
      assert [a[0]] + (a[1..] + Split(t, sep)[0]) == a + Split(t, sep)[0];
    } else {
      var parts := Split(t, sep);
      assert a + t == t && a + parts[0] == parts[0];
      assert parts == [parts[0]] + parts[1..];
    }
  }

  /** Splitting a join gives back the pieces when none holds the separator
      and there is at least one (Join of no pieces is "", which splits into
      one empty piece). */
  lemma {:induction false} SplitJoin(parts: seq<string>, sep: char)
    requires |parts| >= 1
    requires forall i :: 0 <= i < |parts| ==> sep !in parts[i]
    ensures Split(Join(parts, sep), sep) == parts
    decreases |parts|
  {
    if |parts| == 1 {
      SplitFront(parts[0], "", sep);
      assert parts[0] + "" == parts[0];
    } else {
      var rest := Join(parts[1..], sep);
      SplitJoin(parts[1..], sep);
      SplitFront(parts[0], [sep] + rest, sep);
      assert parts[0] + [sep] + rest == parts[0] + ([sep] + rest);
      assert ([sep] + rest)[1..] == rest;
      assert Split([sep] + rest, sep) == [""] + parts[1..];
      assert Join(parts, sep) == parts[0] + ([sep] + rest);
      assert parts[0] + "" == parts[0];
      assert parts == [parts[0]] + parts[1..];
    }
  }

  /** The mail text SendEmail hands to the transport: the From, To,
      Subject and Content-Type header lines, a blank line, then the body. */
  function MessageText(from: string, to: seq<string>, subject: string, body: string): (m: string)
    ensures |m| >= |body| && m[|m| - |body|..] == body
    ensures m[..|m| - |body|] == "From: " + from + CRLF + "To: " + Join(to, ',') + CRLF
                                 + "Subject: " + subject + CRLF + ContentTypeLine + CRLF
  {
    var head := "From: " + from + CRLF + "To: " + Join(to, ',') + CRLF
                + "Subject: " + subject + CRLF + ContentTypeLine + CRLF;
    assert (head + body)[..|head|] == head;
    head + body
  }

  /** The successive appends SendEmail performs to build the message. */
  method ComposeMessage(from: string, to: seq<string>, subject: string, body: string) returns (message: string)
    ensures message == MessageText(from, to, subject, body)
  {
    message := "From: " + from + CRLF;
    message := message + "To: " + Join(to, ',') + CRLF;
    message := message + "Subject: " + subject + CRLF;
    message := message + ContentTypeLine;
    message := message + CRLF;
    message := message + body;
    ghost var head := "From: " + from + CRLF + "To: " + Join(to, ',') + CRLF
                      + "Subject: " + subject + CRLF + ContentTypeLine + CRLF;
    assert message == head + body;
    assert MessageText(from, to, subject, body)[..|head|] == head;
  }

  predicate Unconfigured(s: EmailService)
  {
    s.host == "" || s.username == ""
  }

  /** EmailService.SendEmail with the transport's outcome given. */
  method SendEmail(s: EmailService, to: seq<string>, subject: string, body: string, transport: Outcome)
    returns (r: MailOutcome)
    ensures r.Skipped? <==> Unconfigured(s)
    ensures r.IsError() <==> !Unconfigured(s) && transport.Fail?
    ensures r.Delivered? <==> !Unconfigured(s) && transport.Pass?
    ensures r.TransportFailed? ==> r.reason == "failed to send mail: " + transport.reason
    ensures r.Delivered? || r.TransportFailed? ==>
      && r.envelope.addr == s.host + ":" + s.port
      && r.envelope.auth == PlainAuth("", s.username, s.password, s.host)
      && r.envelope.from == s.from
      && r.envelope.to == to
      && r.envelope.msg == MessageText(s.from, to, subject, body)
  {
    if s.host == "" || s.username == "" {
      return Skipped;
    }
    var message := ComposeMessage(s.from, to, subject, body);
    var envelope := Envelope(s.host + ":" + s.port, PlainAuth("", s.username, s.password, s.host), s.from, to, message);
    if transport.Fail? {
      return TransportFailed(envelope, "failed to send mail: " + transport.reason);
    }
    r := Delivered(envelope);
  }

  function AdminBody(username: string, userEmail: string, userIP: string, sentAt: string, content: string): string
  {
    "<h3>Your blog received a new message</h3><p><strong>Sender: </strong>" + username
    + "</p><p><strong>Email: </strong>" + userEmail
    + "</p><p><strong>IP address: </strong>" + userIP
    + "</p><p><strong>Time: </strong>" + sentAt
    + "</p><hr><p><strong>Message: </strong></p><p>" + content
    + "</p><hr><p>Log in to the administration pages to review it.</p>"
  }

  function ReplyBody(originalMessage: string, replyContent: string): string
  {
    "<h3>Your message on the blog received a reply</h3><p><strong>Your message: </strong></p><p>"
    + originalMessage + "</p><hr><p><strong>Reply: </strong></p><p>" + replyContent
    + "</p><hr><p>Thank you for your message.</p>"
  }

  /** SendMessageNotification: mail the administrators, whose addresses are
      the configured list split at commas. `sentAt` is the formatted clock
      reading. Split never yields an empty list, so the source's
      `len(adminEmails) == 0` early return cannot be taken and the method
      always reaches SendEmail. */
  method SendMessageNotification(s: EmailService, adminEmails: string, messageContent: string,
                                 username: string, userEmail: string, userIP: string,
                                 sentAt: string, transport: Outcome)
    returns (r: MailOutcome)
    ensures !r.NotSent?
    ensures r.Skipped? <==> Unconfigured(s)
    ensures r.IsError() <==> !Unconfigured(s) && transport.Fail?
    ensures r.Delivered? || r.TransportFailed? ==>
      && r.envelope.to == Split(adminEmails, ',')
      && Join(r.envelope.to, ',') == adminEmails
      && r.envelope.msg == MessageText(s.from, Split(adminEmails, ','), AdminSubject,
                                       AdminBody(username, userEmail, userIP, sentAt, messageContent))
    ensures adminEmails == "" && (r.Delivered? || r.TransportFailed?) ==> r.envelope.to == [""]
  {
    var admins := Split(adminEmails, ',');
    JoinSplit(adminEmails, ',');
    var body := AdminBody(username, userEmail, userIP, sentAt, messageContent);
    r := SendEmail(s, admins, AdminSubject, body, transport);
  }

  /** SendReplyNotification: mail the author of the message replied to; an
      empty address sends nothing and is not an error. */
  method SendReplyNotification(s: EmailService, toEmail: string, originalMessage: string,
                               replyContent: string, transport: Outcome)
    returns (r: MailOutcome)
    ensures r.NotSent? <==> toEmail == ""
    ensures r.IsError() <==> toEmail != "" && !Unconfigured(s) && transport.Fail?
    ensures r.Delivered? || r.TransportFailed? ==>
      && r.envelope.to == [toEmail]
      && r.envelope.msg == MessageText(s.from, [toEmail], ReplySubject, ReplyBody(originalMessage, replyContent))
  {
    if toEmail == "" {
      return NotSent;
    }
    r := SendEmail(s, [toEmail], ReplySubject, ReplyBody(originalMessage, replyContent), transport);
  }
}
