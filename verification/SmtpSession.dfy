/** SMTP ingestion (smtpapi/session.go): the per-connection state machine and the staged commit of
    a message into one event, one notification per recipient, and one job per notification. */
module SmtpSession {
  import opened Common
  import opened Recipient

  /** Record ids: opaque names, compared only for equality. */
  type Id = nat

  predicate ValidChannel(ch: string) {
    ch == "sms" || ch == "voice" || ch == "email"
  }

  predicate AllValid(channels: seq<string>) {
    forall i :: 0 <= i < |channels| ==> ValidChannel(channels[i])
  }

  datatype Reply = Accepted | AuthRequired | Refused(code: nat)

  datatype Event = Event(id: Id, name: string, createdBy: string)

  datatype Notification = Notification(id: Id, eventId: Id, group: string, channels: seq<string>, message: string, createdBy: string)

  /** What the server has written: rows, and the ids put on the job queue, oldest first. */
  datatype Written = Written(events: seq<Event>, notifications: seq<Notification>, jobs: seq<Id>)

  datatype Session = Session(username: string, authed: bool, recipients: seq<Parsed>)

  /** What LDAP (or the CRAM store) and the role table answer to a log-in. */
  datatype LoginAnswer = InvalidCredentials | Unavailable | Known(mayPublish: bool)

  datatype FromHeader = NoFrom | BadFrom | FromChannels(channels: seq<string>)

  /** A message as the mail library presents it: unreadable, or a From header, a subject, and a
      body that may fail to decode. */
  datatype Message =
    | Unreadable
    | Message(from: FromHeader, subject: string, body: Option<string>)

  /** How the database and the queue behave during one Data command, and the ids generated. */
  datatype Backend = Backend(eventOk: bool, insertOk: nat -> bool, room: nat -> bool, eventId: Id, notificationId: nat -> Id)

  datatype Command =
    | Login(username: string, answer: LoginAnswer)
    | MailFrom
    | RcptTo(address: string)
    | DataCommand(message: Message, backend: Backend)
    | Rset

  // ----- Each command as a function -----

  function FinishAuth(s: Session, username: string, mayPublish: bool): (Session, Reply) {
    if mayPublish then (s.(username := username, authed := true), Accepted) else (s, Refused(550))
  }

  function AfterLogin(s: Session, username: string, answer: LoginAnswer): (Session, Reply) {
    match answer
    case InvalidCredentials => (s, Refused(535))
    case Unavailable => (s, Refused(451))
    case Known(mayPublish) => FinishAuth(s, username, mayPublish)
  }

  /** Adding a recipient as parsed, if it parsed and its channels are known. */
  function AddParsed(s: Session, parsed: Result<Parsed, ParseError>): (Session, Reply) {
    if parsed.Err? || !AllValid(parsed.value.channels) then (s, Refused(550))
    else (s.(recipients := s.recipients + [parsed.value]), Accepted)
  }

  function AfterRcpt(cs: Casing, s: Session, address: string, domain: string): (Session, Reply) {
    if !s.authed then (s, AuthRequired) else AddParsed(s, Parse(cs, address, domain))
  }

  /** The checks made before anything is written; Ok carries the resolved recipients and the body. */
  function Precheck(s: Session, m: Message): Result<(seq<Parsed>, string), Reply> {
    if !s.authed then Err(AuthRequired)
    else if m.Unreadable? || m.from.BadFrom? then Err(Refused(550))
    else
      var fallback := if m.from.FromChannels? then m.from.channels else [];
      if !AllValid(fallback) then Err(Refused(550))
      else if m.body.None? || s.recipients == [] || m.body.value == "" then Err(Refused(550))
      else match Resolve(s.recipients, fallback)
           case Err(_) => Err(Refused(550))
           case Ok(resolved) => Ok((resolved, m.body.value))
  }

  function NotificationFor(s: Session, b: Backend, rcpt: Parsed, body: string, i: nat): Notification {
    Notification(b.notificationId(i), b.eventId, rcpt.group, rcpt.channels, body, s.username)
  }

  /** The rows inserted for the first n recipients. */
  function Rows(s: Session, b: Backend, resolved: seq<Parsed>, body: string, n: nat): (rows: seq<Notification>)
    requires n <= |resolved|
    ensures |rows| == n
  {
    seq(n, i requires 0 <= i < n => NotificationFor(s, b, resolved[i], body, i))
  }

  function Ids(rows: seq<Notification>): (ids: seq<Id>)
    ensures |ids| == |rows|
  {
    seq(|rows|, i requires 0 <= i < |rows| => rows[i].id)
  }

  /** How far the commit gets: the first recipient whose insert fails or whose job finds no room. */
  function Progress(b: Backend, n: nat, i: nat): (p: nat)
    requires i <= n
    ensures i <= p <= n
    decreases n - i
  {
    if i < n && b.insertOk(i) && b.room(i) then Progress(b, n, i + 1) else i
  }

  /** Data: nothing is written unless every check passes and the event is stored. */
  function AfterData(s: Session, w: Written, m: Message, b: Backend): (Written, Reply) {
    match Precheck(s, m)
    case Err(reply) => (w, reply)
    case Ok((resolved, body)) =>
      if !b.eventOk then (w, Refused(451))
      else
        var n := |resolved|;
        var done := Progress(b, n, 0);
        var inserted := if done < n && b.insertOk(done) then done + 1 else done;
        (Written(w.events + [Event(b.eventId, m.subject, s.username)],
                 w.notifications + Rows(s, b, resolved, body, inserted),
                 w.jobs + Ids(Rows(s, b, resolved, body, done))),
         if done == n then Accepted else if b.insertOk(done) then Refused(452) else Refused(451))
  }

  lemma {:induction false} ProgressStops(b: Backend, n: nat, i: nat)
    requires i <= n
    ensures forall j :: i <= j < Progress(b, n, i) ==> b.insertOk(j) && b.room(j)
    ensures Progress(b, n, i) < n ==> !b.insertOk(Progress(b, n, i)) || !b.room(Progress(b, n, i))
    decreases n - i
  {
    if i < n && b.insertOk(i) && b.room(i) {
      ProgressStops(b, n, i + 1);
    }
  }

  // ----- The session object -----

  /** The loop over a list of channel names that stops at the first unknown one. */
  method ChannelsKnown(channels: seq<string>) returns (known: bool)
    ensures known <==> AllValid(channels)
  {
    for i := 0 to |channels|
      invariant forall j :: 0 <= j < i ==> ValidChannel(channels[j])
    {
      if !ValidChannel(channels[i]) {
        return false;
      }
    }
    known := true;
  }

  class Connection {
    const cs: Casing
    const domain: string
    var username: string
    var authed: bool
    var recipients: seq<Parsed>
    var written: Written

    constructor (cs: Casing, domain: string, written: Written)
      ensures this.cs == cs && this.domain == domain && Value() == Session("", false, []) && this.written == written
    {
      this.cs := cs;
      this.domain := domain;
      username, authed, recipients := "", false, [];
      this.written := written;
    }

    function Value(): Session
      reads this
    {
      Session(username, authed, recipients)
    }

    method FinishAuthentication(username: string, mayPublish: bool) returns (reply: Reply)
      modifies this
      ensures (Value(), reply) == FinishAuth(old(Value()), username, mayPublish) && written == old(written)
    {
      if !mayPublish {
        return Refused(550);
      }
      this.username := username;
      this.authed := true;
      reply := Accepted;
    }

    method Authenticate(username: string, answer: LoginAnswer) returns (reply: Reply)
      modifies this
      ensures (Value(), reply) == AfterLogin(old(Value()), username, answer) && written == old(written)
    {
      match answer {
        case InvalidCredentials => return Refused(535);
        case Unavailable => return Refused(451);
        case Known(mayPublish) => reply := FinishAuthentication(username, mayPublish);
      }
    }

    method Rcpt(address: string) returns (reply: Reply)
      modifies this`recipients
      ensures (Value(), reply) == AfterRcpt(cs, old(Value()), address, domain)
    {
      if !authed {
        return AuthRequired;
      }
      var parsed := ParseRecipient(cs, address, domain);
      if parsed.Err? {
        return Refused(550);
      }
      var known := ChannelsKnown(parsed.value.channels);
      if !known {
        return Refused(550);
      }
      recipients := recipients + [parsed.value];
      reply := Accepted;
    }

    method Reset()
      modifies this`recipients
      ensures Value() == old(Value()).(recipients := [])
    {
      recipients := [];
    }

    method Data(m: Message, b: Backend) returns (reply: Reply)
      modifies this`written
      ensures (written, reply) == AfterData(Value(), old(written), m, b)
    {
      if !authed {
        return AuthRequired;
      }
      if m.Unreadable? {
        return Refused(550);
      }
      var fallback: seq<string> := [];
      if m.from.BadFrom? {
        return Refused(550);
      }
      if m.from.FromChannels? {
        fallback := m.from.channels;
        var known := ChannelsKnown(fallback);
        if !known {
          return Refused(550);
        }
      }
      if m.body.None? || |recipients| == 0 || m.body.value == "" {
        return Refused(550);
      }
      var resolved := ResolveTargets(recipients, fallback);
      if resolved.Err? {
        return Refused(550);
      }
      if !b.eventOk {
        return Refused(451);
      }
      written := written.(events := written.events + [Event(b.eventId, m.subject, username)]);
      reply := Commit(resolved.value, m.body.value, b);
    }

    /** Data's loop: insert a notification, then queue its job, recipient by recipient. */
    method Commit(resolved: seq<Parsed>, body: string, b: Backend) returns (reply: Reply)
      modifies this`written
      ensures var n := |resolved|;
              var done := Progress(b, n, 0);
              done <= n
              && written.events == old(written.events)
              && written.jobs == old(written.jobs) + Ids(Rows(Value(), b, resolved, body, done))
              && written.notifications == old(written.notifications)
                 + Rows(Value(), b, resolved, body, if done < n && b.insertOk(done) then done + 1 else done)
              && reply == if done == n then Accepted else if b.insertOk(done) then Refused(452) else Refused(451)
    {
      ghost var n := |resolved|;
      ghost var was := written;
      ProgressStops(b, n, 0);
      for i := 0 to |resolved|
        invariant Progress(b, n, 0) == Progress(b, n, i)
        invariant written.events == was.events
        invariant written.notifications == was.notifications + Rows(Value(), b, resolved, body, i)
        invariant written.jobs == was.jobs + Ids(Rows(Value(), b, resolved, body, i))
      {
        RowsGrow(Value(), b, resolved, body, i);
        if !b.insertOk(i) {
          return Refused(451);
        }
        var row := NotificationFor(Value(), b, resolved[i], body, i);
        written := written.(notifications := written.notifications + [row]);
        if !b.room(i) {
          return Refused(452);
        }
        written := written.(jobs := written.jobs + [row.id]);
      }
      reply := Accepted;
    }
  }

  lemma RowsGrow(s: Session, b: Backend, resolved: seq<Parsed>, body: string, i: nat)
    requires i < |resolved|
    ensures Rows(s, b, resolved, body, i + 1) == Rows(s, b, resolved, body, i) + [NotificationFor(s, b, resolved[i], body, i)]
    ensures Ids(Rows(s, b, resolved, body, i + 1)) == Ids(Rows(s, b, resolved, body, i)) + [b.notificationId(i)]
  {
    assert Rows(s, b, resolved, body, i + 1)[..i] == Rows(s, b, resolved, body, i);
  }

  // ----- One Data command: exact accounting -----

  lemma {:induction false} ResolvedOk(recipients: seq<Parsed>, fallback: seq<string>)
    requires Resolve(recipients, fallback).Ok?
    ensures |Resolve(recipients, fallback).value| == |recipients|
    ensures forall i :: 0 <= i < |recipients| ==>
              Resolve(recipients, fallback).value[i].group == recipients[i].group
              && Resolve(recipients, fallback).value[i].channels
                 == (if recipients[i].channels == [] then fallback else recipients[i].channels)
              && Resolve(recipients, fallback).value[i].channels != []
  {
    if recipients != [] {
      ResolvedOk(recipients[..|recipients| - 1], fallback);
    }
  }

  /** What Data adds to what was written. */
  ghost predicate Adds(w: Written, w': Written, events: seq<Event>, notifications: seq<Notification>, jobs: seq<Id>) {
    w' == Written(w.events + events, w.notifications + notifications, w.jobs + jobs)
  }

  /** The i-th notification of a Data command: the whole message, for the i-th recipient, with its own
      channels or else those of the From header, under the id generated for its position. */
  predicate NotificationOk(recipients: seq<Parsed>, user: string, m: Message, b: Backend, i: nat, n: Notification)
    requires i < |recipients|
  {
    && m.Message? && m.body == Some(n.message) && n.message != ""
    && n.id == b.notificationId(i) && n.eventId == b.eventId && n.createdBy == user
    && n.group == recipients[i].group && n.channels != []
    && (recipients[i].channels != [] ==> n.channels == recipients[i].channels)
    && (recipients[i].channels == [] ==> m.from.FromChannels? && n.channels == m.from.channels)
  }

  /** The n-th recipient's commit goes through. */
  predicate Commits(b: Backend, n: nat) {
    b.insertOk(n) && b.room(n)
  }

  /** Either nothing is written, or one event named by the subject comes first and the queued jobs are,
      in order, a prefix of the notifications inserted, at most one short; on success there is exactly
      one notification and one job per recipient, in order, with the whole message for that recipient's
      group and channels. The commit stops at the first recipient whose insert fails or whose job finds
      no room. */
  lemma DataAccounting(s: Session, w: Written, m: Message, b: Backend)
    returns (events: seq<Event>, notifications: seq<Notification>, jobs: seq<Id>)
    ensures Adds(w, AfterData(s, w, m, b).0, events, notifications, jobs)
    ensures |events| <= 1 && (events == [] ==> notifications == [] && jobs == [] && !AfterData(s, w, m, b).1.Accepted?)
    ensures jobs <= Ids(notifications) && |notifications| <= |jobs| + 1
    ensures |notifications| <= |s.recipients| && (notifications != [] ==> events != [])
    ensures events != [] ==> m.Message? && events == [Event(b.eventId, m.subject, s.username)]
    ensures forall i :: 0 <= i < |notifications| ==> NotificationOk(s.recipients, s.username, m, b, i, notifications[i])
    ensures forall i :: 0 <= i < |jobs| ==> Commits(b, i)
    ensures events != [] && |jobs| < |s.recipients| ==>
              !Commits(b, |jobs|) && |notifications| == if b.insertOk(|jobs|) then |jobs| + 1 else |jobs|
    ensures AfterData(s, w, m, b).1.Accepted? ==> |events| == 1 && |notifications| == |jobs| == |s.recipients|
    ensures AfterData(s, w, m, b).1 == Refused(452) ==> |notifications| == |jobs| + 1
  {
    match Precheck(s, m)
    case Err(_) => events, notifications, jobs := [], [], [];
    case Ok((resolved, body)) =>
      if !b.eventOk {
        events, notifications, jobs := [], [], [];
      } else {
        ResolvedOk(s.recipients, if m.from.FromChannels? then m.from.channels else []);
        ProgressStops(b, |resolved|, 0);
        var done := Progress(b, |resolved|, 0);
        events := [Event(b.eventId, m.subject, s.username)];
        notifications := Rows(s, b, resolved, body, if done < |resolved| && b.insertOk(done) then done + 1 else done);
        jobs := Ids(Rows(s, b, resolved, body, done));
        if done < |resolved| && b.insertOk(done) {
          RowsGrow(s, b, resolved, body, done);
        }
      }
  }

  // ----- Which messages are accepted -----

  lemma {:induction false} ResolveOkIff(recipients: seq<Parsed>, fallback: seq<string>)
    ensures Resolve(recipients, fallback).Ok?
       <==> fallback != [] || forall i :: 0 <= i < |recipients| ==> recipients[i].channels != []
  {
    if recipients != [] {
      var n := |recipients| - 1;
      ResolveOkIff(recipients[..n], fallback);
      assert forall i :: 0 <= i < n ==> recipients[..n][i] == recipients[i];
    }
  }

  const CHANNELS := {"sms", "voice", "email"}

  predicate AllKnown(channels: seq<string>) {
    forall ch :: ch in channels ==> ch in CHANNELS
  }

  lemma KnownIffValid(channels: seq<string>)
    ensures AllValid(channels) <==> AllKnown(channels)
  {
    assert forall i :: 0 <= i < |channels| ==> channels[i] in channels;
  }

  /** What a session may send: readable, with a body, to somebody, the From header well formed, and every
      recipient with channels of its own or from that header, all of them known. */
  predicate Acceptable(s: Session, m: Message) {
    && m.Message? && !m.from.BadFrom? && (m.from.FromChannels? ==> AllKnown(m.from.channels))
    && m.body != None && m.body != Some("") && s.recipients != []
    && ((m.from.FromChannels? && m.from.channels != []) || forall i :: 0 <= i < |s.recipients| ==> s.recipients[i].channels != [])
  }

  lemma PrecheckIff(s: Session, m: Message)
    ensures Precheck(s, m).Ok? <==> s.authed && Acceptable(s, m)
    ensures Precheck(s, m).Err? ==> Precheck(s, m).error == if s.authed then Refused(550) else AuthRequired
  {
    var fallback := if m.Message? && m.from.FromChannels? then m.from.channels else [];
    KnownIffValid(fallback);
    ResolveOkIff(s.recipients, fallback);
  }

  /** The reply to a Data command, in all cases. */
  lemma DataReply(s: Session, w: Written, m: Message, b: Backend)
    ensures var reply := AfterData(s, w, m, b).1;
            && (reply == AuthRequired <==> !s.authed)
            && (reply == Refused(550) <==> s.authed && !Acceptable(s, m))
            && (reply == Accepted <==>
                  s.authed && Acceptable(s, m) && b.eventOk && forall i :: 0 <= i < |s.recipients| ==> Commits(b, i))
            && (reply == Refused(452) <==>
                  s.authed && Acceptable(s, m) && b.eventOk && exists k: nat :: FirstWithoutRoom(b, |s.recipients|, k))
            && (reply.Refused? ==> reply.code in {550, 451, 452})
  {
    PrecheckIff(s, m);
    if s.authed && Acceptable(s, m) {
      ResolvedOk(s.recipients, if m.from.FromChannels? then m.from.channels else []);
      ProgressIs(b, |s.recipients|);
    }
  }

  /** The n recipients' commits go through up to the k-th, whose job finds the queue full. */
  ghost predicate FirstWithoutRoom(b: Backend, n: nat, k: nat) {
    k < n && b.insertOk(k) && !b.room(k) && forall i :: 0 <= i < k ==> Commits(b, i)
  }

  lemma ProgressIs(b: Backend, n: nat)
    ensures var done := Progress(b, n, 0);
            && (done == n <==> forall i :: 0 <= i < n ==> Commits(b, i))
            && (done < n && b.insertOk(done) <==> exists k: nat :: FirstWithoutRoom(b, n, k))
  {
    var done := Progress(b, n, 0);
    ProgressStops(b, n, 0);
    assert forall i :: 0 <= i < done ==> Commits(b, i);
    if done < n {
      assert !Commits(b, done);
      if b.insertOk(done) {
        assert FirstWithoutRoom(b, n, done);
      }
    }
    if k: nat :| FirstWithoutRoom(b, n, k) {
      assert !Commits(b, k);
      assert k == done;
    }
  }

  // ----- Any command sequence -----

  function Step(cs: Casing, s: Session, w: Written, c: Command, domain: string): (Session, Written) {
    match c
    case Login(username, answer) => (AfterLogin(s, username, answer).0, w)
    case MailFrom => (s, w)
    case RcptTo(address) => (AfterRcpt(cs, s, address, domain).0, w)
    case DataCommand(m, b) => (s, AfterData(s, w, m, b).0)
    case Rset => (s.(recipients := []), w)
  }

  function Play(cs: Casing, s: Session, w: Written, commands: seq<Command>, domain: string): (Session, Written) {
    if commands == [] then (s, w)
    else
      var (s', w') := Play(cs, s, w, commands[..|commands| - 1], domain);
      Step(cs, s', w', commands[|commands| - 1], domain)
  }

  predicate Grants(c: Command) {
    c.Login? && c.answer == Known(true)
  }

  /** The user of the last log-in that granted publish permission. */
  function LastGrant(commands: seq<Command>): Option<string> {
    if commands == [] then None
    else if Grants(commands[|commands| - 1]) then Some(commands[|commands| - 1].username)
    else LastGrant(commands[..|commands| - 1])
  }

  ghost predicate RecipientOk(cs: Casing, r: Parsed) {
    WellFormed(cs, r) && forall ch :: ch in r.channels ==> ValidChannel(ch)
  }

  /** The session against its command history. */
  ghost predicate SessionOk(cs: Casing, s: Session, commands: seq<Command>) {
    && (s.authed <==> LastGrant(commands).Some?)
    && (s.authed ==> s.username == LastGrant(commands).value)
    && (s.recipients != [] ==> s.authed)
    && forall r :: r in s.recipients ==> RecipientOk(cs, r)
  }

  /** What was written: every job names an inserted notification, and every notification belongs to
      an inserted event and asks for at least one channel and carries a message. */
  ghost predicate WrittenOk(w: Written) {
    && |w.jobs| <= |w.notifications|
    && (forall id :: id in w.jobs ==> id in Ids(w.notifications))
    && forall n :: n in w.notifications ==> n.channels != [] && n.message != "" && n.group != ""
                                            && exists e :: e in w.events && e.id == n.eventId && e.createdBy == n.createdBy
  }

  lemma RcptKeepsOk(cs: Casing, s: Session, address: string, domain: string)
    requires Sane(cs)
    requires forall r :: r in s.recipients ==> RecipientOk(cs, r)
    ensures forall r :: r in AfterRcpt(cs, s, address, domain).0.recipients ==> RecipientOk(cs, r)
  {
    if s.authed && Parse(cs, address, domain).Ok? {
      ParseYieldsNormalForm(cs, address, domain);
      var rcpt := Parse(cs, address, domain).value;
      if AllValid(rcpt.channels) {
        assert RecipientOk(cs, rcpt);
      }
    }
  }

  lemma DataKeepsWrittenOk(cs: Casing, s: Session, w: Written, m: Message, b: Backend)
    requires WrittenOk(w) && forall r :: r in s.recipients ==> RecipientOk(cs, r)
    ensures WrittenOk(AfterData(s, w, m, b).0)
  {
    var w' := AfterData(s, w, m, b).0;
    var events, notifications, jobs := DataAccounting(s, w, m, b);
    IdsConcat(w.notifications, notifications);
    forall n | n in w'.notifications
      ensures n.channels != [] && n.message != "" && n.group != ""
              && exists e :: e in w'.events && e.id == n.eventId && e.createdBy == n.createdBy
    {
      if n in w.notifications {
        var e :| e in w.events && e.id == n.eventId && e.createdBy == n.createdBy;
        assert e in w'.events;
      } else {
        var i :| 0 <= i < |notifications| && notifications[i] == n;
        assert NotificationOk(s.recipients, s.username, m, b, i, n);
        assert s.recipients[i] in s.recipients;
        assert events[0] in w'.events;
      }
    }
  }

  lemma IdsConcat(a: seq<Notification>, b: seq<Notification>)
    ensures Ids(a + b) == Ids(a) + Ids(b)
  {
  }

  /** Over any command sequence: a session holds recipients only after a log-in that granted publish
      permission, each with a non-empty group and only valid channels; it acts under the user of the
      last such log-in; and what it has written stays accounted for. */
  lemma {:induction false} SessionSafety(cs: Casing, commands: seq<Command>, domain: string, w: Written)
    requires Sane(cs)
    requires WrittenOk(w)
    ensures var (s', w') := Play(cs, Session("", false, []), w, commands, domain);
            SessionOk(cs, s', commands) && WrittenOk(w')
  {
    if commands != [] {
      var earlier, c := commands[..|commands| - 1], commands[|commands| - 1];
      SessionSafety(cs, earlier, domain, w);
      var (s, w1) := Play(cs, Session("", false, []), w, earlier, domain);
      match c
      case RcptTo(address) => RcptKeepsOk(cs, s, address, domain);
      case DataCommand(m, b) => DataKeepsWrittenOk(cs, s, w1, m, b);
      case _ =>
    }
  }

  /** The replies to a log-in and to a recipient, in all cases. */
  lemma LoginAndRcptReplies(cs: Casing, s: Session, username: string, answer: LoginAnswer, address: string, domain: string)
    ensures AfterLogin(s, username, answer).1 == Accepted <==> answer == Known(true)
    ensures AfterLogin(s, username, answer).1 == Refused(550) <==> answer == Known(false)
    ensures AfterLogin(s, username, answer).1 == Refused(535) <==> answer == InvalidCredentials
    ensures AfterLogin(s, username, answer).1 == Refused(451) <==> answer == Unavailable
    ensures var reply, parsed := AfterRcpt(cs, s, address, domain).1, Parse(cs, address, domain);
            && (reply == AuthRequired <==> !s.authed)
            && (reply == Accepted <==> s.authed && parsed.Ok? && AllKnown(parsed.value.channels))
            && (reply == Refused(550) <==> s.authed && (parsed.Err? || !AllKnown(parsed.value.channels)))
  {
    if Parse(cs, address, domain).Ok? {
      KnownIffValid(Parse(cs, address, domain).value.channels);
    }
  }

  // ----- The session and the rows, from the commands alone -----

  /** The recipients of the current message: the addresses accepted since the last RSET, in order. */
  function Envelope(cs: Casing, commands: seq<Command>, domain: string): seq<Parsed> {
    if commands == [] then []
    else
      var earlier := commands[..|commands| - 1];
      match commands[|commands| - 1]
      case Rset => []
      case RcptTo(address) =>
        Envelope(cs, earlier, domain)
        + (match Parse(cs, address, domain)
           case Err(_) => []
           case Ok(r) => if LastGrant(earlier).Some? && AllKnown(r.channels) then [r] else [])
      case _ => Envelope(cs, earlier, domain)
  }

  /** Over any command sequence the session is exactly this: the user of the last log-in that granted
      publish permission, and the recipients accepted since the last RSET, whatever was sent between. */
  lemma {:induction false} SessionIs(cs: Casing, commands: seq<Command>, domain: string, w: Written)
    ensures Play(cs, Session("", false, []), w, commands, domain).0
            == Session(LastGrant(commands).Or(""), LastGrant(commands).Some?, Envelope(cs, commands, domain))
  {
    if commands != [] {
      var earlier, c := commands[..|commands| - 1], commands[|commands| - 1];
      SessionIs(cs, earlier, domain, w);
      if c.RcptTo? && Parse(cs, c.address, domain).Ok? {
        KnownIffValid(Parse(cs, c.address, domain).value.channels);
      }
    }
  }

  /** The k-th command is a Data command that accounts for this notification. */
  ghost predicate SentBy(cs: Casing, commands: seq<Command>, domain: string, k: nat, w: Written, n: Notification) {
    && k < |commands| && commands[k].DataCommand? && LastGrant(commands[..k]) == Some(n.createdBy)
    && (exists i :: 0 <= i < |Envelope(cs, commands[..k], domain)|
          && NotificationOk(Envelope(cs, commands[..k], domain), n.createdBy, commands[k].message, commands[k].backend, i, n))
    && Event(n.eventId, commands[k].message.subject, n.createdBy) in w.events
  }

  ghost predicate Sent(cs: Casing, commands: seq<Command>, domain: string, w: Written, n: Notification) {
    exists k: nat :: SentBy(cs, commands, domain, k, w, n)
  }

  lemma DataSends(cs: Casing, earlier: seq<Command>, c: Command, domain: string, s: Session, w: Written, n: Notification)
    requires c.DataCommand? && s == Session(LastGrant(earlier).Or(""), LastGrant(earlier).Some?, Envelope(cs, earlier, domain))
    requires n in AfterData(s, w, c.message, c.backend).0.notifications && n !in w.notifications
    ensures SentBy(cs, earlier + [c], domain, |earlier|, AfterData(s, w, c.message, c.backend).0, n)
  {
    var events, notifications, jobs := DataAccounting(s, w, c.message, c.backend);
    PrecheckIff(s, c.message);
    var i :| 0 <= i < |notifications| && notifications[i] == n;
    assert NotificationOk(s.recipients, s.username, c.message, c.backend, i, n);
    assert (earlier + [c])[..|earlier|] == earlier;
    assert events[0] in w.events + events;
  }

  lemma SentStays(cs: Casing, earlier: seq<Command>, c: Command, domain: string, w: Written, w': Written, n: Notification)
    requires Sent(cs, earlier, domain, w, n) && w.events <= w'.events
    ensures Sent(cs, earlier + [c], domain, w', n)
  {
    var k: nat :| SentBy(cs, earlier, domain, k, w, n);
    assert (earlier + [c])[..k] == earlier[..k];
    assert SentBy(cs, earlier + [c], domain, k, w', n);
  }

  /** Over any command sequence, every notification written carries the whole message of a Data command
      of the run, sent by the user logged in at that command to a recipient accepted before it, and
      belongs to an event named by that message's subject. */
  lemma {:induction false} RowsCarryTheirMessage(cs: Casing, commands: seq<Command>, domain: string)
    ensures var w := Play(cs, Session("", false, []), Written([], [], []), commands, domain).1;
            forall n :: n in w.notifications ==> Sent(cs, commands, domain, w, n)
  {
    if commands != [] {
      var earlier, c := commands[..|commands| - 1], commands[|commands| - 1];
      var none := Written([], [], []);
      RowsCarryTheirMessage(cs, earlier, domain);
      SessionIs(cs, earlier, domain, none);
      var (s, w) := Play(cs, Session("", false, []), none, earlier, domain);
      var w' := Step(cs, s, w, c, domain).1;
      assert earlier + [c] == commands;
      forall n | n in w'.notifications ensures Sent(cs, commands, domain, w', n) {
        if n in w.notifications {
          SentStays(cs, earlier, c, domain, w, w', n);
        } else {
          DataSends(cs, earlier, c, domain, s, w, n);
        }
      }
    }
  }
}
