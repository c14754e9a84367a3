/** The two poller goroutines and the dispatcher on one deliveries table, one database statement at
    a time: terminal rows absorb, the pollers never share a row, and the failure budget holds. */
module PollerSystem {
  import opened Common
  import opened FanOut
  import opened Poller

  /** A poller goroutine: at rest; holding the voice list while it queries the SMS list (or, for
      the startup check, the failed list while it resets the counters); or working through a list,
      `marking` when the row at its head was just counted over budget. */
  datatype Thread =
    | Resting
    | Holding(ids: seq<Id>)
    | Visiting(todo: seq<Id>, marking: bool)

  datatype Who = Main | Startup

  /** `missed` is history: the rows whose give-up mark by the main poller failed, as often as it did. */
  datatype State = State(rows: Table, main: Thread, startup: Thread, started: bool, missed: multiset<Id>)

  datatype Action =
    | Insert(id: Id, row: Row)
    | Annotate(id: Id, error: string)
    | ListVoice(ids: seq<Id>)
    | ListSms(ids: seq<Id>)
    | ListSmsFails
    | ListFailed(ids: seq<Id>)
    | ListFailedFails
    | Reset(ok: bool)
    | Check(who: Who, answer: Answer, ok: bool, now: int)
    | Mark(who: Who, reason: string, ok: bool, now: int)

  function ThreadOf(s: State, who: Who): Thread {
    if who.Main? then s.main else s.startup
  }

  function WithThread(s: State, who: Who, t: Thread): State {
    if who.Main? then s.(main := t) else s.(startup := t)
  }

  /** A query's answer: each selected row once, in some order. */
  ghost predicate ListsVoice(rows: Table, ids: seq<Id>) {
    Distinct(ids) && forall id :: id in ids <==> id in rows && rows[id].channel.Voice? && Flying(rows[id])
  }

  ghost predicate ListsSms(rows: Table, ids: seq<Id>) {
    Distinct(ids) && forall id :: id in ids <==> id in rows && rows[id].channel.Sms? && Flying(rows[id])
  }

  ghost predicate ListsFailed(rows: Table, ids: seq<Id>) {
    Distinct(ids) && forall id :: id in ids <==> id in rows && rows[id].status == POLL_FAILED
  }

  ghost predicate Enabled(s: State, a: Action) {
    match a
    case Insert(id, row) => id !in s.rows && row.attempts == 0 && row.completedAt == None
    case Annotate(id, _) => id in s.rows
    case ListVoice(ids) => s.main.Resting? && ListsVoice(s.rows, ids)
    case ListSms(ids) => s.main.Holding? && ListsSms(s.rows, ids)
    case ListSmsFails => s.main.Holding?
    case ListFailed(ids) => !s.started && ListsFailed(s.rows, ids)
    case ListFailedFails => !s.started
    case Reset(_) => s.startup.Holding?
    case Check(who, _, _, _) =>
      var t := ThreadOf(s, who);
      t.Visiting? && !t.marking && t.todo != [] && t.todo[0] in s.rows
    case Mark(who, _, _, _) =>
      var t := ThreadOf(s, who);
      t.Visiting? && t.marking && t.todo != [] && t.todo[0] in s.rows
  }

  /** Moving on to the next listed row; an exhausted list ends the cycle. */
  function Advance(todo: seq<Id>): Thread
    requires todo != []
  {
    if |todo| == 1 then Resting else Visiting(todo[1..], false)
  }

  ghost function Apply(limit: int, s: State, a: Action): State
    requires Enabled(s, a)
  {
    match a
    case Insert(id, row) => s.(rows := s.rows[id := row])
    case Annotate(id, error) => s.(rows := s.rows[id := s.rows[id].(error := Some(error))])
    case ListVoice(ids) => s.(main := Holding(ids))
    case ListSms(ids) => s.(main := if s.main.ids + ids == [] then Resting else Visiting(s.main.ids + ids, false))
    case ListSmsFails => s.(main := Resting)
    case ListFailed(ids) => s.(startup := Holding(ids), started := true)
    case ListFailedFails => s.(started := true)
    case Reset(ok) =>
      if !ok then s.(startup := Resting)
      else s.(rows := ResetFailed(s.rows),
              startup := if s.startup.ids == [] then Resting else Visiting(s.startup.ids, false))
    case Check(who, answer, ok, now) =>
      var todo := ThreadOf(s, who).todo;
      var id := todo[0];
      var rows := if ok then Visit(s.rows, id, s.rows[id], answer, now) else s.rows;
      var marks := ok && CountsFailure(s.rows[id], answer) && OverBudget(limit, rows[id]);
      WithThread(s.(rows := rows), who, if marks then Visiting(todo, true) else Advance(todo))
    case Mark(who, reason, ok, now) =>
      var todo := ThreadOf(s, who).todo;
      var rows := if ok then SetStatus(s.rows, todo[0], POLL_FAILED, now, Some(reason)) else s.rows;
      var missed := if who.Main? && !ok then s.missed + multiset{todo[0]} else s.missed;
      WithThread(s.(rows := rows, missed := missed), who, Advance(todo))
  }

  ghost predicate Run(limit: int, s: State, actions: seq<Action>, t: State)
    decreases |actions|
  {
    if actions == [] then s == t
    else Enabled(s, actions[0]) && Run(limit, Apply(limit, s, actions[0]), actions[1..], t)
  }

  /** A process start: an arbitrary table left by earlier runs, both pollers at rest. */
  predicate Initial(s: State) {
    s.main.Resting? && s.startup.Resting? && !s.started && s.missed == multiset{}
  }

  // ----- Who works on what -----

  function Pending(t: Thread): seq<Id> {
    match t
    case Resting => []
    case Holding(ids) => ids
    case Visiting(todo, _) => todo
  }

  /** The snapshots held between statements: the main poller's rows are all still in flight, the
      startup check's rows are all still poll_failed, and neither lists a row twice. */
  ghost predicate Snapshots(s: State) {
    && Distinct(Pending(s.main)) && Distinct(Pending(s.startup))
    && (forall id :: id in Pending(s.main) ==> id in s.rows && Flying(s.rows[id]))
    && (forall id :: id in Pending(s.startup) ==> id in s.rows && s.rows[id].status == POLL_FAILED)
    && (s.main.Holding? ==> forall id :: id in s.main.ids ==> s.rows[id].channel.Voice?)
    && (!s.started ==> s.startup.Resting?)
    && (s.main.Visiting? ==> s.main.todo != []) && (s.startup.Visiting? ==> s.startup.todo != [])
  }

  /** What the poller's own statements leave of the row they hit, and that they hit no other. */
  lemma CheckEffect(rows: Table, id: Id, d: Row, answer: Answer, now: int)
    requires id in rows && d.channel == rows[id].channel
    ensures Visit(rows, id, d, answer, now).Keys == rows.Keys
    ensures forall x :: x in rows && x != id ==> Visit(rows, id, d, answer, now)[x] == rows[x]
    ensures Visit(rows, id, d, answer, now)[id].channel == rows[id].channel
    ensures Visit(rows, id, d, answer, now)[id].status == rows[id].status || Settled(Visit(rows, id, d, answer, now)[id])
    ensures CountsFailure(d, answer) ==> Visit(rows, id, d, answer, now)[id].status == rows[id].status
  {
    match answer
    case FetchFailed(_) => EndsPollingIsNotInFlight(d.channel, d.channel, "");
    case Reported(status, _) => EndsPollingIsNotInFlight(d.channel, d.channel, status);
  }

  lemma DistinctTail(todo: seq<Id>)
    requires Distinct(todo) && todo != []
    ensures Distinct(Pending(Advance(todo)))
    ensures forall id :: id in Pending(Advance(todo)) ==> id in todo && id != todo[0]
  {
  }

  lemma MarkEffect(rows: Table, id: Id, now: int, reason: string)
    requires id in rows
    ensures var r := SetStatus(rows, id, POLL_FAILED, now, Some(reason));
            r.Keys == rows.Keys && r[id].status == POLL_FAILED && !Flying(r[id]) && (forall x :: x in rows && x != id ==> r[x] == rows[x])
  {
    EndsPollingIsNotInFlight(rows[id].channel, rows[id].channel, "");
  }

  lemma MainCheckKeepsSnapshots(limit: int, s: State, a: Action)
    requires Snapshots(s) && Enabled(s, a) && a.Check? && a.who.Main?
    ensures Snapshots(Apply(limit, s, a))
  {
    var id := s.main.todo[0];
    DistinctTail(s.main.todo);
    assert id in Pending(s.main);
    CheckEffect(s.rows, id, s.rows[id], a.answer, a.now);
  }

  lemma StartupCheckKeepsSnapshots(limit: int, s: State, a: Action)
    requires Snapshots(s) && Enabled(s, a) && a.Check? && a.who.Startup?
    ensures Snapshots(Apply(limit, s, a))
  {
    var id := s.startup.todo[0];
    DistinctTail(s.startup.todo);
    assert id in Pending(s.startup);
    CheckEffect(s.rows, id, s.rows[id], a.answer, a.now);
  }

  lemma MarkKeepsSnapshots(limit: int, s: State, a: Action)
    requires Snapshots(s) && Enabled(s, a) && a.Mark?
    ensures Snapshots(Apply(limit, s, a))
  {
    var todo := ThreadOf(s, a.who).todo;
    DistinctTail(todo);
    MarkEffect(s.rows, todo[0], a.now, a.reason);
  }

  lemma ListSmsKeepsSnapshots(limit: int, s: State, ids: seq<Id>)
    requires Snapshots(s) && Enabled(s, ListSms(ids))
    ensures Snapshots(Apply(limit, s, ListSms(ids)))
  {
    var all := s.main.ids + ids;
    forall i, j | 0 <= i < j < |all| ensures all[i] != all[j] {
      if i < |s.main.ids| <= j {
        assert all[i] in s.main.ids && all[j] in ids;
      }
    }
  }

  lemma StepKeepsSnapshots(limit: int, s: State, a: Action)
    requires Snapshots(s) && Enabled(s, a)
    ensures Snapshots(Apply(limit, s, a))
  {
    match a
    case Check(who, _, _, _) =>
      if who.Main? {
        MainCheckKeepsSnapshots(limit, s, a);
      } else {
        StartupCheckKeepsSnapshots(limit, s, a);
      }
    case Mark(_, _, _, _) => MarkKeepsSnapshots(limit, s, a);
    case ListSms(ids) => ListSmsKeepsSnapshots(limit, s, ids);
    case _ =>
  }

  // ----- Terminal absorption -----

  /** What no action does to a row: leave a settled state, change its completion time there, return
      to flight, or change its channel or message id. */
  predicate RowForward(before: Row, after: Row) {
    && after.channel == before.channel && after.sid == before.sid
    && (Settled(before) ==> after.status == before.status && after.completedAt == before.completedAt)
    && (!Flying(before) ==> !Flying(after))
  }

  lemma StepAbsorbs(limit: int, s: State, a: Action, id: Id)
    requires Snapshots(s) && Enabled(s, a) && id in s.rows
    ensures id in Apply(limit, s, a).rows && RowForward(s.rows[id], Apply(limit, s, a).rows[id])
  {
    match a
    case Check(who, answer, ok, now) =>
      var todo := ThreadOf(s, who).todo;
      assert todo[0] in Pending(ThreadOf(s, who));
      CheckEffect(s.rows, todo[0], s.rows[todo[0]], answer, now);
    case Mark(who, reason, ok, now) =>
      var todo := ThreadOf(s, who).todo;
      assert todo[0] in Pending(ThreadOf(s, who));
      MarkEffect(s.rows, todo[0], now, reason);
    case _ =>
  }

  /** In every run of the whole system, once a row is neither in flight nor poll_failed its status
      and completion time are final, and no row ever returns to flight. */
  lemma {:induction false} TerminalAbsorption(limit: int, s: State, actions: seq<Action>, t: State, id: Id)
    requires Snapshots(s) && Run(limit, s, actions, t) && id in s.rows
    ensures Snapshots(t) && id in t.rows && RowForward(s.rows[id], t.rows[id])
    decreases |actions|
  {
    if actions != [] {
      StepAbsorbs(limit, s, actions[0], id);
      StepKeepsSnapshots(limit, s, actions[0]);
      TerminalAbsorption(limit, Apply(limit, s, actions[0]), actions[1..], t, id);
    }
  }

  lemma {:induction false} RunKeepsSnapshots(limit: int, s: State, actions: seq<Action>, t: State)
    requires Snapshots(s) && Run(limit, s, actions, t)
    ensures Snapshots(t)
    decreases |actions|
  {
    if actions != [] {
      StepKeepsSnapshots(limit, s, actions[0]);
      RunKeepsSnapshots(limit, Apply(limit, s, actions[0]), actions[1..], t);
    }
  }

  /** The two poller goroutines never hold the same row, in any state of any run. */
  lemma PollersNeverShareARow(limit: int, s: State, actions: seq<Action>, t: State, id: Id)
    requires Initial(s) && Run(limit, s, actions, t)
    ensures !(id in Pending(t.main) && id in Pending(t.startup))
  {
    RunKeepsSnapshots(limit, s, actions, t);
    if id in Pending(t.main) && id in Pending(t.startup) {
      EndsPollingIsNotInFlight(t.rows[id].channel, t.rows[id].channel, "");
    }
  }

  // ----- The failure budget -----

  /** Whether the main poller has just counted this row over budget and not marked it yet. */
  predicate MidMark(t: Thread, id: Id) {
    t.Visiting? && t.marking && t.todo != [] && t.todo[0] == id
  }

  /** A row in flight: below the limit until its mark has failed; from then on one more counted
      failure for every failed mark, and for the mark that is due. */
  predicate FlightBudget(limit: nat, attempts: nat, missed: nat, due: bool) {
    if due then attempts == limit + missed else if missed == 0 then attempts < limit else attempts == limit - 1 + missed
  }

  /** A row's counter exceeds the limit by at most its failed marks; in flight, it stands exactly
      where they put it; and while the startup check has it still to check, it has been reset. */
  predicate RowBudget(limit: nat, s: State, id: Id)
    requires id in s.rows
  {
    && s.rows[id].attempts <= limit + s.missed[id]
    && (Flying(s.rows[id]) ==> FlightBudget(limit, s.rows[id].attempts, s.missed[id], MidMark(s.main, id)))
    && (s.startup.Visiting? && id in s.startup.todo && !MidMark(s.startup, id) ==> s.rows[id].attempts == 0)
  }

  ghost predicate Budget(limit: nat, s: State) {
    (forall id :: id in s.rows ==> RowBudget(limit, s, id)) && (forall id :: id in s.missed ==> id in s.rows)
  }

  lemma ResetKeepsBudget(limit: nat, s: State, ok: bool)
    requires Snapshots(s) && Budget(limit, s) && Enabled(s, Reset(ok))
    ensures Budget(limit, Apply(limit, s, Reset(ok)))
  {
    var t := Apply(limit, s, Reset(ok));
    forall id | id in t.rows ensures RowBudget(limit, t, id) {
      assert RowBudget(limit, s, id);
    }
  }

  /** A poller's step leaves every row alone but the one at the head of its list. */
  lemma OtherRowBudget(limit: nat, s: State, a: Action, x: Id)
    requires Snapshots(s) && Enabled(s, a) && (a.Check? || a.Mark?)
    requires x in s.rows && RowBudget(limit, s, x) && x != ThreadOf(s, a.who).todo[0]
    ensures x in Apply(limit, s, a).rows && RowBudget(limit, Apply(limit, s, a), x)
  {
    var todo := ThreadOf(s, a.who).todo;
    if a.Check? {
      CheckEffect(s.rows, todo[0], s.rows[todo[0]], a.answer, a.now);
    }
  }

  lemma MainCheckRow(limit: nat, s: State, a: Action)
    requires limit > 0 && Snapshots(s) && Enabled(s, a) && a.Check? && a.who.Main?
    requires RowBudget(limit, s, s.main.todo[0])
    ensures s.main.todo[0] in Apply(limit, s, a).rows && RowBudget(limit, Apply(limit, s, a), s.main.todo[0])
  {
    var id := s.main.todo[0];
    assert id in Pending(s.main);
    CheckEffect(s.rows, id, s.rows[id], a.answer, a.now);
    DistinctTail(s.main.todo);
    assert id !in Pending(s.startup) by {
      EndsPollingIsNotInFlight(s.rows[id].channel, s.rows[id].channel, "");
    }
  }

  lemma MainMarkRow(limit: nat, s: State, a: Action)
    requires limit > 0 && Snapshots(s) && Enabled(s, a) && a.Mark? && a.who.Main?
    requires RowBudget(limit, s, s.main.todo[0])
    ensures s.main.todo[0] in Apply(limit, s, a).rows && RowBudget(limit, Apply(limit, s, a), s.main.todo[0])
  {
    var id := s.main.todo[0];
    assert id in Pending(s.main);
    MarkEffect(s.rows, id, a.now, a.reason);
    DistinctTail(s.main.todo);
    assert id !in Pending(s.startup) by {
      EndsPollingIsNotInFlight(s.rows[id].channel, s.rows[id].channel, "");
    }
  }

  /** The startup check's row is poll_failed and stays out of flight; it is checked once. */
  lemma StartupRow(limit: nat, s: State, a: Action)
    requires limit > 0 && Snapshots(s) && Enabled(s, a) && (a.Check? || a.Mark?) && a.who.Startup?
    requires RowBudget(limit, s, s.startup.todo[0])
    ensures s.startup.todo[0] in Apply(limit, s, a).rows && RowBudget(limit, Apply(limit, s, a), s.startup.todo[0])
  {
    var id := s.startup.todo[0];
    assert id in Pending(s.startup);
    DistinctTail(s.startup.todo);
    EndsPollingIsNotInFlight(s.rows[id].channel, s.rows[id].channel, "");
    if a.Check? {
      CheckEffect(s.rows, id, s.rows[id], a.answer, a.now);
    } else {
      MarkEffect(s.rows, id, a.now, a.reason);
    }
  }

  lemma PollerKeepsRow(limit: nat, s: State, a: Action, x: Id)
    requires limit > 0 && Snapshots(s) && Enabled(s, a) && (a.Check? || a.Mark?) && x in s.rows && RowBudget(limit, s, x)
    ensures x in Apply(limit, s, a).rows && RowBudget(limit, Apply(limit, s, a), x)
  {
    if x != ThreadOf(s, a.who).todo[0] {
      OtherRowBudget(limit, s, a, x);
    } else if a.who.Startup? {
      StartupRow(limit, s, a);
    } else if a.Check? {
      MainCheckRow(limit, s, a);
    } else {
      MainMarkRow(limit, s, a);
    }
  }

  lemma PollerKeepsBudget(limit: nat, s: State, a: Action)
    requires limit > 0 && Snapshots(s) && Budget(limit, s) && Enabled(s, a) && (a.Check? || a.Mark?)
    ensures Budget(limit, Apply(limit, s, a))
  {
    var t := Apply(limit, s, a);
    KeysKept(limit, s, a);
    forall x | x in t.rows ensures RowBudget(limit, t, x) {
      PollerKeepsRow(limit, s, a, x);
    }
  }

  lemma KeysKept(limit: int, s: State, a: Action)
    requires Enabled(s, a) && (a.Check? || a.Mark?)
    ensures Apply(limit, s, a).rows.Keys == s.rows.Keys
    ensures forall id :: id in Apply(limit, s, a).missed ==> id in s.missed || id in s.rows
  {
  }

  lemma OthersKeepBudget(limit: nat, s: State, a: Action)
    requires limit > 0 && Snapshots(s) && Budget(limit, s) && Enabled(s, a) && !a.Check? && !a.Mark? && !a.Reset?
    ensures Budget(limit, Apply(limit, s, a))
  {
    var t := Apply(limit, s, a);
    forall id | id in t.rows ensures RowBudget(limit, t, id) {
      if id in s.rows {
        assert RowBudget(limit, s, id);
      } else {
        assert t.missed[id] == 0;
      }
    }
  }

  lemma StepKeepsBudget(limit: nat, s: State, a: Action)
    requires limit > 0 && Snapshots(s) && Budget(limit, s) && Enabled(s, a)
    ensures Budget(limit, Apply(limit, s, a))
  {
    match a
    case Reset(ok) => ResetKeepsBudget(limit, s, ok);
    case Check(_, _, _, _) => PollerKeepsBudget(limit, s, a);
    case Mark(_, _, _, _) => PollerKeepsBudget(limit, s, a);
    case _ => OthersKeepBudget(limit, s, a);
  }

  lemma {:induction false} RunKeepsBudget(limit: nat, s: State, actions: seq<Action>, t: State)
    requires limit > 0 && Snapshots(s) && Budget(limit, s) && Run(limit, s, actions, t)
    ensures Snapshots(t) && Budget(limit, t)
    decreases |actions|
  {
    if actions != [] {
      StepKeepsBudget(limit, s, actions[0]);
      StepKeepsSnapshots(limit, s, actions[0]);
      RunKeepsBudget(limit, Apply(limit, s, actions[0]), actions[1..], t);
    }
  }

  /** A process start with every counter within the limit and every in-flight row below it. */
  ghost predicate WithinBudget(limit: nat, s: State) {
    forall x :: x in s.rows ==> s.rows[x].attempts <= limit && (Flying(s.rows[x]) ==> s.rows[x].attempts < limit)
  }

  /** The poll budget of one process run: a row's counter exceeds the limit by at most its own failed
      marks, and a row in flight is at the limit or over it exactly as its failed marks say: at the
      limit only between its last counted failure and its mark, or after its first failed mark, and
      over it exactly when a counted failure followed a failed mark. */
  lemma PollBudget(limit: nat, s: State, actions: seq<Action>, t: State, id: Id)
    requires limit > 0 && Initial(s) && WithinBudget(limit, s) && Run(limit, s, actions, t) && id in t.rows
    ensures t.rows[id].attempts <= limit + t.missed[id]
    ensures Flying(t.rows[id]) ==> (t.rows[id].attempts >= limit <==> MidMark(t.main, id) || id in t.missed)
    ensures Flying(t.rows[id]) ==>
              (t.rows[id].attempts > limit <==> t.missed[id] >= if MidMark(t.main, id) then 1 else 2)
  {
    RunKeepsBudget(limit, s, actions, t);
  }

  /** One cycle of the main poller over a single voice row whose status fetch fails. */
  function FailingCycle(id: Id, markOk: bool): seq<Action> {
    [ListVoice([id]), ListSms([]), Check(Main, FetchFailed("timeout"), true, 0), Mark(Main, "timeout", markOk, 0)]
  }

  /** It does happen: with a limit of 1, a row whose first mark fails is counted to 2. */
  lemma OverTheLimitExample() returns (s: State, t: State)
    ensures Initial(s) && WithinBudget(1, s) && s.rows.Keys == {0}
    ensures Run(1, s, FailingCycle(0, false) + FailingCycle(0, true), t)
    ensures t.rows.Keys == {0} && t.rows[0].attempts == 2
  {
    s := State(map[0 := Row(Voice, "queued", Some("CA1"), 0, None, None)], Resting, Resting, false, multiset{});
    var mid := CycleExample(s, false);
    t := CycleExample(mid, true);
    RunConcat(1, s, FailingCycle(0, false), mid, FailingCycle(0, true), t);
  }

  lemma CycleExample(s: State, markOk: bool) returns (t: State)
    requires s.main.Resting? && s.rows.Keys == {0} && s.rows[0].channel.Voice? && Flying(s.rows[0]) && HasSid(s.rows[0])
    ensures Run(1, s, FailingCycle(0, markOk), t)
    ensures t.main.Resting? && t.rows.Keys == {0} && t.rows[0].attempts == s.rows[0].attempts + 1
    ensures t.rows[0].channel == s.rows[0].channel && t.rows[0].sid == s.rows[0].sid
    ensures !markOk ==> t.rows[0].status == s.rows[0].status
  {
    var a := FailingCycle(0, markOk);
    var listed := s.(main := Visiting([0], false));
    assert Run(1, Apply(1, s, a[0]), [a[1]], listed) by {
      assert [0] + [] == [0];
      RunOne(1, Apply(1, s, a[0]), a[1], listed);
    }
    RunConcat(1, s, [a[0]], Apply(1, s, a[0]), [a[1]], listed);
    t := CheckAndMark(listed, markOk);
    RunConcat(1, s, a[..2], listed, a[2..], t);
    assert a == a[..2] + a[2..];
  }

  lemma CheckAndMark(s: State, markOk: bool) returns (t: State)
    requires s.main == Visiting([0], false) && s.rows.Keys == {0} && s.rows[0].channel.Voice? && HasSid(s.rows[0])
    ensures Run(1, s, FailingCycle(0, markOk)[2..], t)
    ensures t.main.Resting? && t.rows.Keys == {0} && t.rows[0].attempts == s.rows[0].attempts + 1
    ensures t.rows[0].channel == s.rows[0].channel && t.rows[0].sid == s.rows[0].sid
    ensures !markOk ==> t.rows[0].status == s.rows[0].status
  {
    var a := FailingCycle(0, markOk)[2..];
    var mid := Apply(1, s, a[0]);
    t := Apply(1, mid, a[1]);
    RunOne(1, mid, a[1], t);
    RunOne(1, s, a[0], mid);
    RunConcat(1, s, [a[0]], mid, [a[1]], t);
  }

  lemma RunOne(limit: int, s: State, a: Action, t: State)
    requires Enabled(s, a) && t == Apply(limit, s, a)
    ensures Run(limit, s, [a], t)
  {
    assert Run(limit, t, [a][1..], t);
  }

  lemma {:induction false} RunConcat(limit: int, s: State, first: seq<Action>, mid: State, rest: seq<Action>, t: State)
    requires Run(limit, s, first, mid) && Run(limit, mid, rest, t)
    ensures Run(limit, s, first + rest, t)
    decreases |first|
  {
    if first == [] {
      assert first + rest == rest;
    } else {
      RunConcat(limit, Apply(limit, s, first[0]), first[1..], mid, rest, t);
      assert (first + rest)[1..] == first[1..] + rest;
    }
  }

  // ----- How many failed polls a row can suffer in flight -----

  /** The counted failures the main poller records on a row during a run. */
  ghost function Failures(limit: int, s: State, actions: seq<Action>, id: Id): nat
    decreases |actions|
  {
    if actions == [] || !Enabled(s, actions[0]) then 0
    else CountedHere(s, actions[0], id) + Failures(limit, Apply(limit, s, actions[0]), actions[1..], id)
  }

  ghost function CountedHere(s: State, a: Action, id: Id): nat
    requires Enabled(s, a)
  {
    if a.Check? && a.who.Main? && s.main.todo[0] == id && a.ok && CountsFailure(s.rows[id], a.answer) then 1 else 0
  }

  /** While a row is in flight its counter moves only by its own failed polls, whatever the startup
      check and its bulk reset do meanwhile. */
  lemma StepCounts(limit: int, s: State, a: Action, id: Id)
    requires Snapshots(s) && Enabled(s, a) && id in s.rows && Flying(s.rows[id])
    requires Flying(Apply(limit, s, a).rows[id])
    ensures Apply(limit, s, a).rows[id].attempts == s.rows[id].attempts + CountedHere(s, a, id)
  {
    EndsPollingIsNotInFlight(s.rows[id].channel, s.rows[id].channel, "");
    match a
    case Check(who, answer, ok, now) =>
      var todo := ThreadOf(s, who).todo;
      assert todo[0] in Pending(ThreadOf(s, who));
      CheckEffect(s.rows, todo[0], s.rows[todo[0]], answer, now);
    case Mark(who, reason, ok, now) =>
      var todo := ThreadOf(s, who).todo;
      MarkEffect(s.rows, todo[0], now, reason);
    case _ =>
  }

  lemma {:induction false} RunCounts(limit: int, s: State, actions: seq<Action>, t: State, id: Id)
    requires Snapshots(s) && Run(limit, s, actions, t) && id in s.rows && id in t.rows && Flying(t.rows[id])
    ensures t.rows[id].attempts == s.rows[id].attempts + Failures(limit, s, actions, id)
    decreases |actions|
  {
    if actions != [] {
      var mid := Apply(limit, s, actions[0]);
      StepAbsorbs(limit, s, actions[0], id);
      StepKeepsSnapshots(limit, s, actions[0]);
      TerminalAbsorption(limit, mid, actions[1..], t, id);
      StepCounts(limit, s, actions[0], id);
      RunCounts(limit, mid, actions[1..], t, id);
    }
  }

  /** From any state s of a run on (for a new row, the state after its insert), a row still in
      flight has suffered at most as many counted failures as the limit and its failed marks allow;
      when no mark of it failed, fewer than the limit unless its mark is the very next statement. */
  lemma FailuresAreBounded(limit: nat, start: State, earlier: seq<Action>, s: State, actions: seq<Action>, t: State, id: Id)
    requires limit > 0 && Initial(start) && WithinBudget(limit, start)
    requires Run(limit, start, earlier, s) && Run(limit, s, actions, t)
    requires id in s.rows && id in t.rows && Flying(t.rows[id])
    ensures s.rows[id].attempts + Failures(limit, s, actions, id) <= limit + t.missed[id]
    ensures id !in t.missed ==> s.rows[id].attempts + Failures(limit, s, actions, id) < limit || MidMark(t.main, id)
  {
    RunKeepsBudget(limit, start, earlier, s);
    RunKeepsBudget(limit, s, actions, t);
    RunCounts(limit, s, actions, t, id);
  }

  // ----- Where a settled status comes from -----

  /** This check of the row reported the status, which it wrote at this time. */
  ghost predicate ReportedBy(s: State, a: Action, id: Id, status: string, at: Option<int>)
    requires Enabled(s, a)
  {
    && a.Check? && ThreadOf(s, a.who).todo[0] == id && a.ok && at == Some(a.now)
    && a.answer.Reported? && a.answer.status == status && EndsPolling(s.rows[id].channel, status)
  }

  ghost predicate ReportedInRun(limit: int, s: State, actions: seq<Action>, id: Id, status: string, at: Option<int>)
    decreases |actions|
  {
    && actions != [] && Enabled(s, actions[0])
    && (ReportedBy(s, actions[0], id, status, at) || ReportedInRun(limit, Apply(limit, s, actions[0]), actions[1..], id, status, at))
  }

  lemma StepSettles(limit: int, s: State, a: Action, id: Id)
    requires Snapshots(s) && Enabled(s, a) && id in s.rows && !Settled(s.rows[id]) && Settled(Apply(limit, s, a).rows[id])
    ensures var row := Apply(limit, s, a).rows[id];
            || (!HasSid(s.rows[id]) && row.status == "malformed" && row.completedAt.Some?)
            || ReportedBy(s, a, id, row.status, row.completedAt)
  {
  }

  /** In every run, a row that was still polled (in flight, or poll_failed before a restart) and has
      settled carries a final status of its channel that a check of the run was told for it, completed
      when that check wrote it, or "malformed" because it never had a message id. */
  lemma {:induction false} SettledAsReported(limit: int, s: State, actions: seq<Action>, t: State, id: Id)
    requires Snapshots(s) && Run(limit, s, actions, t) && id in s.rows && !Settled(s.rows[id])
    requires id in t.rows && Settled(t.rows[id])
    ensures || (!HasSid(s.rows[id]) && t.rows[id].status == "malformed")
            || ReportedInRun(limit, s, actions, id, t.rows[id].status, t.rows[id].completedAt)
    decreases |actions|
  {
    if actions != [] {
      var mid := Apply(limit, s, actions[0]);
      StepAbsorbs(limit, s, actions[0], id);
      StepKeepsSnapshots(limit, s, actions[0]);
      if Settled(mid.rows[id]) {
        StepSettles(limit, s, actions[0], id);
        TerminalAbsorption(limit, mid, actions[1..], t, id);
      } else {
        SettledAsReported(limit, mid, actions[1..], t, id);
      }
    }
  }

  // ----- No listed row is skipped -----

  /** The poller still has this row to check. */
  predicate Ahead(t: Thread, id: Id) {
    match t
    case Resting => false
    case Holding(ids) => id in ids
    case Visiting(todo, marking) => id in if marking && todo != [] then todo[1..] else todo
  }

  /** The run checks this row. */
  ghost predicate ChecksRow(limit: int, s: State, actions: seq<Action>, who: Who, id: Id)
    decreases |actions|
  {
    && actions != [] && Enabled(s, actions[0])
    && (|| (actions[0].Check? && actions[0].who == who && ThreadOf(s, who).todo[0] == id)
        || ChecksRow(limit, Apply(limit, s, actions[0]), actions[1..], who, id))
  }

  /** What makes a poller give up its list: the second of its two opening statements fails. */
  predicate Drops(a: Action, who: Who) {
    if who.Main? then a.ListSmsFails? else a == Reset(false)
  }

  lemma StepKeepsAhead(limit: int, s: State, a: Action, who: Who, id: Id)
    requires Snapshots(s) && Enabled(s, a) && Ahead(ThreadOf(s, who), id) && !Drops(a, who)
    ensures Ahead(ThreadOf(Apply(limit, s, a), who), id) || (a.Check? && a.who == who && ThreadOf(s, who).todo[0] == id)
  {
  }

  lemma {:induction false} CheckedOrAhead(limit: int, s: State, actions: seq<Action>, t: State, who: Who, id: Id)
    requires Snapshots(s) && Run(limit, s, actions, t) && Ahead(ThreadOf(s, who), id)
    requires forall a :: a in actions ==> !Drops(a, who)
    ensures ChecksRow(limit, s, actions, who, id) || Ahead(ThreadOf(t, who), id)
    decreases |actions|
  {
    if actions != [] {
      var mid := Apply(limit, s, actions[0]);
      StepKeepsAhead(limit, s, actions[0], who, id);
      StepKeepsSnapshots(limit, s, actions[0]);
      if Ahead(ThreadOf(mid, who), id) {
        CheckedOrAhead(limit, mid, actions[1..], t, who, id);
      }
    }
  }

  /** The query that puts a row on a poller's list. */
  predicate ListedBy(a: Action, row: Row, who: Who) {
    match a
    case ListVoice(_) => who.Main? && row.channel.Voice? && row.status in VOICE_WAITING
    case ListSms(_) => who.Main? && row.channel.Sms? && row.status in SMS_WAITING
    case ListFailed(_) => who.Startup? && row.status == "poll_failed"
    case _ => false
  }

  /** No row is skipped: a call or a text message in flight when the periodic poll lists its kind, and a
      row given up before a restart when the startup check lists those, has been checked by the time
      that poller rests again, whatever else runs, unless its second opening statement failed. */
  lemma EveryListedRowIsChecked(limit: int, s: State, a: Action, actions: seq<Action>, t: State, who: Who, id: Id)
    requires Snapshots(s) && Enabled(s, a) && id in s.rows && ListedBy(a, s.rows[id], who)
    requires Run(limit, Apply(limit, s, a), actions, t) && ThreadOf(t, who).Resting?
    requires forall b :: b in actions ==> !Drops(b, who)
    ensures ChecksRow(limit, Apply(limit, s, a), actions, who, id)
  {
    Vocabulary(s.rows[id].status);
    StepKeepsSnapshots(limit, s, a);
    CheckedOrAhead(limit, Apply(limit, s, a), actions, t, who, id);
  }

  // ----- The methods of Poller are the undisturbed runs of this system -----

  /** Checking one row without interruption, as Deliveries.CheckDelivery does it, is the check step
      followed, when the budget is used up, by the mark step. */
  lemma CheckDeliveryRefines(limit: int, s: State, who: Who, answer: Answer, ok1: bool, ok2: bool, now: int)
    requires Enabled(s, Check(who, answer, ok1, now))
    ensures var id := ThreadOf(s, who).todo[0];
            var mid := Apply(limit, s, Check(who, answer, ok1, now));
            var result := Checked(limit, s.rows, id, s.rows[id], answer, ok1, ok2, now);
            if ThreadOf(mid, who).Visiting? && ThreadOf(mid, who).marking && ThreadOf(mid, who).todo[0] == id
            then answer.FetchFailed? && Enabled(mid, Mark(who, answer.reason, ok2, now))
                 && Apply(limit, mid, Mark(who, answer.reason, ok2, now)).rows == result
            else mid.rows == result
  {
  }
}
