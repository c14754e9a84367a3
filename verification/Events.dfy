/** The life of an event: created and ended over the API (api/handlers.go, api/resources.go), or
    closed by the background sweep (notify/sweeper.go), each handler taken as one step. */
module Events {
  import opened Common
  import opened TimeText

  /** Event ids: opaque names, compared only for equality. */
  type Id = nat

  datatype Details = Details(url: string, name: string, description: string, severity: string)

  datatype Event = Event(details: Details, start: string, end: Option<string>, autoClosed: bool)

  type Table = map<Id, Event>

  /** Fields of an update request; those absent keep their value. */
  datatype Patch = Patch(url: Option<string>, name: Option<string>, description: Option<string>, severity: Option<string>)

  /** The server's reading of the time layouts other than the normal form and plain epoch seconds. */
  type Layouts = string -> Option<int>

  /** The handlers' test for an event that is not ended, on the Go side. */
  predicate IsOpen(e: Event) {
    e.end.None? || e.end.value == ""
  }

  /** The sweep's test, in SQL. */
  predicate Stale(e: Event, cutoff: string) {
    e.end.None? && !LexLess(cutoff, e.start)
  }

  /** A caller's time, or the server's clock when the caller gave none. */
  function TimeOr(input: string, now: int, other: Layouts): Option<string> {
    if input == "" then Some(Format(now)) else Normalise(input, other)
  }

  // ----- Each operation as a function of the table -----

  function AfterCreate(rows: Table, id: Id, d: Details, start: string, now: int, other: Layouts, ok: bool): Table {
    if id in rows then rows
    else match TimeOr(start, now, other)
         case None => rows
         case Some(text) => if ok then rows[id := Event(d, text, None, false)] else rows
  }

  /** Ending an event at a time already read; `given` says whether the caller supplied it. */
  function AfterEndAt(rows: Table, id: Id, given: bool, time: Option<string>, ok: bool): Table {
    if id !in rows || !IsOpen(rows[id]) then rows
    else match time
         case None => rows
         case Some(text) =>
           if (given && LexLess(text, rows[id].start)) || !ok then rows
           else rows[id := rows[id].(end := Some(text))]
  }

  function AfterEnd(rows: Table, id: Id, end: string, now: int, other: Layouts, ok: bool): Table {
    AfterEndAt(rows, id, end != "", TimeOr(end, now, other), ok)
  }

  /** The event part of a publish request: create the event if new, then end it if asked to. */
  function AfterPublish(rows: Table, id: Id, d: Details, start: string, end: string, now: int, other: Layouts,
                        ok1: bool, ok2: bool): Table {
    var created := AfterCreate(rows, id, d, start, now, other, ok1);
    if end == "" then created else AfterEnd(created, id, end, now, other, ok2)
  }

  function Merge(kept: string, given: Option<string>): string {
    if given.Some? then given.value else kept
  }

  function AfterUpdate(rows: Table, id: Id, p: Patch, ok: bool): Table {
    if id !in rows || !ok then rows
    else
      var d := rows[id].details;
      rows[id := rows[id].(details := Details(Merge(d.url, p.url), Merge(d.name, p.name),
                                              Merge(d.description, p.description), Merge(d.severity, p.severity)))]
  }

  function Closed(e: Event, now: string): Event {
    e.(end := Some(now), autoClosed := true)
  }

  function AfterSweep(rows: Table, now: string, cutoff: string, ok: bool): (r: Table)
    ensures r.Keys == rows.Keys
  {
    map id | id in rows :: if ok && Stale(rows[id], cutoff) then Closed(rows[id], now) else rows[id]
  }

  lemma SweepFails(rows: Table, now: string, cutoff: string)
    ensures AfterSweep(rows, now, cutoff, false) == rows
  {
  }

  const SECOND: int := 1_000_000_000

  /** A clock reading in nanoseconds, printed in whole seconds. */
  function Stamp(ns: int): string {
    Format(ns / SECOND)
  }

  // ----- The store, changed in place -----

  /** A time from the request, normalised, or the server's clock; none when it is not accepted. */
  method ReadTime(input: string, now: int, other: Layouts) returns (time: Option<string>)
    ensures time == TimeOr(input, now, other)
  {
    if input == "" {
      time := Some(Format(now));
    } else {
      time := Normalise(input, other);
    }
  }

  class EventStore {
    var rows: Table
    /** Event ids for which an "auto_close_event" audit record was attempted, oldest first. */
    var audited: seq<Id>

    constructor (rows: Table)
      ensures this.rows == rows && audited == []
    {
      this.rows := rows;
      audited := [];
    }

    method CreateEvent(id: Id, d: Details, start: string, now: int, other: Layouts, ok: bool)
      modifies this`rows
      ensures rows == AfterCreate(old(rows), id, d, start, now, other, ok)
    {
      if id in rows {
        return;
      }
      var startTime := ReadTime(start, now, other);
      if startTime.None? {
        return;
      }
      if ok {
        rows := rows[id := Event(d, startTime.value, None, false)];
      }
    }

    method EndEvent(id: Id, end: string, now: int, other: Layouts, ok: bool)
      modifies this`rows
      ensures rows == AfterEnd(old(rows), id, end, now, other, ok)
    {
      if id !in rows {
        return;
      }
      if rows[id].end.Some? && rows[id].end.value != "" {
        return;
      }
      var endTime := ReadTime(end, now, other);
      UpdateEventEndTime(id, end != "", endTime, ok);
    }

    /** The rest of EndEvent: an accepted time, not before the start if supplied, is stored. */
    method UpdateEventEndTime(id: Id, given: bool, endTime: Option<string>, ok: bool)
      requires id in rows && IsOpen(rows[id])
      modifies this`rows
      ensures rows == AfterEndAt(old(rows), id, given, endTime, ok)
    {
      if endTime.None? {
        return;
      }
      if given && LexLess(endTime.value, rows[id].start) {
        return;
      }
      if ok {
        rows := rows[id := rows[id].(end := endTime)];
      }
    }

    method PublishEvent(id: Id, d: Details, start: string, end: string, now: int, other: Layouts, ok1: bool, ok2: bool)
      modifies this`rows
      ensures rows == AfterPublish(old(rows), id, d, start, end, now, other, ok1, ok2)
    {
      CreateEvent(id, d, start, now, other, ok1);
      if id !in rows {
        return;
      }
      if end != "" {
        EndEvent(id, end, now, other, ok2);
      }
    }

    method UpdateEvent(id: Id, p: Patch, ok: bool)
      modifies this`rows
      ensures rows == AfterUpdate(old(rows), id, p, ok)
    {
      if id !in rows || !ok {
        return;
      }
      var event := rows[id];
      var d := event.details;
      if p.url.Some? {
        d := d.(url := p.url.value);
      }
      if p.name.Some? {
        d := d.(name := p.name.value);
      }
      if p.description.Some? {
        d := d.(description := p.description.value);
      }
      if p.severity.Some? {
        d := d.(severity := p.severity.value);
      }
      rows := rows[id := event.(details := d)];
    }

    /** The bulk update: close every stale event and return the ids closed. */
    method AutoCloseStaleEvents(stamp: string, cutoff: string) returns (closed: set<Id>)
      modifies this`rows
      ensures rows == AfterSweep(old(rows), stamp, cutoff, true)
      ensures forall id :: id in closed <==> id in old(rows) && Stale(old(rows)[id], cutoff)
    {
      closed := set id | id in rows && Stale(rows[id], cutoff);
      rows := map id | id in rows :: if id in closed then Closed(rows[id], stamp) else rows[id];
    }

    /** One sweep: two clock readings, the bulk update, and one audit attempt per closed event. */
    method Sweep(now: int, later: int, ttl: int, ok: bool)
      modifies this
      ensures rows == AfterSweep(old(rows), Stamp(now), Stamp(later - ttl), ok)
      ensures old(audited) <= audited && Distinct(audited[|old(audited)|..])
      ensures forall id :: id in audited[|old(audited)|..]
                      <==> ok && id in old(rows) && Stale(old(rows)[id], Stamp(later - ttl))
    {
      if !ok {
        SweepFails(rows, Stamp(now), Stamp(later - ttl));
        return;
      }
      var closed := AutoCloseStaleEvents(Stamp(now), Stamp(later - ttl));
      AuditClosed(closed);
    }

    /** The sweep's second loop: one audit attempt for each id the update returned, in some order. */
    method AuditClosed(ids: set<Id>)
      modifies this`audited
      ensures old(audited) <= audited && Distinct(audited[|old(audited)|..])
      ensures forall id :: id in audited[|old(audited)|..] <==> id in ids
    {
      var rest := ids;
      ghost var start := audited;
      while rest != {}
        invariant start <= audited && rest <= ids
        invariant Distinct(audited[|start|..])
        invariant forall id :: id in audited[|start|..] <==> id in ids && id !in rest
        decreases |rest|
      {
        var id :| id in rest;
        ghost var before := audited[|start|..];
        audited := audited + [id];
        rest := rest - {id};
        assert audited[|start|..] == before + [id];
      }
    }
  }

  // ----- What every handler keeps -----

  /** A row the handlers can have written: an end that is set is not the empty string, so the Go test
      and the SQL NULL test agree, and only an ended event is marked auto-closed. */
  predicate RowOk(e: Event) {
    && (IsOpen(e) <==> e.end == None)
    && (e.autoClosed ==> e.end.Some?)
  }

  ghost predicate TableOk(rows: Table) {
    forall id :: id in rows ==> RowOk(rows[id])
  }

  /** What no handler does to an existing event: move its start, change or clear an end once set, or
      change the mark of an ended event. */
  predicate Forward(before: Event, after: Event) {
    && after.start == before.start
    && (before.end.Some? ==> after.end == before.end && after.autoClosed == before.autoClosed)
  }

  datatype Command =
    | Create(id: Id, d: Details, start: string, now: int, ok: bool)
    | Publish(id: Id, d: Details, start: string, end: string, now: int, ok: bool, ok2: bool)
    | Update(id: Id, p: Patch, ok: bool)
    | End(id: Id, end: string, now: int, ok: bool)
    | Sweep(now: int, cutoff: int, ok: bool)

  function Step(rows: Table, c: Command, other: Layouts): Table {
    match c
    case Create(id, d, start, now, ok) => AfterCreate(rows, id, d, start, now, other, ok)
    case Publish(id, d, start, end, now, ok, ok2) => AfterPublish(rows, id, d, start, end, now, other, ok, ok2)
    case Update(id, p, ok) => AfterUpdate(rows, id, p, ok)
    case End(id, end, now, ok) => AfterEnd(rows, id, end, now, other, ok)
    case Sweep(now, cutoff, ok) => AfterSweep(rows, Stamp(now), Stamp(cutoff), ok)
  }

  function Play(rows: Table, commands: seq<Command>, other: Layouts): Table {
    if commands == [] then rows
    else Step(Play(rows, commands[..|commands| - 1], other), commands[|commands| - 1], other)
  }

  lemma StampNotEmpty(ns: int)
    ensures Stamp(ns) != ""
  {
  }

  /** No normalised time is the empty string. */
  lemma TimesAreNotEmpty(input: string, now: int, other: Layouts)
    ensures TimeOr(input, now, other) != Some("")
  {
  }

  lemma EndKeeps(rows: Table, id: Id, end: string, now: int, other: Layouts, ok: bool)
    requires TableOk(rows)
    ensures TableOk(AfterEnd(rows, id, end, now, other, ok)) && rows.Keys == AfterEnd(rows, id, end, now, other, ok).Keys
    ensures forall x :: x in rows ==> Forward(rows[x], AfterEnd(rows, id, end, now, other, ok)[x])
  {
    TimesAreNotEmpty(end, now, other);
  }

  lemma CreateKeeps(rows: Table, id: Id, d: Details, start: string, now: int, other: Layouts, ok: bool)
    requires TableOk(rows)
    ensures TableOk(AfterCreate(rows, id, d, start, now, other, ok)) && rows.Keys <= AfterCreate(rows, id, d, start, now, other, ok).Keys
    ensures forall x :: x in rows ==> AfterCreate(rows, id, d, start, now, other, ok)[x] == rows[x]
  {
  }

  lemma SweepKeeps(rows: Table, now: string, cutoff: string, ok: bool)
    requires TableOk(rows) && now != ""
    ensures TableOk(AfterSweep(rows, now, cutoff, ok))
    ensures forall x :: x in rows ==> Forward(rows[x], AfterSweep(rows, now, cutoff, ok)[x])
  {
  }

  lemma StepKeeps(rows: Table, c: Command, other: Layouts)
    requires TableOk(rows)
    ensures TableOk(Step(rows, c, other)) && rows.Keys <= Step(rows, c, other).Keys
    ensures forall id :: id in rows ==> Forward(rows[id], Step(rows, c, other)[id])
  {
    match c
    case Create(id, d, start, now, ok) => CreateKeeps(rows, id, d, start, now, other, ok);
    case Publish(id, d, start, end, now, ok, ok2) =>
      CreateKeeps(rows, id, d, start, now, other, ok);
      EndKeeps(AfterCreate(rows, id, d, start, now, other, ok), id, end, now, other, ok2);
    case Update(_, _, _) =>
    case End(id, end, now, ok) => EndKeeps(rows, id, end, now, other, ok);
    case Sweep(now, cutoff, ok) =>
      StampNotEmpty(now);
      SweepKeeps(rows, Stamp(now), Stamp(cutoff), ok);
  }

  /** Set-once over every run of whole handlers: an end time, once set, never changes and is never
      the empty string, and the start never moves. */
  lemma {:induction false} EndIsSetOnce(rows: Table, commands: seq<Command>, other: Layouts)
    requires TableOk(rows)
    ensures TableOk(Play(rows, commands, other)) && rows.Keys <= Play(rows, commands, other).Keys
    ensures forall id :: id in rows ==> Forward(rows[id], Play(rows, commands, other)[id])
  {
    if commands != [] {
      var earlier := commands[..|commands| - 1];
      EndIsSetOnce(rows, earlier, other);
      StepKeeps(Play(rows, earlier, other), commands[|commands| - 1], other);
    }
  }

  // ----- Who ended an event -----

  /** A sweep that stamped this event and found it due. */
  predicate Sweeps(c: Command, e: Event) {
    c.Sweep? && e.end == Some(Stamp(c.now)) && !LexLess(Stamp(c.cutoff), e.start)
  }

  /** An event is marked auto-closed only by a sweep of the run, whose time is its end and whose
      cutoff it had reached. */
  lemma {:induction false} AutoClosedMeansSwept(commands: seq<Command>, other: Layouts, id: Id) returns (k: nat)
    requires id in Play(map[], commands, other) && Play(map[], commands, other)[id].autoClosed
    ensures k < |commands| && Sweeps(commands[k], Play(map[], commands, other)[id])
  {
    var earlier, c := commands[..|commands| - 1], commands[|commands| - 1];
    var before := Play(map[], earlier, other);
    EndIsSetOnce(map[], earlier, other);
    k := |commands| - 1;
    if id in before && before[id].autoClosed {
      MarkedStays(before, c, other, id);
      k := AutoClosedMeansSwept(earlier, other, id);
    } else {
      OnlySweepsMark(before, c, other, id);
    }
  }

  lemma MarkedStays(rows: Table, c: Command, other: Layouts, id: Id)
    requires TableOk(rows) && id in rows && rows[id].autoClosed
    ensures var after := Step(rows, c, other); id in after && after[id].end == rows[id].end && after[id].start == rows[id].start
  {
    StepKeeps(rows, c, other);
  }

  lemma OnlySweepsMark(rows: Table, c: Command, other: Layouts, id: Id)
    requires id in Step(rows, c, other) && Step(rows, c, other)[id].autoClosed
    requires id in rows ==> !rows[id].autoClosed
    ensures Sweeps(c, Step(rows, c, other)[id])
  {
  }

  // ----- Comparisons of texts, in instants -----

  /** The years of two instants compare as their texts do. */
  predicate Compare(s: int, t: int) {
    YearsCompare(CivilOf(s).year, CivilOf(t).year)
  }

  /** One text is below another exactly when the instants are in that order and their years compare, or
      neither. */
  lemma TextBelowIff(s: int, t: int)
    ensures LexLess(Format(s), Format(t)) <==> (s < t <==> Compare(s, t))
  {
    OrderAgreesIff(s, t);
  }

  lemma CompareEither(s: int, t: int)
    ensures Compare(s, t) == Compare(t, s) && Compare(s, s)
  {
    YearsCompareEither(CivilOf(s).year, CivilOf(t).year);
  }

  // ----- The sweep -----

  /** In instants: a sweep closes an event if and only if it is open and started at or before the
      cutoff's second, as long as the two years compare; where they do not, it closes an open event
      if and only if it started after the cutoff. It changes no other event, and a second sweep at
      the same cutoff, whenever it runs, closes none. */
  lemma SweepExact(rows: Table, now: int, again: int, later: int, ttl: int, id: Id, start: int)
    requires id in rows && rows[id].start == Format(start)
    ensures var after, cutoff := AfterSweep(rows, Stamp(now), Stamp(later - ttl), true), (later - ttl) / SECOND;
            && after[id] == (if rows[id].end.None? && (start <= cutoff <==> Compare(cutoff, start))
                             then rows[id].(end := Some(Stamp(now)), autoClosed := true) else rows[id])
            && AfterSweep(after, Stamp(again), Stamp(later - ttl), true) == after
  {
    TextBelowIff((later - ttl) / SECOND, start);
    ResweepCloses(rows, Stamp(now), Stamp(again), Stamp(later - ttl));
  }

  lemma ResweepCloses(rows: Table, now: string, again: string, cutoff: string)
    ensures AfterSweep(AfterSweep(rows, now, cutoff, true), again, cutoff, true) == AfterSweep(rows, now, cutoff, true)
  {
  }

  lemma {:induction false} LexAtMostTransitive(a: string, b: string, c: string)
    requires !LexLess(b, a) && !LexLess(c, b)
    ensures !LexLess(c, a)
  {
    if a != "" && b != "" && c != "" && a[0] == b[0] == c[0] {
      LexAtMostTransitive(a[1..], b[1..], c[1..]);
    }
  }

  /** An open event that starts after the sweep's first clock reading, so that a sweep should leave it
      alone (the TTL covers the gap between the two readings), is closed all the same, with an end
      before its start, if and only if its year does not compare with the cutoff's. */
  lemma SweptBeforeStartIff(rows: Table, now: int, later: int, ttl: int, id: Id, start: int)
    requires id in rows && rows[id].end == None && rows[id].start == Format(start) && later - now <= ttl
    ensures now / SECOND < start ==>
              (AfterSweep(rows, Stamp(now), Stamp(later - ttl), true)[id].end == Some(Stamp(now))
               <==> !Compare((later - ttl) / SECOND, start))
  {
    SweepExact(rows, now, now, later, ttl, id, start);
    assert (later - ttl) / SECOND <= now / SECOND;
  }

  /** Among the starts whose year compares with the cutoff's, every end a sweep can write is at or
      after the start if and only if its first clock reading, in whole seconds, is not before its
      cutoff; a TTL of at least the gap between the two readings is enough. */
  lemma SweepEndsNotBeforeStartIff(now: int, later: int, ttl: int)
    ensures var cutoff := (later - ttl) / SECOND;
            (forall start: int :: !LexLess(Stamp(later - ttl), Format(start)) && Compare(cutoff, start) ==> start <= now / SECOND)
            <==> cutoff <= now / SECOND
    ensures later - now <= ttl ==> (later - ttl) / SECOND <= now / SECOND
  {
    var cutoff := (later - ttl) / SECOND;
    forall start: int | !LexLess(Stamp(later - ttl), Format(start)) && Compare(cutoff, start) ensures start <= cutoff {
      TextBelowIff(cutoff, start);
    }
    TextBelowIff(cutoff, cutoff);
    CompareEither(cutoff, cutoff);
    assert !LexLess(Stamp(later - ttl), Format(cutoff));
  }

  // ----- Ends supplied by callers -----

  /** A supplied end y for an event that starts at x is accepted if and only if it is not before the
      start, as long as the two years compare; where they do not, if and only if it is before it. So
      an accepted end is before the start exactly when the years do not compare. */
  lemma CallerEndBeforeStartIff(rows: Table, id: Id, end: string, now: int, other: Layouts, x: int, y: int)
    requires end != "" && Instant(end, other) == Some(y)
    requires id in rows && rows[id].end == None && rows[id].start == Format(x)
    ensures AfterEnd(rows, id, end, now, other, true)
            == if x <= y <==> Compare(y, x) then rows[id := rows[id].(end := Some(Format(y)))] else rows
    ensures AfterEnd(rows, id, end, now, other, true) != rows ==> (y < x <==> !Compare(y, x))
  {
    TextBelowIff(y, x);
    assert TimeOr(end, now, other) == Some(Format(y));
    EndAtEffect(rows, id, Format(y));
  }

  lemma EndAtEffect(rows: Table, id: Id, text: string)
    requires id in rows && rows[id].end == None
    ensures AfterEndAt(rows, id, true, Some(text), true)
            == if LexLess(text, rows[id].start) then rows else rows[id := rows[id].(end := Some(text))]
    ensures rows[id := rows[id].(end := Some(text))] != rows
  {
    assert rows[id := rows[id].(end := Some(text))][id] != rows[id];
  }

  /** A five-digit year above a four-digit one whose text is not above it. */
  lemma FiveDigitsMislead(x: int, y: int)
    requires 10000 <= CivilOf(x).year < 100000 && CivilOf(x).year / 10 < CivilOf(y).year < 10000
    ensures !Compare(y, x) && y < x
  {
    FiveDigitCompare(CivilOf(x).year, CivilOf(y).year);
    FiveDigitYears(x, y);
  }

  lemma Year10000And2024(x: int, y: int)
    requires CivilOf(x).year == 10000 && CivilOf(y).year == 2024
    ensures !Compare(y, x) && y < x
  {
    FiveDigitsMislead(x, y);
  }

  /** An event announced for year 10000 (an accepted epoch-seconds input) accepts an end in 2024, almost
      eight thousand years before its start ... */
  lemma Year10000EndExample(rows: Table, id: Id, end: string, now: int, other: Layouts, x: int, y: int)
    requires CivilOf(x).year == 10000 && CivilOf(y).year == 2024
    requires end != "" && Instant(end, other) == Some(y)
    requires id in rows && rows[id].end == None && rows[id].start == Format(x)
    ensures AfterEnd(rows, id, end, now, other, true) == rows[id := rows[id].(end := Some(Format(y)))]
    ensures y < x
  {
    Year10000And2024(x, y);
    CallerEndBeforeStartIff(rows, id, end, now, other, x, y);
  }

  /** ... and a sweep of 2024 closes it, with an end before its start. */
  lemma Year10000SweepExample(rows: Table, id: Id, stamp: int, cutoff: int, x: int)
    requires CivilOf(x).year == 10000 && CivilOf(stamp).year == 2024 && CivilOf(cutoff).year == 2024
    requires id in rows && rows[id].end == None && rows[id].start == Format(x)
    ensures AfterSweep(rows, Format(stamp), Format(cutoff), true)[id] == Closed(rows[id], Format(stamp))
    ensures stamp < x
  {
    Year10000And2024(x, stamp);
    Year10000And2024(x, cutoff);
    TextBelowIff(cutoff, x);
  }

  // ----- What creating, publishing and updating do -----

  /** The time a request means: the instant it gives, or the clock's when it gives none. */
  predicate Means(input: string, now: int, other: Layouts, x: int) {
    if input == "" then x == now else Instant(input, other) == Some(x)
  }

  /** A new event starts at the instant the request means, with its details, open and unmarked; a time
      that is not accepted, a failed insert or an id in use changes nothing. */
  lemma CreateExact(rows: Table, id: Id, d: Details, start: string, now: int, other: Layouts, x: int)
    ensures id !in rows && Means(start, now, other, x) ==>
              AfterCreate(rows, id, d, start, now, other, true) == rows[id := Event(d, Format(x), None, false)]
    ensures start != "" && Instant(start, other) == None ==> AfterCreate(rows, id, d, start, now, other, true) == rows
    ensures AfterCreate(rows, id, d, start, now, other, false) == rows
    ensures id in rows ==> AfterCreate(rows, id, d, start, now, other, true) == rows
  {
  }

  /** Publishing for an open event with an end time ends it at that instant exactly when ending it would:
      if the end is not before the start, as long as the two years compare. */
  lemma PublishEndsIff(rows: Table, id: Id, d: Details, start: string, end: string, now: int, other: Layouts, x: int, y: int)
    requires end != "" && Instant(end, other) == Some(y)
    requires id in rows && rows[id].end == None && rows[id].start == Format(x)
    ensures AfterPublish(rows, id, d, start, end, now, other, true, true)
            == if x <= y <==> Compare(y, x) then rows[id := rows[id].(end := Some(Format(y)))] else rows
  {
    CreateExact(rows, id, d, start, now, other, x);
    CallerEndBeforeStartIff(rows, id, end, now, other, x, y);
  }

  /** Publishing for a new event creates it at the instant meant by the start and, on the same terms, ends
      it at the given end. */
  lemma PublishCreatesAndEnds(rows: Table, id: Id, d: Details, start: string, end: string, now: int, other: Layouts,
                              x: int, y: int)
    requires id !in rows && Means(start, now, other, x) && end != "" && Instant(end, other) == Some(y)
    ensures AfterPublish(rows, id, d, start, end, now, other, true, true)
            == rows[id := Event(d, Format(x), if x <= y <==> Compare(y, x) then Some(Format(y)) else None, false)]
  {
    CreateExact(rows, id, d, start, now, other, x);
    var created := rows[id := Event(d, Format(x), None, false)];
    CallerEndBeforeStartIff(created, id, end, now, other, x, y);
    assert AfterPublish(rows, id, d, start, end, now, other, true, true) == AfterEnd(created, id, end, now, other, true);
  }

  /** Publishing without an end, with one that is not accepted, or for an event already ended, does no more
      than create an event that is new. */
  lemma PublishOnlyCreates(rows: Table, id: Id, d: Details, start: string, end: string, now: int, other: Layouts, ok: bool)
    requires end == "" || Instant(end, other) == None || (id in rows && !IsOpen(rows[id]))
    ensures AfterPublish(rows, id, d, start, end, now, other, ok, true) == AfterCreate(rows, id, d, start, now, other, ok)
  {
  }

  /** An update changes each field it gives and no other, and nothing else of the table. */
  lemma UpdateExact(rows: Table, id: Id, p: Patch, x: Id)
    ensures AfterUpdate(rows, id, p, true).Keys == rows.Keys && AfterUpdate(rows, id, p, false) == rows
    ensures x in rows && x != id ==> AfterUpdate(rows, id, p, true)[x] == rows[x]
    ensures id in rows ==>
              var before, after := rows[id], AfterUpdate(rows, id, p, true)[id];
              && after.start == before.start && after.end == before.end && after.autoClosed == before.autoClosed
              && after.details == Details(p.url.Or(before.details.url), p.name.Or(before.details.name),
                                          p.description.Or(before.details.description), p.severity.Or(before.details.severity))
  {
  }

  // ----- Ends at the server's clock -----

  /** An end requested without a time is stamped with the server's clock, whatever the start. */
  lemma ClockEnd(rows: Table, id: Id, now: int, other: Layouts)
    requires id in rows && rows[id].end == None
    ensures AfterEnd(rows, id, "", now, other, true) == rows[id := rows[id].(end := Some(Format(now)))]
  {
  }

  /** So the event then ends before it starts if and only if it was announced for later than now. */
  lemma ClockEndBeforeStartIff(rows: Table, id: Id, now: int, other: Layouts, x: int, y: int)
    requires id in rows && rows[id].end == None && rows[id].start == Format(x)
    requires AfterEnd(rows, id, "", now, other, true) == rows[id := rows[id].(end := Some(Format(y)))]
    ensures y < x <==> now < x
  {
    ClockEnd(rows, id, now, other);
    SameEnd(rows, id, Format(now), Format(y));
    FormatInjective(now, y);
  }

  lemma SameEnd(rows: Table, id: Id, s: string, t: string)
    requires id in rows
    requires rows[id := rows[id].(end := Some(s))] == rows[id := rows[id].(end := Some(t))]
    ensures s == t
  {
    assert rows[id := rows[id].(end := Some(s))][id].end == Some(s);
    assert rows[id := rows[id].(end := Some(t))][id].end == Some(t);
  }

  /** One second early: ended by the server's clock in 2024, an event announced for the next second ends
      before it starts, and its texts show it. */
  lemma EarlyEndExample(rows: Table, id: Id, other: Layouts, now: int, start: int)
    requires start == now + 1 && CivilOf(now).year == 2024 && CivilOf(start).year == 2024
    requires id in rows && rows[id].end == None && rows[id].start == Format(start)
    ensures AfterEnd(rows, id, "", now, other, true) == rows[id := rows[id].(end := Some(Format(now)))]
    ensures now < start && LexLess(Format(now), rows[id].start)
  {
    ClockEnd(rows, id, now, other);
    OrderPreserved(now, start);
  }

  // ----- Ends against starts, over whole runs -----

  /** What the string tests keep: no end's text is below its start's. */
  ghost predicate TextOrdered(rows: Table) {
    forall id :: id in rows && rows[id].end.Some? ==> !LexLess(rows[id].end.value, rows[id].start)
  }

  /** Explicit ends are supplied by callers, and a sweep's stamp is not before its cutoff (nor in a year
      that does not compare with it), as when the TTL covers the gap between its clock readings. */
  predicate Disciplined(c: Command) {
    && (c.End? ==> c.end != "")
    && (c.Sweep? ==> c.cutoff / SECOND <= c.now / SECOND && Compare(c.now / SECOND, c.cutoff / SECOND))
  }

  lemma EndKeepsOrdered(rows: Table, id: Id, end: string, now: int, other: Layouts, ok: bool)
    requires TextOrdered(rows) && end != ""
    ensures TextOrdered(AfterEnd(rows, id, end, now, other, ok))
  {
  }

  lemma SweepKeepsOrdered(rows: Table, stamp: string, cutoff: string, ok: bool)
    requires TextOrdered(rows) && !LexLess(stamp, cutoff)
    ensures TextOrdered(AfterSweep(rows, stamp, cutoff, ok))
  {
    var after := AfterSweep(rows, stamp, cutoff, ok);
    forall id | id in after && after[id].end.Some? ensures !LexLess(after[id].end.value, after[id].start) {
      if Stale(rows[id], cutoff) {
        LexAtMostTransitive(rows[id].start, cutoff, stamp);
      }
    }
  }

  lemma StepKeepsOrdered(rows: Table, c: Command, other: Layouts)
    requires TextOrdered(rows) && Disciplined(c)
    ensures TextOrdered(Step(rows, c, other))
  {
    match c
    case Create(id, d, start, now, ok) =>
    case Publish(id, d, start, end, now, ok, ok2) =>
      if end != "" {
        EndKeepsOrdered(AfterCreate(rows, id, d, start, now, other, ok), id, end, now, other, ok2);
      }
    case Update(_, _, _) =>
    case End(id, end, now, ok) => EndKeepsOrdered(rows, id, end, now, other, ok);
    case Sweep(now, cutoff, ok) =>
      TextBelowIff(now / SECOND, cutoff / SECOND);
      SweepKeepsOrdered(rows, Stamp(now), Stamp(cutoff), ok);
  }

  lemma {:induction false} RunKeepsOrdered(commands: seq<Command>, other: Layouts)
    requires forall c :: c in commands ==> Disciplined(c)
    ensures TextOrdered(Play(map[], commands, other))
  {
    if commands != [] {
      RunKeepsOrdered(commands[..|commands| - 1], other);
      StepKeepsOrdered(Play(map[], commands[..|commands| - 1], other), commands[|commands| - 1], other);
    }
  }

  /** Over a whole disciplined run, an event that has ended ends at or after its start if and only if
      the years of its start and end compare, as any two of the years 0 to 9999 do. */
  lemma EndsFollowStarts(commands: seq<Command>, other: Layouts, id: Id, x: int, y: int)
    requires forall c :: c in commands ==> Disciplined(c)
    requires id in Play(map[], commands, other)
    requires Play(map[], commands, other)[id].start == Format(x) && Play(map[], commands, other)[id].end == Some(Format(y))
    ensures x <= y <==> Compare(y, x)
    ensures 0 <= CivilOf(x).year < 10000 && 0 <= CivilOf(y).year < 10000 ==> x <= y
  {
    RunKeepsOrdered(commands, other);
    TextBelowIff(y, x);
  }

  // ----- What the stored times are -----

  /** The text is that of an instant, as the server prints it. */
  ghost predicate IsTime(text: string) {
    exists t: int :: Format(t) == text
  }

  ghost predicate TimesOk(rows: Table) {
    forall id :: id in rows ==> IsTime(rows[id].start) && (rows[id].end.Some? ==> IsTime(rows[id].end.value))
  }

  lemma TimeOrIsTime(input: string, now: int, other: Layouts)
    ensures TimeOr(input, now, other).Some? ==> IsTime(TimeOr(input, now, other).value)
  {
    if input == "" {
      assert IsTime(Format(now));
    } else if Normalise(input, other).Some? {
      assert Normalise(input, other) == Some(Format(Instant(input, other).value));
    }
  }

  lemma CreateKeepsTimes(rows: Table, id: Id, d: Details, start: string, now: int, other: Layouts, ok: bool)
    requires TimesOk(rows)
    ensures TimesOk(AfterCreate(rows, id, d, start, now, other, ok))
  {
    TimeOrIsTime(start, now, other);
  }

  lemma EndKeepsTimes(rows: Table, id: Id, end: string, now: int, other: Layouts, ok: bool)
    requires TimesOk(rows)
    ensures TimesOk(AfterEnd(rows, id, end, now, other, ok))
  {
    TimeOrIsTime(end, now, other);
  }

  lemma SweepKeepsTimes(rows: Table, now: int, cutoff: string, ok: bool)
    requires TimesOk(rows)
    ensures TimesOk(AfterSweep(rows, Stamp(now), cutoff, ok))
  {
    assert IsTime(Stamp(now));
  }

  lemma PublishKeepsTimes(rows: Table, id: Id, d: Details, start: string, end: string, now: int, other: Layouts,
                          ok1: bool, ok2: bool)
    requires TimesOk(rows)
    ensures TimesOk(AfterPublish(rows, id, d, start, end, now, other, ok1, ok2))
  {
    CreateKeepsTimes(rows, id, d, start, now, other, ok1);
    EndKeepsTimes(AfterCreate(rows, id, d, start, now, other, ok1), id, end, now, other, ok2);
  }

  lemma StepKeepsTimes(rows: Table, c: Command, other: Layouts)
    requires TimesOk(rows)
    ensures TimesOk(Step(rows, c, other))
  {
    match c
    case Create(id, d, start, now, ok) => CreateKeepsTimes(rows, id, d, start, now, other, ok);
    case Publish(id, d, start, end, now, ok, ok2) => PublishKeepsTimes(rows, id, d, start, end, now, other, ok, ok2);
    case Update(_, _, _) =>
    case End(id, end, now, ok) => EndKeepsTimes(rows, id, end, now, other, ok);
    case Sweep(now, cutoff, ok) => SweepKeepsTimes(rows, now, Stamp(cutoff), ok);
  }

  /** Whatever the callers send, every start and end ever stored is the normal form of an instant, so
      the comparisons above are between instants. */
  lemma {:induction false} StoredTimesAreInstants(commands: seq<Command>, other: Layouts)
    ensures TimesOk(Play(map[], commands, other))
  {
    if commands != [] {
      StoredTimesAreInstants(commands[..|commands| - 1], other);
      StepKeepsTimes(Play(map[], commands[..|commands| - 1], other), commands[|commands| - 1], other);
    }
  }

  // ----- Details and life are independent -----

  /** The later request's fields over the earlier one's. */
  function Overlay(p: Patch, q: Patch): Patch {
    Patch(if q.url.Some? then q.url else p.url, if q.name.Some? then q.name else p.name,
          if q.description.Some? then q.description else p.description, if q.severity.Some? then q.severity else p.severity)
  }

  /** An update never decides whether or when an event ends: it commutes with ends, at whatever time
      and whether supplied or not, and with sweeps. */
  lemma UpdatesCommute(rows: Table, id: Id, p: Patch, ended: Id, given: bool, time: Option<string>,
                       stamp: string, cutoff: string, ok: bool)
    ensures AfterUpdate(AfterEndAt(rows, ended, given, time, ok), id, p, true)
            == AfterEndAt(AfterUpdate(rows, id, p, true), ended, given, time, ok)
    ensures AfterUpdate(AfterSweep(rows, stamp, cutoff, ok), id, p, true)
            == AfterSweep(AfterUpdate(rows, id, p, true), stamp, cutoff, ok)
  {
    UpdateCommutesWithEnd(rows, id, p, ended, given, time, ok);
    UpdateCommutesWithSweep(rows, id, p, stamp, cutoff, ok);
  }

  /** Two updates in a row are one update in which each field's last given value survives. */
  lemma UpdatesCompose(rows: Table, id: Id, p: Patch, q: Patch)
    ensures AfterUpdate(AfterUpdate(rows, id, p, true), id, q, true) == AfterUpdate(rows, id, Overlay(p, q), true)
  {
    if id in rows {
      assert AfterUpdate(AfterUpdate(rows, id, p, true), id, q, true)[id] == AfterUpdate(rows, id, Overlay(p, q), true)[id];
    }
  }

  lemma UpdateCommutesWithEnd(rows: Table, id: Id, p: Patch, ended: Id, given: bool, time: Option<string>, ok: bool)
    ensures AfterUpdate(AfterEndAt(rows, ended, given, time, ok), id, p, true)
            == AfterEndAt(AfterUpdate(rows, id, p, true), ended, given, time, ok)
  {
    var x := AfterUpdate(AfterEndAt(rows, ended, given, time, ok), id, p, true);
    var y := AfterEndAt(AfterUpdate(rows, id, p, true), ended, given, time, ok);
    assert x.Keys == y.Keys;
    assert forall k :: k in x ==> x[k] == y[k];
  }

  lemma UpdateCommutesWithSweep(rows: Table, id: Id, p: Patch, stamp: string, cutoff: string, ok: bool)
    ensures AfterUpdate(AfterSweep(rows, stamp, cutoff, ok), id, p, true)
            == AfterSweep(AfterUpdate(rows, id, p, true), stamp, cutoff, ok)
  {
  }
}
