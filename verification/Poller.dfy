/** The delivery rows after they are inserted (notify/poller.go and the statements of
    db/queries.sql): what one status check does to the table. */
module Poller {
  import opened Common
  import opened FanOut

  /** Delivery ids: opaque names, compared only for equality. */
  type Id = nat

  /** The columns of a delivery row that polling reads or writes. No statement after the insert
      changes the channel or the provider's message id. */
  datatype Row = Row(channel: Channel, status: string, sid: Option<string>, attempts: nat,
                     completedAt: Option<int>, error: Option<string>)

  type Table = map<Id, Row>

  /** What the provider says about one delivery: unreachable or unreadable, or a status, with a
      note when it also reported an error code. */
  datatype Answer =
    | FetchFailed(reason: string)
    | Reported(status: string, note: Option<string>)

  const POLL_FAILED := "poll_failed"
  const MALFORMED := "malformed"
  const NO_SID := "delivery is in-flight but has no twilio_sid; this indicates a bug or direct DB modification"

  /** The statuses the two in-flight queries select. */
  predicate InFlight(channel: Channel, status: string) {
    || (channel.Voice? && (status == "queued" || status == "ringing" || status == "in-progress"))
    || (channel.Sms? && (status == "accepted" || status == "scheduled" || status == "queued"
                         || status == "sending" || status == "sent"))
  }

  /** The provider statuses that end polling. */
  predicate EndsPolling(channel: Channel, status: string) {
    match channel
    case Voice => status == "completed" || status == "failed" || status == "busy" || status == "no-answer" || status == "canceled"
    case Sms => status == "delivered" || status == "undelivered" || status == "failed"
    case _ => false
  }

  predicate Flying(row: Row) {
    InFlight(row.channel, row.status)
  }

  /** Neither in flight nor waiting for the startup re-check. */
  predicate Settled(row: Row) {
    !Flying(row) && row.status != POLL_FAILED
  }

  predicate HasSid(row: Row) {
    row.sid.Some? && row.sid.value != ""
  }

  // ----- The statements -----

  function SetStatus(rows: Table, id: Id, status: string, now: int, error: Option<string>): Table {
    if id in rows then rows[id := rows[id].(status := status, completedAt := Some(now), error := error)] else rows
  }

  function Bump(rows: Table, id: Id): Table {
    if id in rows then rows[id := rows[id].(attempts := rows[id].attempts + 1)] else rows
  }

  function ResetFailed(rows: Table): (r: Table)
    ensures r.Keys == rows.Keys
  {
    map id | id in rows :: if rows[id].status == POLL_FAILED then rows[id].(attempts := 0) else rows[id]
  }

  /** The first statement of checking row d, if it executes. */
  function Visit(rows: Table, id: Id, d: Row, answer: Answer, now: int): Table {
    if !HasSid(d) then SetStatus(rows, id, MALFORMED, now, Some(NO_SID))
    else match answer
         case FetchFailed(_) => Bump(rows, id)
         case Reported(status, note) =>
           if EndsPolling(d.channel, status) then SetStatus(rows, id, status, now, note) else rows
  }

  /** Whether that statement was a counted failure, after which the budget is examined. */
  predicate CountsFailure(d: Row, answer: Answer) {
    HasSid(d) && answer.FetchFailed?
  }

  predicate OverBudget(limit: int, row: Row) {
    limit > 0 && row.attempts >= limit
  }

  /** A whole check, run without interruption: first statement, then the give-up mark if the
      budget is used up. `ok1` and `ok2` say whether the two statements execute. */
  function Checked(limit: int, rows: Table, id: Id, d: Row, answer: Answer, ok1: bool, ok2: bool, now: int): Table {
    if !ok1 then rows
    else
      var after := Visit(rows, id, d, answer, now);
      if CountsFailure(d, answer) && id in after && OverBudget(limit, after[id]) && ok2
      then SetStatus(after, id, POLL_FAILED, now, Some(answer.reason)) else after
  }

  /** The table and the poller methods that change it in place. */
  class Deliveries {
    var rows: Table
    const limit: int

    constructor (rows: Table, limit: int)
      ensures this.rows == rows && this.limit == limit
    {
      this.rows := rows;
      this.limit := limit;
    }

    method UpdateDeliveryStatus(id: Id, status: string, now: int, error: Option<string>, ok: bool)
      modifies this`rows
      ensures rows == if ok then SetStatus(old(rows), id, status, now, error) else old(rows)
    {
      if ok && id in rows {
        rows := rows[id := rows[id].(status := status, completedAt := Some(now), error := error)];
      }
    }

    method IncrementPollAttempts(id: Id, ok: bool) returns (updated: Option<Row>)
      modifies this`rows
      ensures rows == if ok then Bump(old(rows), id) else old(rows)
      ensures updated == if ok && id in rows then Some(rows[id]) else None
    {
      if !ok || id !in rows {
        return None;
      }
      rows := rows[id := rows[id].(attempts := rows[id].attempts + 1)];
      updated := Some(rows[id]);
    }

    method RecordPollFailure(id: Id, reason: string, ok1: bool, ok2: bool, now: int)
      modifies this`rows
      ensures rows == if !ok1 then old(rows)
                      else if id in old(rows) && OverBudget(limit, Bump(old(rows), id)[id]) && ok2
                      then SetStatus(Bump(old(rows), id), id, POLL_FAILED, now, Some(reason))
                      else Bump(old(rows), id)
    {
      var updated := IncrementPollAttempts(id, ok1);
      if updated.None? {
        return;
      }
      if limit <= 0 || updated.value.attempts < limit {
        return;
      }
      UpdateDeliveryStatus(id, POLL_FAILED, now, Some(reason), ok2);
    }

    method CheckDelivery(id: Id, d: Row, answer: Answer, ok1: bool, ok2: bool, now: int)
      modifies this`rows
      ensures rows == Checked(limit, old(rows), id, d, answer, ok1, ok2, now)
    {
      if d.sid.None? || d.sid.value == "" {
        UpdateDeliveryStatus(id, MALFORMED, now, Some(NO_SID), ok1);
        return;
      }
      match answer {
        case FetchFailed(reason) =>
          RecordPollFailure(id, reason, ok1, ok2, now);
        case Reported(status, note) =>
          var terminal := MapTwilioStatus(d.channel, status);
          if !terminal {
            return;
          }
          UpdateDeliveryStatus(id, status, now, note, ok1);
      }
    }

    /** The loop of pollPending and RunPollFailed over the rows they listed, left undisturbed. */
    method CheckAll(listed: seq<(Id, Row)>, answers: nat -> Answer, ok: (nat, bool) -> bool, clock: nat -> int)
      modifies this`rows
      ensures rows == CheckedAll(limit, old(rows), listed, answers, ok, clock, |listed|)
    {
      for i := 0 to |listed|
        invariant rows == CheckedAll(limit, old(rows), listed, answers, ok, clock, i)
      {
        CheckDelivery(listed[i].0, listed[i].1, answers(i), ok(i, false), ok(i, true), clock(i));
      }
    }
  }

  method MapTwilioStatus(channel: Channel, status: string) returns (terminal: bool)
    ensures terminal <==> EndsPolling(channel, status)
  {
    match channel {
      case Voice =>
        terminal := status in ["completed", "failed", "busy", "no-answer", "canceled"];
      case Sms =>
        terminal := status in ["delivered", "undelivered", "failed"];
      case _ =>
        terminal := false;
    }
  }

  function CheckedAll(limit: int, rows: Table, listed: seq<(Id, Row)>, answers: nat -> Answer,
                      ok: (nat, bool) -> bool, clock: nat -> int, upto: nat): Table
    requires upto <= |listed|
  {
    if upto == 0 then rows
    else
      var i := upto - 1;
      Checked(limit, CheckedAll(limit, rows, listed, answers, ok, clock, i), listed[i].0, listed[i].1,
              answers(i), ok(i, false), ok(i, true), clock(i))
  }

  /** A check, whatever its answer and whichever of its statements fail, changes no row but its own,
      and of that neither the channel nor the message id; what it makes of it depends on it alone. */
  lemma CheckTouchesOneRow(limit: int, rows: Table, other: Table, id: Id, d: Row, answer: Answer, ok1: bool, ok2: bool, now: int)
    requires id in rows && id in other && other[id] == rows[id]
    ensures var after := Checked(limit, rows, id, d, answer, ok1, ok2, now);
            && after.Keys == rows.Keys && (forall x :: x in rows && x != id ==> after[x] == rows[x])
            && after[id].channel == rows[id].channel && after[id].sid == rows[id].sid
            && Checked(limit, other, id, d, answer, ok1, ok2, now)[id] == after[id]
  {
  }

  /** The list names rows of the table, each once and as they are. */
  ghost predicate Snapshot(rows: Table, listed: seq<(Id, Row)>) {
    && (forall i, j :: 0 <= i < j < |listed| ==> listed[i].0 != listed[j].0)
    && (forall i :: 0 <= i < |listed| ==> listed[i].0 in rows && rows[listed[i].0] == listed[i].1)
  }

  /** A whole pass over a snapshot decides each listed row exactly once, by its own answer alone and
      whatever happens to the others, and leaves every other row as it was. */
  lemma {:induction false} PassDecidesEachRow(limit: int, rows: Table, listed: seq<(Id, Row)>, answers: nat -> Answer,
                                              ok: (nat, bool) -> bool, clock: nat -> int, upto: nat)
    requires upto <= |listed| && Snapshot(rows, listed)
    ensures var after := CheckedAll(limit, rows, listed, answers, ok, clock, upto);
            && after.Keys == rows.Keys
            && (forall id :: id in rows && (forall i :: 0 <= i < upto ==> listed[i].0 != id) ==> after[id] == rows[id])
            && (forall i :: 0 <= i < upto ==>
                  after[listed[i].0] == Checked(limit, rows, listed[i].0, listed[i].1, answers(i), ok(i, false), ok(i, true), clock(i))[listed[i].0])
  {
    if upto > 0 {
      var n := upto - 1;
      PassDecidesEachRow(limit, rows, listed, answers, ok, clock, n);
      var before := CheckedAll(limit, rows, listed, answers, ok, clock, n);
      CheckTouchesOneRow(limit, before, rows, listed[n].0, listed[n].1, answers(n), ok(n, false), ok(n, true), clock(n));
    }
  }

  /** What one check makes of its row, answer by answer, when its statements execute. */
  lemma CheckDecides(limit: int, rows: Table, id: Id, d: Row, answer: Answer, now: int)
    requires id in rows
    ensures var before, after := rows[id], Checked(limit, rows, id, d, answer, true, true, now)[id];
            && (d.sid == None || d.sid == Some("") ==>
                  after == Row(before.channel, "malformed", before.sid, before.attempts, Some(now), Some(NO_SID)))
            && (d.sid != None && d.sid != Some("") ==>
                  match answer
                  case Reported(status, note) =>
                    after == if EndsPolling(d.channel, status)
                             then Row(before.channel, status, before.sid, before.attempts, Some(now), note) else before
                  case FetchFailed(reason) =>
                    after == if 0 < limit <= before.attempts + 1
                             then Row(before.channel, "poll_failed", before.sid, before.attempts + 1, Some(now), Some(reason))
                             else Row(before.channel, before.status, before.sid, before.attempts + 1, before.completedAt, before.error))
  {
  }

  /** What a failed statement leaves of it: nothing happens, or only the count. */
  lemma FailedCheckKeeps(limit: int, rows: Table, id: Id, d: Row, answer: Answer, ok2: bool, now: int)
    requires id in rows
    ensures Checked(limit, rows, id, d, answer, false, ok2, now) == rows
    ensures HasSid(d) && answer.FetchFailed? ==>
              Checked(limit, rows, id, d, answer, true, false, now)[id] == rows[id].(attempts := rows[id].attempts + 1)
    ensures !HasSid(d) || answer.Reported? ==>
              Checked(limit, rows, id, d, answer, true, false, now) == Checked(limit, rows, id, d, answer, true, true, now)
  {
  }

  const VOICE_WAITING := {"queued", "ringing", "in-progress"}
  const VOICE_FINAL := {"completed", "failed", "busy", "no-answer", "canceled"}
  const SMS_WAITING := {"accepted", "scheduled", "queued", "sending", "sent"}
  const SMS_FINAL := {"delivered", "undelivered", "failed"}

  /** The provider's vocabulary: which statuses of a call and of a text message are polled again, and
      which end polling; those of other deliveries neither. */
  lemma Vocabulary(status: string)
    ensures InFlight(Voice, status) <==> status in VOICE_WAITING
    ensures EndsPolling(Voice, status) <==> status in VOICE_FINAL
    ensures InFlight(Sms, status) <==> status in SMS_WAITING
    ensures EndsPolling(Sms, status) <==> status in SMS_FINAL
    ensures forall c: Channel :: c != Voice && c != Sms ==> !InFlight(c, status) && !EndsPolling(c, status)
    ensures VOICE_WAITING !! VOICE_FINAL && SMS_WAITING !! SMS_FINAL
  {
    assert forall s :: s in VOICE_WAITING ==> !EndsPolling(Voice, s);
    assert forall s :: s in SMS_WAITING ==> !EndsPolling(Sms, s);
  }

  /** The two vocabularies do not overlap: a status that ends polling, and the two statuses the
      poller itself invents, are never selected by the in-flight queries. */
  lemma EndsPollingIsNotInFlight(channel: Channel, other: Channel, status: string)
    ensures EndsPolling(channel, status) ==> !InFlight(other, status) && status != POLL_FAILED && status != MALFORMED
    ensures !InFlight(other, POLL_FAILED) && !InFlight(other, MALFORMED) && POLL_FAILED != MALFORMED
  {
  }
}
