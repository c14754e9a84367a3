/** The retry loop every SMS and voice delivery runs (notify/dispatcher.go), with the provider
    and the cancellation signal as arbitrary oracles and Go's 64-bit delay arithmetic spelled out. */
module Retry {
  import opened Common

  /** What one provider call returns: a message id and status, or an error. */
  datatype Answer =
    | Sent(sid: string, status: string)
    | Refused(sid: string, error: string)

  /** The columns of the delivery row that the loop decides. */
  datatype Outcome = Outcome(status: string, attempt: nat, sid: string, error: Option<string>)

  const TWO63: int := 0x8000_0000_0000_0000
  const TWO64: int := 0x1_0000_0000_0000_0000

  /** The value a signed 64-bit register holds for the mathematical integer x. */
  function Wrap64(x: int): (r: int)
    ensures -TWO63 <= r < TWO63
    ensures -TWO63 <= x < TWO63 ==> r == x
  {
    (x + TWO63) % TWO64 - TWO63
  }

  /** The wait before attempt n + 1 (n >= 1), as computed on signed 64-bit nanoseconds. */
  function Delay(retryDelay: int, n: nat): int
    requires n >= 1
  {
    Wrap64(retryDelay * Wrap64(Pow2(n - 1)))
  }

  /** What a loop that made exactly these calls writes to the row. */
  function OutcomeOf(calls: seq<Answer>): Outcome {
    if calls == [] then Outcome("", 0, "", None)
    else match calls[|calls| - 1]
         case Sent(sid, status) => Outcome(status, |calls|, sid, None)
         case Refused(sid, error) => Outcome("failed", |calls|, sid, Some(error))
  }

  /** A call history of the loop: only the last call may have succeeded. */
  ghost predicate LegalCalls(calls: seq<Answer>, limit: int) {
    && (|calls| <= limit || calls == [])
    && forall i :: 0 <= i < |calls| - 1 ==> calls[i].Refused?
  }

  /** A history after which the loop makes no further call. */
  ghost predicate Finished(calls: seq<Answer>, limit: int) {
    LegalCalls(calls, limit) && (|calls| >= limit || (calls != [] && calls[|calls| - 1].Sent?))
  }

  /** What the loop still does after these failed calls: all its calls, and the row unless cancelled. */
  function Attempts(limit: int, provider: nat -> Answer, cancel: nat -> bool, calls: seq<Answer>): (seq<Answer>, Option<Outcome>)
    decreases limit - |calls|
  {
    if |calls| >= limit then (calls, Some(OutcomeOf(calls)))
    else if calls != [] && cancel(|calls|) then (calls, None)
    else
      var more := calls + [provider(|calls|)];
      if provider(|calls|).Sent? then (more, Some(OutcomeOf(more))) else Attempts(limit, provider, cancel, more)
  }

  /** Failed calls after which the loop goes on. */
  ghost predicate Ongoing(limit: int, provider: nat -> Answer, cancel: nat -> bool, calls: seq<Answer>) {
    && (|calls| <= limit || calls == [])
    && (forall i :: 0 <= i < |calls| ==> calls[i] == provider(i) && calls[i].Refused?)
    && (forall i :: 1 <= i < |calls| ==> !cancel(i))
  }

  lemma {:induction false} AttemptsFacts(limit: int, provider: nat -> Answer, cancel: nat -> bool, calls: seq<Answer>)
    requires Ongoing(limit, provider, cancel, calls)
    ensures var (all, row) := Attempts(limit, provider, cancel, calls);
            && |calls| <= |all| && LegalCalls(all, limit) && (1 <= limit ==> 1 <= |all| <= limit)
            && (forall i :: 0 <= i < |all| ==> all[i] == provider(i))
            && (row.Some? ==> Finished(all, limit) && row.value == OutcomeOf(all))
            && (row.None? <==> 0 < |all| < limit && all[|all| - 1].Refused? && cancel(|all|))
    decreases limit - |calls|
  {
    if |calls| < limit && !(calls != [] && cancel(|calls|)) && provider(|calls|).Refused? {
      AttemptsFacts(limit, provider, cancel, calls + [provider(|calls|)]);
    }
  }

  /** Call k is the first to succeed, and no wait before it is cancelled. */
  ghost predicate SucceedsFirstAt(limit: int, provider: nat -> Answer, cancel: nat -> bool, k: nat) {
    k < limit && provider(k).Sent? && (forall i :: 0 <= i < k ==> provider(i).Refused?) && (forall i :: 1 <= i <= k ==> !cancel(i))
  }

  /** Every call the limit allows fails, and no wait is cancelled. */
  ghost predicate FailsThroughout(limit: int, provider: nat -> Answer, cancel: nat -> bool) {
    1 <= limit && (forall i :: 0 <= i < limit ==> provider(i).Refused?) && (forall i :: 1 <= i < limit ==> !cancel(i))
  }

  /** Left alone, the loop reports the first success ... */
  lemma FirstSuccess(limit: int, provider: nat -> Answer, cancel: nat -> bool, k: nat)
    requires SucceedsFirstAt(limit, provider, cancel, k)
    ensures Attempts(limit, provider, cancel, []).1 == Some(Outcome(provider(k).status, k + 1, provider(k).sid, None))
  {
    AttemptsFacts(limit, provider, cancel, []);
    var all := Attempts(limit, provider, cancel, []).0;
    assert k < |all| ==> all[k].Sent?;
  }

  /** ... or else the last failure. */
  lemma AllFailures(limit: int, provider: nat -> Answer, cancel: nat -> bool)
    requires FailsThroughout(limit, provider, cancel)
    ensures Attempts(limit, provider, cancel, []).1
            == Some(Outcome("failed", limit, provider(limit - 1).sid, Some(provider(limit - 1).error)))
  {
    AttemptsFacts(limit, provider, cancel, []);
    var all := Attempts(limit, provider, cancel, []).0;
    assert provider(|all| - 1).Refused?;
  }

  /** The loop itself: the calls and the row of Attempts, and the waits. */
  method RunLoop(limit: int, retryDelay: int, provider: nat -> Answer, cancel: nat -> bool)
    returns (calls: seq<Answer>, waits: seq<int>, row: Option<Outcome>)
    ensures (calls, row) == Attempts(limit, provider, cancel, [])
    ensures forall i :: 0 <= i < |waits| ==> waits[i] == Delay(retryDelay, i + 1)
    ensures row.Some? && 1 <= limit ==> |waits| == |calls| - 1
  {
    calls, waits := [], [];
    var sid, status := "", "";
    var lastErr: Option<string> := None;
    var finalAttempt := 0;
    var n := 0;
    while n < limit
      invariant 0 <= n && (n <= limit || n == 0)
      invariant |calls| == n == finalAttempt
      invariant Attempts(limit, provider, cancel, []) == Attempts(limit, provider, cancel, calls)
      invariant |waits| == if n == 0 then 0 else n - 1
      invariant forall i :: 0 <= i < |waits| ==> waits[i] == Delay(retryDelay, i + 1)
      invariant n == 0 ==> sid == "" && status == "" && lastErr == None
      invariant n > 0 ==> calls[n - 1].Refused? && sid == calls[n - 1].sid && lastErr == Some(calls[n - 1].error)
    {
      if n > 0 {
        waits := waits + [Delay(retryDelay, n)];
        if cancel(n) {
          return calls, waits, None;
        }
      }
      finalAttempt := n + 1;
      var answer := provider(n);
      calls := calls + [answer];
      sid := answer.sid;
      match answer {
        case Sent(_, st) =>
          status, lastErr := st, None;
          break;
        case Refused(_, e) =>
          status, lastErr := "", Some(e);
      }
      n := n + 1;
    }
    if lastErr.Some? {
      status := "failed";
    }
    row := Some(Outcome(status, finalAttempt, sid, lastErr));
  }

  /** One delivery: call the provider until it accepts or the limit is reached, waiting in
      between; cancellation during a wait gives up without writing a row. With no attempts allowed, a
      row with an empty status and attempt 0 is still written. */
  method Deliver(limit: int, retryDelay: int, provider: nat -> Answer, cancel: nat -> bool)
    returns (calls: seq<Answer>, waits: seq<int>, row: Option<Outcome>)
    ensures (calls, row) == Attempts(limit, provider, cancel, [])
    ensures forall i :: 0 <= i < |calls| ==> calls[i] == provider(i)
    ensures LegalCalls(calls, limit) && (1 <= limit ==> 1 <= |calls| <= limit)
    ensures row.Some? ==> Finished(calls, limit) && row.value == OutcomeOf(calls) && row.value.attempt == |calls|
    ensures row.None? <==> 0 < |calls| < limit && calls[|calls| - 1].Refused? && cancel(|calls|)
    ensures forall k: nat :: SucceedsFirstAt(limit, provider, cancel, k)
              ==> row == Some(Outcome(provider(k).status, k + 1, provider(k).sid, None))
    ensures FailsThroughout(limit, provider, cancel) ==>
              row == Some(Outcome("failed", limit, provider(limit - 1).sid, Some(provider(limit - 1).error)))
    ensures limit <= 0 ==> row == Some(Outcome("", 0, "", None))
    ensures forall i :: 0 <= i < |waits| ==> waits[i] == Delay(retryDelay, i + 1)
    ensures row.Some? && 1 <= limit ==> |waits| == |calls| - 1
  {
    calls, waits, row := RunLoop(limit, retryDelay, provider, cancel);
    AttemptsFacts(limit, provider, cancel, []);
    forall k: nat | SucceedsFirstAt(limit, provider, cancel, k)
      ensures row == Some(Outcome(provider(k).status, k + 1, provider(k).sid, None))
    {
      FirstSuccess(limit, provider, cancel, k);
    }
    if FailsThroughout(limit, provider, cancel) {
      AllFailures(limit, provider, cancel);
    }
  }

  /** The waits before attempt k, added up, with no wrap-around taken into account. */
  function TotalBackoff(retryDelay: int, k: nat): int
    requires k >= 1
  {
    if k == 1 then 0 else TotalBackoff(retryDelay, k - 1) + retryDelay * Pow2(k - 2)
  }

  /** Waiting doubles, so attempt k starts RetryDelay * (2^(k-1) - 1) after the first. */
  lemma {:induction false} TotalBackoffClosedForm(retryDelay: int, k: nat)
    requires k >= 1
    ensures TotalBackoff(retryDelay, k) == retryDelay * (Pow2(k - 1) - 1)
  {
    if k > 1 {
      TotalBackoffClosedForm(retryDelay, k - 1);
      var p := Pow2(k - 2);
      assert Pow2(k - 1) == 2 * p;
      assert retryDelay * (2 * p - 1) == retryDelay * (p - 1) + retryDelay * p;
    }
  }

  function TimeWaited(waits: seq<int>): int {
    if waits == [] then 0 else TimeWaited(waits[..|waits| - 1]) + waits[|waits| - 1]
  }

  /** The waits of a loop add up to that, if the longest fits its register. */
  lemma WaitsAddUp(retryDelay: int, waits: seq<int>)
    requires forall i :: 0 <= i < |waits| ==> waits[i] == Delay(retryDelay, i + 1)
    requires waits != [] ==> Fits64(retryDelay * Pow2(|waits| - 1))
    ensures TimeWaited(waits) == retryDelay * (Pow2(|waits|) - 1)
  {
    WaitsAreTheBackoff(retryDelay, waits);
    TotalBackoffClosedForm(retryDelay, |waits| + 1);
  }

  lemma {:induction false} WaitsAreTheBackoff(retryDelay: int, waits: seq<int>)
    requires forall i :: 0 <= i < |waits| ==> waits[i] == Delay(retryDelay, i + 1)
    requires waits != [] ==> Fits64(retryDelay * Pow2(|waits| - 1))
    ensures TimeWaited(waits) == TotalBackoff(retryDelay, |waits| + 1)
  {
    if waits != [] {
      var n := |waits| - 1;
      ShorterWaitFits(retryDelay, n);
      WaitsAreTheBackoff(retryDelay, waits[..n]);
      DelayIsWrappedProduct(retryDelay, n + 1);
    }
  }

  lemma ShorterWaitFits(retryDelay: int, n: nat)
    requires Fits64(retryDelay * Pow2(n))
    ensures n > 0 ==> Fits64(retryDelay * Pow2(n - 1))
  {
    if n > 0 {
      ShorterFits(retryDelay, Pow2(n - 1), Pow2(n));
    }
  }

  lemma ProductMonotone(d: nat, a: nat, b: nat)
    requires a <= b
    ensures d * a <= d * b
  {
    assert d * b == d * a + d * (b - a);
  }

  predicate Fits64(x: int) {
    -TWO63 <= x < TWO63
  }

  lemma WrapDropsMultiples(x: int, k: int)
    ensures Wrap64(x - k * TWO64) == Wrap64(x)
  {
  }

  /** The register holds the product modulo 2^64 although the power may have wrapped before. */
  lemma DelayIsWrappedProduct(retryDelay: int, n: nat)
    requires n >= 1
    ensures Delay(retryDelay, n) == Wrap64(retryDelay * Pow2(n - 1))
  {
    var p := Pow2(n - 1);
    var k := (p + TWO63) / TWO64;
    assert Wrap64(p) == p - k * TWO64;
    assert retryDelay * (p - k * TWO64) == retryDelay * p - (retryDelay * k) * TWO64;
    WrapDropsMultiples(retryDelay * p, retryDelay * k);
  }

  /** If the longest delay fits, so do the shorter ones, also for a negative setting. */
  lemma ShorterFits(retryDelay: int, a: nat, b: nat)
    requires a <= b && Fits64(retryDelay * b)
    ensures Fits64(retryDelay * a)
  {
    if retryDelay >= 0 {
      ProductMonotone(retryDelay, a, b);
    } else {
      ProductMonotone(-retryDelay, a, b);
      assert retryDelay * a == -(-retryDelay * a) && retryDelay * b == -(-retryDelay * b);
    }
  }

  /** No delay of a run wraps exactly when there is none or the longest one fits in 64 signed bits. */
  lemma DelaysFitIff(retryDelay: int, limit: int)
    ensures (forall n :: 1 <= n < limit ==> Delay(retryDelay, n) == retryDelay * Pow2(n - 1))
       <==> limit < 2 || Fits64(retryDelay * Pow2(limit - 2))
  {
    if limit >= 2 {
      if Fits64(retryDelay * Pow2(limit - 2)) {
        forall n | 1 <= n < limit ensures Delay(retryDelay, n) == retryDelay * Pow2(n - 1) {
          Pow2Monotone(n - 1, limit - 2);
          ShorterFits(retryDelay, Pow2(n - 1), Pow2(limit - 2));
          DelayIsWrappedProduct(retryDelay, n);
        }
      } else {
        assert Fits64(Delay(retryDelay, limit - 1));
      }
    }
  }
}
