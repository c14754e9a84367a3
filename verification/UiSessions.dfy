/** Browser sessions (api/ui_session.go): a sliding expiry in memory, and a background sweep that no
    caller can notice. Clock readings are in nanoseconds. */
module UiSessions {
  import opened Common

  /** Session tokens: opaque names, compared only for equality. */
  type Token = nat

  datatype Record = Record(user: string, expiresAt: int)

  type Store = map<Token, Record>

  const UI_SESSION_TTL: int := 8 * 3600 * 1_000_000_000

  /** One critical section with its clock readings: `get` reads the clock twice; a sweep reads it
      before taking the lock, so its reading may lag behind the moment it runs. */
  datatype Op =
    | Create(token: Token, user: string, at: int)
    | Get(token: Token, at: int, touchAt: int)
    | Delete(token: Token, at: int)
    | Sweep(reading: int, at: int)

  // ----- The store -----

  predicate Expired(now: int, r: Record) {
    now > r.expiresAt
  }

  function Swept(store: Store, reading: int): Store {
    map t | t in store && !Expired(reading, store[t]) :: store[t]
  }

  /** What one operation leaves, and its answer: only lookups answer, with a user or with none. */
  function StoreStep(store: Store, op: Op): (Store, Option<Option<string>>) {
    match op
    case Create(token, user, at) => (store[token := Record(user, at + UI_SESSION_TTL)], None)
    case Get(token, at, touchAt) =>
      if token !in store then (store, Some(None))
      else if Expired(at, store[token]) then (store - {token}, Some(None))
      else (store[token := store[token].(expiresAt := touchAt + UI_SESSION_TTL)], Some(Some(store[token].user)))
    case Delete(token, _) => (store - {token}, None)
    case Sweep(reading, _) => (Swept(store, reading), None)
  }

  class SessionStore {
    var sessions: Store

    constructor ()
      ensures sessions == map[]
    {
      sessions := map[];
    }

    method CreateSession(token: Token, user: string, at: int)
      modifies this
      ensures sessions == StoreStep(old(sessions), Create(token, user, at)).0
    {
      sessions := sessions[token := Record(user, at + UI_SESSION_TTL)];
    }

    method GetUser(token: Token, at: int, touchAt: int) returns (user: Option<string>)
      modifies this
      ensures (sessions, Some(user)) == StoreStep(old(sessions), Get(token, at, touchAt))
    {
      if token !in sessions {
        return None;
      }
      var sess := sessions[token];
      if at > sess.expiresAt {
        sessions := sessions - {token};
        return None;
      }
      sessions := sessions[token := sess.(expiresAt := touchAt + UI_SESSION_TTL)];
      user := Some(sess.user);
    }

    method DeleteSession(token: Token)
      modifies this
      ensures sessions == old(sessions) - {token}
    {
      sessions := sessions - {token};
    }

    /** The sweep's loop over the stored tokens, in any order. */
    method SweepExpired(reading: int)
      modifies this
      ensures sessions == Swept(old(sessions), reading)
      ensures forall t :: t in sessions <==> t in old(sessions) && reading <= old(sessions)[t].expiresAt
      ensures forall t :: t in sessions ==> sessions[t] == old(sessions)[t]
    {
      var tokens := sessions.Keys;
      ghost var was := sessions;
      while tokens != {}
        invariant tokens <= was.Keys
        invariant forall t :: t in sessions <==> t in was && (t in tokens || !Expired(reading, was[t]))
        invariant forall t :: t in sessions ==> sessions[t] == was[t]
        invariant forall t :: t in tokens ==> t in sessions
        decreases |tokens|
      {
        var token :| token in tokens;
        tokens := tokens - {token};
        if reading > sessions[token].expiresAt {
          sessions := sessions - {token};
        }
      }
    }
  }

  // ----- The reference: who last touched a session, and nothing ever expires out of it -----

  datatype Touch = Touch(user: string, last: int)

  type Reference = map<Token, Touch>

  function RefStep(r: Reference, op: Op): (Reference, Option<Option<string>>) {
    match op
    case Create(token, user, at) => (r[token := Touch(user, at)], None)
    case Get(token, at, touchAt) =>
      if token !in r || at > r[token].last + UI_SESSION_TTL then (r, Some(None))
      else (r[token := r[token].(last := touchAt)], Some(Some(r[token].user)))
    case Delete(token, _) => (r - {token}, None)
    case Sweep(_, _) => (r, None)
  }

  /** The lookups' answers along a run. */
  function StoreAnswers(store: Store, ops: seq<Op>): seq<Option<string>>
    decreases |ops|
  {
    if ops == [] then []
    else
      var (next, answer) := StoreStep(store, ops[0]);
      (if answer.Some? then [answer.value] else []) + StoreAnswers(next, ops[1..])
  }

  function RefAnswers(r: Reference, ops: seq<Op>): seq<Option<string>>
    decreases |ops|
  {
    if ops == [] then []
    else
      var (next, answer) := RefStep(r, ops[0]);
      (if answer.Some? then [answer.value] else []) + RefAnswers(next, ops[1..])
  }

  function WithoutSweeps(ops: seq<Op>): seq<Op> {
    if ops == [] then [] else (if ops[0].Sweep? then [] else [ops[0]]) + WithoutSweeps(ops[1..])
  }

  /** Clocks do not run backwards along the run. */
  predicate Timed(clock: int, ops: seq<Op>)
    decreases |ops|
  {
    ops == [] ||
    var op := ops[0];
    && clock <= op.at
    && (op.Get? ==> op.at <= op.touchAt)
    && (op.Sweep? ==> op.reading <= op.at)
    && Timed(if op.Get? then op.touchAt else op.at, ops[1..])
  }

  function After(op: Op): int {
    if op.Get? then op.touchAt else op.at
  }

  /** The store holds the reference's sessions, except some that are already past their time. */
  ghost predicate Agrees(store: Store, r: Reference, clock: int) {
    && (forall t :: t in store ==> t in r && store[t] == Record(r[t].user, r[t].last + UI_SESSION_TTL))
    && (forall t :: t in r && t !in store ==> clock > r[t].last + UI_SESSION_TTL)
  }

  lemma StepAgrees(store: Store, r: Reference, clock: int, op: Op)
    requires Agrees(store, r, clock) && clock <= op.at
    requires (op.Get? ==> op.at <= op.touchAt) && (op.Sweep? ==> op.reading <= op.at)
    ensures StoreStep(store, op).1 == RefStep(r, op).1
    ensures Agrees(StoreStep(store, op).0, RefStep(r, op).0, After(op))
  {
  }

  lemma {:induction false} RunsAgree(store: Store, r: Reference, clock: int, ops: seq<Op>)
    requires Agrees(store, r, clock) && Timed(clock, ops)
    ensures StoreAnswers(store, ops) == RefAnswers(r, ops)
    decreases |ops|
  {
    if ops != [] {
      StepAgrees(store, r, clock, ops[0]);
      RunsAgree(StoreStep(store, ops[0]).0, RefStep(r, ops[0]).0, After(ops[0]), ops[1..]);
    }
  }

  lemma {:induction false} ReferenceIgnoresSweeps(r: Reference, ops: seq<Op>)
    ensures RefAnswers(r, ops) == RefAnswers(r, WithoutSweeps(ops))
    decreases |ops|
  {
    if ops != [] {
      ReferenceIgnoresSweeps(RefStep(r, ops[0]).0, ops[1..]);
      if ops[0].Sweep? {
        assert WithoutSweeps(ops) == WithoutSweeps(ops[1..]);
        assert RefAnswers(r, ops) == RefAnswers(r, ops[1..]);
      } else {
        assert WithoutSweeps(ops)[0] == ops[0] && WithoutSweeps(ops)[1..] == WithoutSweeps(ops[1..]);
      }
    }
  }

  /** Sweep transparency: whatever sweeps run wherever, every lookup answers as a table that never
      forgets a touch would answer on the same run without any sweep. */
  lemma SweepsAreInvisible(ops: seq<Op>, clock: int)
    requires Timed(clock, ops)
    ensures StoreAnswers(map[], ops) == RefAnswers(map[], WithoutSweeps(ops))
  {
    RunsAgree(map[], map[], clock, ops);
    ReferenceIgnoresSweeps(map[], ops);
  }

  /** So two runs that differ only in their sweeps give the same answers. */
  lemma SweepPlacementIsIrrelevant(ops1: seq<Op>, clock1: int, ops2: seq<Op>, clock2: int)
    requires Timed(clock1, ops1) && Timed(clock2, ops2) && WithoutSweeps(ops1) == WithoutSweeps(ops2)
    ensures StoreAnswers(map[], ops1) == StoreAnswers(map[], ops2)
  {
    SweepsAreInvisible(ops1, clock1);
    SweepsAreInvisible(ops2, clock2);
  }

  // ----- Logging in and out, over whole runs -----

  predicate Touches(op: Op, token: Token) {
    (op.Create? || op.Get? || op.Delete?) && op.token == token
  }

  function StoreAfter(store: Store, ops: seq<Op>): Store
    decreases |ops|
  {
    if ops == [] then store else StoreAfter(StoreStep(store, ops[0]).0, ops[1..])
  }

  /** Once deleted, a session stays gone: whatever runs afterwards, as long as its token is not issued
      again, it is not stored and every lookup of it answers none. */
  lemma {:induction false} LogoutIsFinal(store: Store, at: int, token: Token, ops: seq<Op>, n: nat)
    requires n <= |ops| && forall op :: op in ops ==> !(op.Create? && op.token == token)
    ensures token !in StoreAfter(StoreStep(store, Delete(token, at)).0, ops[..n])
    ensures n < |ops| && ops[n].Get? && ops[n].token == token ==>
              StoreStep(StoreAfter(StoreStep(store, Delete(token, at)).0, ops[..n]), ops[n]).1 == Some(None)
    decreases n
  {
    StaysAbsent(store - {token}, token, ops[..n]);
  }

  lemma {:induction false} StaysAbsent(store: Store, token: Token, ops: seq<Op>)
    requires token !in store && forall op :: op in ops ==> !(op.Create? && op.token == token)
    ensures token !in StoreAfter(store, ops)
    decreases |ops|
  {
    if ops != [] {
      StaysAbsent(StoreStep(store, ops[0]).0, token, ops[1..]);
    }
  }

  lemma {:induction false} UntouchedStays(store: Store, token: Token, clock: int, ops: seq<Op>, until: int)
    requires token in store && until <= store[token].expiresAt && Timed(clock, ops)
    requires forall op :: op in ops ==> !Touches(op, token) && After(op) <= until
    ensures token in StoreAfter(store, ops) && StoreAfter(store, ops)[token] == store[token]
    decreases |ops|
  {
    if ops != [] {
      assert ops[0] in ops && !Touches(ops[0], token);
      UntouchedStays(StoreStep(store, ops[0]).0, token, After(ops[0]), ops[1..], until);
    }
  }

  const EIGHT_HOURS: int := 28_800_000_000_000

  /** A session stored until a moment, and untouched since, answers up to that moment and not after it,
      whatever else runs in between. */
  lemma LivesUntil(store: Store, token: Token, clock: int, ops: seq<Op>, lookup: int, touchAt: int)
    requires token in store && clock <= lookup
    requires Timed(clock, ops) && forall op :: op in ops ==> !Touches(op, token) && After(op) <= lookup
    ensures StoreStep(StoreAfter(store, ops), Get(token, lookup, touchAt)).1
            == Some(if lookup <= store[token].expiresAt then Some(store[token].user) else None)
  {
    if lookup <= store[token].expiresAt {
      UntouchedStays(store, token, clock, ops, lookup);
    } else {
      AbsentOrUnchanged(store, token, ops);
    }
  }

  /** A session just created answers its user to a first lookup within eight hours, whatever else runs
      in between (other sessions' requests and any sweeps), and not after that. */
  lemma LoginLasts(store: Store, token: Token, user: string, at: int, ops: seq<Op>, lookup: int, touchAt: int)
    requires Timed(at, ops) && forall op :: op in ops ==> !Touches(op, token) && After(op) <= lookup
    requires at <= lookup
    ensures var kept := StoreAfter(StoreStep(store, Create(token, user, at)).0, ops);
            StoreStep(kept, Get(token, lookup, touchAt)).1 == Some(if lookup <= at + EIGHT_HOURS then Some(user) else None)
  {
    LivesUntil(StoreStep(store, Create(token, user, at)).0, token, at, ops, lookup, touchAt);
  }

  /** A lookup that is answered gives the session eight hours from then: the next one, whatever else
      runs in between, is answered with the same user within them, and not after. */
  lemma LookupExtends(store: Store, token: Token, at: int, touched: int, ops: seq<Op>, lookup: int, touchAt: int)
    requires StoreStep(store, Get(token, at, touched)).1 != Some(None)
    requires Timed(touched, ops) && forall op :: op in ops ==> !Touches(op, token) && After(op) <= lookup
    requires touched <= lookup
    ensures var kept := StoreAfter(StoreStep(store, Get(token, at, touched)).0, ops);
            StoreStep(kept, Get(token, lookup, touchAt)).1
            == if lookup <= touched + EIGHT_HOURS then StoreStep(store, Get(token, at, touched)).1 else Some(None)
  {
    LivesUntil(StoreStep(store, Get(token, at, touched)).0, token, touched, ops, lookup, touchAt);
  }

  lemma {:induction false} AbsentOrUnchanged(store: Store, token: Token, ops: seq<Op>)
    requires forall op :: op in ops ==> !Touches(op, token)
    ensures token in StoreAfter(store, ops) ==> token in store && StoreAfter(store, ops)[token] == store[token]
    decreases |ops|
  {
    if ops != [] {
      assert ops[0] in ops && !Touches(ops[0], token);
      AbsentOrUnchanged(StoreStep(store, ops[0]).0, token, ops[1..]);
    }
  }
}
