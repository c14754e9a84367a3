/** The cache under concurrent callers: the mutex covers cacheGet and cachePut separately, so other
    callers run between a miss, the inner call, and the store. */
module AuthCacheShared {
  import opened Common
  import opened AuthCache

  datatype Credential = Credential(username: string, password: string)

  /** The text that is hashed into the cache key. */
  function KeyText(c: Credential): string {
    c.username + ":" + c.password
  }

  // ----- Which credentials can share a key text -----

  /** Two different usernames have passwords giving the same text exactly when one username
      followed by ':' is a prefix of the other. */
  lemma TextsCollideIff(u1: string, u2: string)
    requires u1 != u2
    ensures (exists p1, p2 :: KeyText(Credential(u1, p1)) == KeyText(Credential(u2, p2)))
       <==> u1 + ":" <= u2 || u2 + ":" <= u1
  {
    if u1 + ":" <= u2 {
      CollisionWitness(u1, u2);
    }
    if u2 + ":" <= u1 {
      CollisionWitness(u2, u1);
    }
    if p1, p2 :| KeyText(Credential(u1, p1)) == KeyText(Credential(u2, p2)) {
      if |u1| <= |u2| {
        SameTextPrefix(u1, p1, u2, p2);
      } else {
        SameTextPrefix(u2, p2, u1, p1);
      }
    }
  }

  /** Users "a" and "a:b" collide: "a" with password "b:c" and "a:b" with password "c". */
  lemma CollisionExample()
    ensures KeyText(Credential("a", "b:c")) == KeyText(Credential("a:b", "c"))
  {
    assert KeyText(Credential("a", "b:c")) == "a:b:c";
    assert KeyText(Credential("a:b", "c")) == "a:b:c";
  }

  lemma CollisionWitness(u: string, v: string)
    requires u + ":" <= v
    ensures KeyText(Credential(u, v[|u| + 1..] + ":")) == KeyText(Credential(v, ""))
  {
    assert v == u + ":" + v[|u| + 1..];
  }

  lemma SameTextPrefix(u: string, p: string, v: string, q: string)
    requires |u| <= |v| && u != v && u + ":" + p == v + ":" + q
    ensures u + ":" <= v
  {
    var t := u + ":" + p;
    assert t[..|u|] == u && t[..|v|] == v && t[|u|] == ':';
    assert |u| < |v|;
    assert v[..|u| + 1] == t[..|u| + 1] == u + ":";
  }

  /** For usernames without ':' the hashed text determines username and password. */
  lemma TextDeterminesCredential(c: Credential, d: Credential)
    requires ':' !in c.username && ':' !in d.username && KeyText(c) == KeyText(d)
    ensures c == d
  {
    PrefixHasColon(c.username, d.username);
    PrefixHasColon(d.username, c.username);
    if c.username != d.username {
      TextsCollideIff(c.username, d.username);
    } else {
      assert KeyText(c)[|c.username| + 1..] == c.password;
      assert KeyText(d)[|d.username| + 1..] == d.password;
    }
  }

  lemma PrefixHasColon(u: string, v: string)
    ensures u + ":" <= v ==> ':' in v
  {
    if u + ":" <= v {
      assert v[|u|] == (u + ":")[|u|] == ':';
    }
  }

  // ----- The interleavings -----

  datatype Config = Config(digest: string -> Digest, ttl: int, maxSize: nat)

  function Key(cfg: Config, c: Credential): Digest {
    cfg.digest(KeyText(c))
  }

  /** A caller: not started, past a miss, holding a fresh result, or returned. A cached return
      records the clock reading of its hit. */
  datatype Phase =
    | Arrived
    | Missed
    | Fetched(result: AuthResult)
    | Failed
    | ReturnedOwn(result: AuthResult)
    | ReturnedCached(result: AuthResult, at: int)

  datatype Caller = Caller(credential: Credential, phase: Phase)

  /** An inner call that succeeded, and the caller that made it. */
  datatype Success = Success(caller: nat, credential: Credential, result: AuthResult)

  datatype Stored = Stored(source: Success, at: int)

  /** `successes` and `stored` are history: the inner calls that succeeded, and what was put. */
  datatype State = State(entries: seq<Entry>, callers: seq<Caller>, clock: int,
                         successes: set<Success>, stored: set<Stored>)

  datatype Action =
    | Arrive(credential: Credential)
    | GetStep(c: nat, now: int)
    | InnerStep(c: nat, answer: Option<AuthResult>)
    | PutStep(c: nat, now: int)

  predicate Enabled(s: State, a: Action) {
    match a
    case Arrive(_) => true
    case GetStep(c, now) => c < |s.callers| && s.callers[c].phase.Arrived? && s.clock <= now
    case InnerStep(c, _) => c < |s.callers| && s.callers[c].phase.Missed?
    case PutStep(c, now) => c < |s.callers| && s.callers[c].phase.Fetched? && s.clock <= now
  }

  function SetPhase(s: State, c: nat, phase: Phase): seq<Caller>
    requires c < |s.callers|
  {
    s.callers[c := s.callers[c].(phase := phase)]
  }

  function Apply(cfg: Config, s: State, a: Action): State
    requires Enabled(s, a)
  {
    match a
    case Arrive(credential) => s.(callers := s.callers + [Caller(credential, Arrived)])
    case GetStep(c, now) =>
      var (after, hit) := Get(s.entries, Key(cfg, s.callers[c].credential), now);
      s.(entries := after, clock := now,
         callers := SetPhase(s, c, if hit.Some? then ReturnedCached(hit.value, now) else Missed))
    case InnerStep(c, answer) =>
      if answer.None? then s.(callers := SetPhase(s, c, Failed))
      else s.(callers := SetPhase(s, c, Fetched(answer.value)),
              successes := s.successes + {Success(c, s.callers[c].credential, answer.value)})
    case PutStep(c, now) =>
      var caller := s.callers[c];
      s.(entries := Put(s.entries, Key(cfg, caller.credential), caller.phase.result, now, cfg.ttl, cfg.maxSize),
         clock := now,
         callers := SetPhase(s, c, ReturnedOwn(caller.phase.result)),
         stored := s.stored + {Stored(Success(c, caller.credential, caller.phase.result), now)})
  }

  ghost predicate Run(cfg: Config, s: State, actions: seq<Action>, t: State)
    decreases |actions|
  {
    if actions == [] then s == t
    else Enabled(s, actions[0]) && Run(cfg, Apply(cfg, s, actions[0]), actions[1..], t)
  }

  predicate Initial(s: State) {
    s.entries == [] && s.callers == [] && s.successes == {} && s.stored == {}
  }

  // ----- Soundness -----

  /** A store that vouches for a result under a key, valid until `expiresAt`. */
  ghost predicate Vouched(cfg: Config, s: State, key: Digest, result: AuthResult, expiresAt: int) {
    exists st :: st in s.stored && Vouches(cfg, s, st, key, result, expiresAt)
  }

  ghost predicate Vouches(cfg: Config, s: State, st: Stored, key: Digest, result: AuthResult, expiresAt: int) {
    && Key(cfg, st.source.credential) == key && st.source.result == result && st.at + cfg.ttl == expiresAt
    && st.at <= s.clock && st.source in s.successes
  }

  ghost predicate CallerOk(cfg: Config, s: State, c: nat, caller: Caller) {
    match caller.phase
    case Fetched(result) => Success(c, caller.credential, result) in s.successes
    case ReturnedOwn(result) => Success(c, caller.credential, result) in s.successes
    case ReturnedCached(result, at) => CachedOk(cfg, s, Key(cfg, caller.credential), result, at)
    case _ => true
  }

  /** A result returned from the cache was put for the same key at most ttl before. */
  ghost predicate CachedOk(cfg: Config, s: State, key: Digest, result: AuthResult, at: int) {
    exists st :: st in s.stored && st.source in s.successes && Key(cfg, st.source.credential) == key
                 && st.source.result == result && st.at <= at <= st.at + cfg.ttl
  }

  ghost predicate Inv(cfg: Config, s: State) {
    && Bounded(s.entries, cfg.maxSize)
    && (forall e :: e in s.entries ==> Vouched(cfg, s, e.key, e.result, e.expiresAt))
    && (forall c :: 0 <= c < |s.callers| ==> CallerOk(cfg, s, c, s.callers[c]))
  }

  /** History and clock only grow, so what they vouch for stays vouched for. */
  lemma VouchedLater(cfg: Config, s: State, t: State)
    requires s.successes <= t.successes && s.stored <= t.stored && s.clock <= t.clock
    ensures forall key, result, expiresAt :: Vouched(cfg, s, key, result, expiresAt) ==> Vouched(cfg, t, key, result, expiresAt)
    ensures forall c, caller :: CallerOk(cfg, s, c, caller) ==> CallerOk(cfg, t, c, caller)
  {
    forall key, result, expiresAt | Vouched(cfg, s, key, result, expiresAt) ensures Vouched(cfg, t, key, result, expiresAt) {
      var st :| st in s.stored && Vouches(cfg, s, st, key, result, expiresAt);
      assert Vouches(cfg, t, st, key, result, expiresAt);
    }
    forall c, caller | CallerOk(cfg, s, c, caller) ensures CallerOk(cfg, t, c, caller) {
      if caller.phase.ReturnedCached? {
        var st :| st in s.stored && st.source in s.successes && Key(cfg, st.source.credential) == Key(cfg, caller.credential)
                  && st.source.result == caller.phase.result && st.at <= caller.phase.at <= st.at + cfg.ttl;
        assert st in t.stored;
      }
    }
  }

  /** A lookup returns nothing that was not stored, and adds nothing. */
  lemma GetOnlyKeeps(es: seq<Entry>, key: Digest, now: int)
    ensures forall e :: e in Get(es, key, now).0 ==> e in es
    ensures Get(es, key, now).1.Some? ==>
              exists e :: e in es && e.key == key && Get(es, key, now).1 == Some(e.result) && now <= e.expiresAt
  {
    if Has(es, key) {
      assert Lookup(es, key) in es;
    }
  }

  lemma PutOnlyAdds(es: seq<Entry>, key: Digest, result: AuthResult, now: int, ttl: int, maxSize: nat)
    ensures forall e :: e in Put(es, key, result, now, ttl, maxSize) ==> e in es || e == Entry(key, result, now + ttl)
  {
  }

  lemma GetKeepsInv(cfg: Config, s: State, c: nat, now: int)
    requires Inv(cfg, s) && Enabled(s, GetStep(c, now))
    ensures Inv(cfg, Apply(cfg, s, GetStep(c, now)))
  {
    var t := Apply(cfg, s, GetStep(c, now));
    var key := Key(cfg, s.callers[c].credential);
    VouchedLater(cfg, s, t);
    GetOnlyKeeps(s.entries, key, now);
    GetKeepsBounded(s.entries, key, now, cfg.maxSize);
    if t.callers[c].phase.ReturnedCached? {
      var e :| e in s.entries && e.key == key && t.callers[c].phase.result == e.result && now <= e.expiresAt;
      var st :| st in s.stored && Vouches(cfg, s, st, e.key, e.result, e.expiresAt);
      assert CachedOk(cfg, t, key, e.result, now);
    }
  }

  lemma PutKeepsInv(cfg: Config, s: State, c: nat, now: int)
    requires cfg.maxSize > 0 && Inv(cfg, s) && Enabled(s, PutStep(c, now))
    ensures Inv(cfg, Apply(cfg, s, PutStep(c, now)))
  {
    var t := Apply(cfg, s, PutStep(c, now));
    var caller := s.callers[c];
    var key := Key(cfg, caller.credential);
    VouchedLater(cfg, s, t);
    PutOnlyAdds(s.entries, key, caller.phase.result, now, cfg.ttl, cfg.maxSize);
    PutKeepsBounded(s.entries, key, caller.phase.result, now, cfg.ttl, cfg.maxSize);
    assert CallerOk(cfg, s, c, caller);
    var st := Stored(Success(c, caller.credential, caller.phase.result), now);
    assert Vouches(cfg, t, st, key, caller.phase.result, now + cfg.ttl);
  }

  lemma StepKeepsInv(cfg: Config, s: State, a: Action)
    requires cfg.maxSize > 0 && Inv(cfg, s) && Enabled(s, a)
    ensures Inv(cfg, Apply(cfg, s, a))
  {
    match a
    case GetStep(c, now) => GetKeepsInv(cfg, s, c, now);
    case PutStep(c, now) => PutKeepsInv(cfg, s, c, now);
    case _ => VouchedLater(cfg, s, Apply(cfg, s, a));
  }

  lemma {:induction false} RunKeepsInv(cfg: Config, s: State, actions: seq<Action>, t: State)
    requires cfg.maxSize > 0 && Inv(cfg, s) && Run(cfg, s, actions, t)
    ensures Inv(cfg, t)
    decreases |actions|
  {
    if actions != [] {
      StepKeepsInv(cfg, s, actions[0]);
      RunKeepsInv(cfg, Apply(cfg, s, actions[0]), actions[1..], t);
    }
  }

  /** The run shows inner call c succeeding with this result. */
  predicate Succeeded(actions: seq<Action>, c: nat, result: AuthResult) {
    InnerStep(c, Some(result)) in actions
  }

  /** Every recorded success is an inner call of the run, by the caller recorded with it. */
  ghost predicate Recorded(s: State, actions: seq<Action>) {
    forall x :: x in s.successes ==>
      x.caller < |s.callers| && s.callers[x.caller].credential == x.credential && Succeeded(actions, x.caller, x.result)
  }

  lemma StepCallers(cfg: Config, s: State, a: Action, c: nat)
    requires Enabled(s, a) && c < |s.callers|
    ensures c < |Apply(cfg, s, a).callers| && Apply(cfg, s, a).callers[c].credential == s.callers[c].credential
  {
  }

  lemma StepRecords(cfg: Config, s: State, a: Action, actions: seq<Action>)
    requires Enabled(s, a) && Recorded(s, actions)
    ensures Recorded(Apply(cfg, s, a), actions + [a])
  {
    var t := Apply(cfg, s, a);
    forall x | x in t.successes
      ensures x.caller < |t.callers| && t.callers[x.caller].credential == x.credential && Succeeded(actions + [a], x.caller, x.result)
    {
      if x in s.successes {
        StepCallers(cfg, s, a, x.caller);
      } else {
        StepCallers(cfg, s, a, a.c);
      }
    }
  }

  lemma {:induction false} RunRecords(cfg: Config, s: State, earlier: seq<Action>, actions: seq<Action>, t: State)
    requires Recorded(s, earlier) && Run(cfg, s, actions, t)
    ensures Recorded(t, earlier + actions)
    decreases |actions|
  {
    if actions == [] {
      assert earlier + actions == earlier;
    } else {
      StepRecords(cfg, s, actions[0], earlier);
      RunRecords(cfg, Apply(cfg, s, actions[0]), earlier + [actions[0]], actions[1..], t);
      assert (earlier + [actions[0]]) + actions[1..] == earlier + actions;
    }
  }

  ghost predicate SourceOf(cfg: Config, t: State, actions: seq<Action>, x: Success, key: Digest, result: AuthResult) {
    && x in t.successes && x.result == result && Key(cfg, x.credential) == key
    && x.caller < |t.callers| && t.callers[x.caller].credential == x.credential && Succeeded(actions, x.caller, result)
  }

  /** A result returned from the cache came from an inner call of the run, made for the same key by the
      caller of a store at most ttl before the hit. */
  ghost predicate FromTheRun(cfg: Config, t: State, actions: seq<Action>, key: Digest, result: AuthResult, at: int) {
    exists st :: st in t.stored && SourceOf(cfg, t, actions, st.source, key, result) && st.at <= at <= st.at + cfg.ttl
  }

  /** In every interleaving, a returned result is that of the caller's own inner call in the run, or of
      an inner call some caller made for the same key, stored at most ttl before the hit; the list
      stays bounded with distinct keys, and every entry in it was put by a success recorded for its
      key, so failures are never stored. */
  lemma CacheSoundness(cfg: Config, s: State, actions: seq<Action>, t: State, c: nat)
    requires cfg.maxSize > 0 && Initial(s) && Run(cfg, s, actions, t) && c < |t.callers|
    ensures Bounded(t.entries, cfg.maxSize)
    ensures forall e :: e in t.entries ==> Vouched(cfg, t, e.key, e.result, e.expiresAt)
    ensures t.callers[c].phase.ReturnedOwn? ==> Succeeded(actions, c, t.callers[c].phase.result)
    ensures t.callers[c].phase.ReturnedCached? ==>
              FromTheRun(cfg, t, actions, Key(cfg, t.callers[c].credential), t.callers[c].phase.result, t.callers[c].phase.at)
  {
    RunKeepsInv(cfg, s, actions, t);
    RunRecords(cfg, s, [], actions, t);
    assert [] + actions == actions;
    assert CallerOk(cfg, t, c, t.callers[c]);
    if t.callers[c].phase.ReturnedCached? {
      var caller := t.callers[c];
      var st :| st in t.stored && st.source in t.successes && Key(cfg, st.source.credential) == Key(cfg, caller.credential)
                && st.source.result == caller.phase.result && st.at <= caller.phase.at <= st.at + cfg.ttl;
      assert SourceOf(cfg, t, actions, st.source, Key(cfg, caller.credential), caller.phase.result);
    }
  }

  /** In every interleaving, a caller's lookup returns a cached result exactly when an entry of its key
      is stored and not past its time; otherwise the caller goes on to its inner call. */
  lemma LookupStepIff(cfg: Config, s: State, actions: seq<Action>, t: State, c: nat, now: int)
    requires cfg.maxSize > 0 && Initial(s) && Run(cfg, s, actions, t) && Enabled(t, GetStep(c, now))
    ensures var key, after := Key(cfg, t.callers[c].credential), Apply(cfg, t, GetStep(c, now)).callers[c].phase;
            && (forall e :: Live(t.entries, key, now, e) ==> after == ReturnedCached(e.result, now))
            && ((forall e :: !Live(t.entries, key, now, e)) ==> after == Missed)
  {
    RunKeepsInv(cfg, s, actions, t);
    GetExact(t.entries, Key(cfg, t.callers[c].credential), now, cfg.maxSize);
  }

  /** And a store makes its result available to every lookup of that key for ttl from then on, until
      the key is stored again or dropped. */
  lemma StoreStepKeeps(cfg: Config, s: State, actions: seq<Action>, t: State, c: nat, now: int, later: int)
    requires cfg.maxSize > 0 && Initial(s) && Run(cfg, s, actions, t) && Enabled(t, PutStep(c, now))
    ensures var key, after := Key(cfg, t.callers[c].credential), Apply(cfg, t, PutStep(c, now));
            Get(after.entries, key, later).1 == if later <= now + cfg.ttl then Some(t.callers[c].phase.result) else None
  {
    RunKeepsInv(cfg, s, actions, t);
    var key, result := Key(cfg, t.callers[c].credential), t.callers[c].phase.result;
    var after := Put(t.entries, key, result, now, cfg.ttl, cfg.maxSize);
    PutExact(t.entries, key, result, now, cfg.ttl, cfg.maxSize);
    PutKeepsBounded(t.entries, key, result, now, cfg.ttl, cfg.maxSize);
    GetExact(after, key, later, cfg.maxSize);
    assert later <= now + cfg.ttl ==> Live(after, key, later, Entry(key, result, now + cfg.ttl));
  }

  ghost predicate NoCollisions(digest: string -> Digest) {
    forall x, y :: digest(x) == digest(y) ==> x == y
  }

  /** With a collision-free hash and usernames without ':', every returned result came from a
      successful inner call of the run for the caller's own username and password. */
  lemma OnlyOwnCredentials(cfg: Config, s: State, actions: seq<Action>, t: State, c: nat) returns (source: nat)
    requires cfg.maxSize > 0 && NoCollisions(cfg.digest) && Initial(s) && Run(cfg, s, actions, t) && c < |t.callers|
    requires t.callers[c].phase.ReturnedOwn? || t.callers[c].phase.ReturnedCached?
    requires ':' !in t.callers[c].credential.username
    requires forall x :: x in t.successes ==> ':' !in x.credential.username
    ensures source < |t.callers| && t.callers[source].credential == t.callers[c].credential
    ensures Succeeded(actions, source, t.callers[c].phase.result)
  {
    CacheSoundness(cfg, s, actions, t, c);
    source := c;
    if t.callers[c].phase.ReturnedCached? {
      var caller := t.callers[c];
      var st :| st in t.stored && SourceOf(cfg, t, actions, st.source, Key(cfg, caller.credential), caller.phase.result)
                && st.at <= caller.phase.at <= st.at + cfg.ttl;
      source := st.source.caller;
      assert KeyText(st.source.credential) == KeyText(caller.credential);
      TextDeterminesCredential(st.source.credential, caller.credential);
    }
  }
}
