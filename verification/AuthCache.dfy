/** The authentication cache of ldap/cache.go as a value: a recency list of entries, newest first,
    and what its two critical sections do to it. */
module AuthCache {
  import opened Common

  /** SHA-256 digests: opaque names, compared only for equality. */
  type Digest = nat

  datatype AuthResult = AuthResult(userDN: string, groups: seq<string>)

  datatype Entry = Entry(key: Digest, result: AuthResult, expiresAt: int)

  function Keys(es: seq<Entry>): (ks: seq<Digest>)
    ensures |ks| == |es|
  {
    seq(|es|, i requires 0 <= i < |es| => es[i].key)
  }

  predicate Has(es: seq<Entry>, key: Digest) {
    exists i :: 0 <= i < |es| && es[i].key == key
  }

  /** The entry stored under a key. */
  function Lookup(es: seq<Entry>, key: Digest): (e: Entry)
    requires Has(es, key)
    ensures e in es && e.key == key
  {
    if es[0].key == key then es[0] else Lookup(es[1..], key)
  }

  function Without(es: seq<Entry>, key: Digest): (r: seq<Entry>)
    ensures |r| <= |es|
    ensures forall e :: e in r ==> e in es
  {
    if es == [] then []
    else if es[0].key == key then Without(es[1..], key)
    else [es[0]] + Without(es[1..], key)
  }

  /** cacheGet: a live entry moves to the front, an expired one is removed. */
  function Get(es: seq<Entry>, key: Digest, now: int): (r: (seq<Entry>, Option<AuthResult>)) {
    if !Has(es, key) then (es, None)
    else
      var e := Lookup(es, key);
      if now > e.expiresAt then (Without(es, key), None)
      else ([e] + Without(es, key), Some(e.result))
  }

  /** cachePut: refresh in place or insert at the front, evicting the last entry when full. */
  function Put(es: seq<Entry>, key: Digest, result: AuthResult, now: int, ttl: int, maxSize: nat): seq<Entry> {
    var entry := Entry(key, result, now + ttl);
    if Has(es, key) then [entry] + Without(es, key)
    else if |es| >= maxSize && es != [] then [entry] + es[..|es| - 1]
    else [entry] + es
  }

  /** One request whose inner call, if made, succeeds: the clock readings of its two critical
      sections and the inner result. */
  datatype Request = Request(key: Digest, getAt: int, putAt: int, result: AuthResult)

  function Serve(es: seq<Entry>, q: Request, ttl: int, maxSize: nat): seq<Entry> {
    var (after, hit) := Get(es, q.key, q.getAt);
    if hit.Some? then after else Put(after, q.key, q.result, q.putAt, ttl, maxSize)
  }

  function ServeAll(trace: seq<Request>, ttl: int, maxSize: nat): seq<Entry> {
    if trace == [] then []
    else Serve(ServeAll(trace[..|trace| - 1], ttl, maxSize), trace[|trace| - 1], ttl, maxSize)
  }

  // ----- The reference: distinct keys, most recent first -----

  function Reversed<T>(s: seq<T>): (r: seq<T>)
    ensures |r| == |s|
  {
    if s == [] then [] else [s[|s| - 1]] + Reversed(s[..|s| - 1])
  }

  function RequestKeys(trace: seq<Request>): (ks: seq<Digest>)
    ensures |ks| == |trace|
  {
    seq(|trace|, i requires 0 <= i < |trace| => trace[i].key)
  }

  function Take<T>(s: seq<T>, n: nat): seq<T> {
    if |s| <= n then s else s[..n]
  }

  /** Removing a key from the first n of a list, when it is among them, leaves the first n - 1 of
      the list without it. */
  lemma {:induction false} RemoveTake<T>(s: seq<T>, n: nat, x: T)
    requires Distinct(s) && x in Take(s, n)
    ensures n > 0 && Remove(Take(s, n), x) == Take(Remove(s, x), n - 1)
  {
    if |s| <= n {
      RemoveFacts(s, x);
    } else if s[0] == x {
      assert Take(s, n)[1..] == s[1..n];
      assert x !in s[1..] && x !in s[1..n];
      RemoveFacts(s[1..], x);
      RemoveFacts(s[1..n], x);
      assert Remove(Take(s, n), x) == s[1..n];
      assert Take(s[1..], n - 1) == s[1..n];
    } else {
      assert Take(s, n)[1..] == Take(s[1..], n - 1);
      RemoveTake(s[1..], n - 1, x);
      assert Remove(s, x) == [s[0]] + Remove(s[1..], x);
      assert Take(Remove(s, x), n - 1) == [s[0]] + Take(Remove(s[1..], x), n - 2);
    }
  }

  /** Removing an element that is not among the first n does not touch those before them. */
  lemma {:induction false} RemoveBeyond<T>(s: seq<T>, n: nat, x: T)
    requires n < |s| && x !in s[..n]
    ensures |Remove(s, x)| >= n && Remove(s, x)[..n] == s[..n]
  {
    if n > 0 {
      assert s[..n][0] == s[0];
      assert forall y :: y in s[1..][..n - 1] ==> y in s[..n] by {
        assert s[1..][..n - 1] == s[..n][1..];
      }
      RemoveBeyond(s[1..], n - 1, x);
      assert Remove(s, x) == [s[0]] + Remove(s[1..], x);
      assert s[..n] == [s[0]] + s[1..][..n - 1];
    }
  }

  lemma {:induction false} WithoutKeys(es: seq<Entry>, key: Digest)
    ensures Keys(Without(es, key)) == Remove(Keys(es), key)
  {
    if es != [] {
      WithoutKeys(es[1..], key);
      assert Keys(es)[1..] == Keys(es[1..]);
      if es[0].key != key {
        assert Keys([es[0]] + Without(es[1..], key)) == [es[0].key] + Keys(Without(es[1..], key));
      }
    }
  }

  lemma HasKeys(es: seq<Entry>, key: Digest)
    ensures Has(es, key) <==> key in Keys(es)
  {
    if Has(es, key) {
      var i :| 0 <= i < |es| && es[i].key == key;
      assert Keys(es)[i] == key;
    }
  }

  lemma KeysCons(e: Entry, es: seq<Entry>)
    ensures Keys([e] + es) == [e.key] + Keys(es)
  {
  }

  /** What one successful request does to the keys, whether it hits, expires or misses. */
  lemma ServeKeys(es: seq<Entry>, q: Request, ttl: int, maxSize: nat)
    requires Distinct(Keys(es)) && |es| <= maxSize && maxSize > 0
    ensures Keys(Serve(es, q, ttl, maxSize))
            == if q.key in Keys(es) then [q.key] + Remove(Keys(es), q.key)
               else if |es| == maxSize then [q.key] + Keys(es)[..maxSize - 1]
               else [q.key] + Keys(es)
  {
    var rest := Without(es, q.key);
    HasKeys(es, q.key);
    WithoutKeys(es, q.key);
    RemoveFacts(Keys(es), q.key);
    HasKeys(rest, q.key);
    var entry := Entry(q.key, q.result, q.putAt + ttl);
    KeysCons(entry, rest);
    KeysCons(entry, es);
    if Has(es, q.key) {
      KeysCons(Lookup(es, q.key), rest);
    } else if |es| == maxSize {
      assert Keys(es[..maxSize - 1]) == Keys(es)[..maxSize - 1];
      KeysCons(entry, es[..maxSize - 1]);
    }
  }

  /** The LRU theorem: after any trace of requests whose inner calls succeed, whatever the clock
      readings and expiries, the keys cached are exactly the first maxSize distinct keys of the
      trace read backwards, in that order. */
  lemma {:induction false} LruRefinement(trace: seq<Request>, ttl: int, maxSize: nat)
    requires maxSize > 0
    ensures Keys(ServeAll(trace, ttl, maxSize)) == Take(FirstOccurrences(Reversed(RequestKeys(trace))), maxSize)
  {
    if trace != [] {
      var q := trace[|trace| - 1];
      var before := trace[..|trace| - 1];
      var recent := FirstOccurrences(Reversed(RequestKeys(before)));
      LruRefinement(before, ttl, maxSize);
      FirstOccurrencesDistinct(Reversed(RequestKeys(before)));
      assert RequestKeys(trace)[..|trace| - 1] == RequestKeys(before);
      var es := ServeAll(before, ttl, maxSize);
      assert Distinct(Keys(es));
      ServeKeys(es, q, ttl, maxSize);
      if q.key in Take(recent, maxSize) {
        TakeStepHit(recent, maxSize, q.key);
      } else {
        TakeStepMiss(recent, maxSize, q.key);
      }
    }
  }

  /** Bringing one key to the front of a bounded recency list, when it is already in it ... */
  lemma TakeStepHit<T>(recent: seq<T>, n: nat, x: T)
    requires Distinct(recent) && n > 0 && x in Take(recent, n)
    ensures Take([x] + Remove(recent, x), n) == [x] + Remove(Take(recent, n), x)
  {
    RemoveTake(recent, n, x);
    var rest := Remove(recent, x);
    assert Take([x] + rest, n) == [x] + Take(rest, n - 1);
  }

  /** ... and when it is not. */
  lemma TakeStepMiss<T>(recent: seq<T>, n: nat, x: T)
    requires n > 0 && x !in Take(recent, n)
    ensures Take([x] + Remove(recent, x), n)
            == if |Take(recent, n)| == n then [x] + Take(recent, n)[..n - 1] else [x] + Take(recent, n)
  {
    var rest := Remove(recent, x);
    if |recent| >= n {
      assert x !in recent[..n - 1] by {
        assert Take(recent, n)[..n - 1] == recent[..n - 1];
      }
      RemoveBeyond(recent, n - 1, x);
      assert Take([x] + rest, n) == [x] + rest[..n - 1];
    } else {
      RemoveFacts(recent, x);
    }
  }

  /** A larger cache keeps every key a smaller one keeps on the same trace. */
  lemma LargerCacheContainsSmaller(trace: seq<Request>, ttl1: int, small: nat, ttl2: int, large: nat)
    requires 0 < small <= large
    ensures Keys(ServeAll(trace, ttl1, small)) <= Keys(ServeAll(trace, ttl2, large))
  {
    LruRefinement(trace, ttl1, small);
    LruRefinement(trace, ttl2, large);
  }

  // ----- What every critical section keeps -----

  /** The representation as a value: bounded and without repeated keys. */
  ghost predicate Bounded(es: seq<Entry>, maxSize: nat) {
    Distinct(Keys(es)) && |es| <= maxSize
  }

  lemma GetKeepsBounded(es: seq<Entry>, key: Digest, now: int, maxSize: nat)
    requires Bounded(es, maxSize)
    ensures Bounded(Get(es, key, now).0, maxSize)
  {
    HasKeys(es, key);
    WithoutKeys(es, key);
    RemoveFacts(Keys(es), key);
    if Has(es, key) {
      KeysCons(Lookup(es, key), Without(es, key));
    }
  }

  lemma PutKeepsBounded(es: seq<Entry>, key: Digest, result: AuthResult, now: int, ttl: int, maxSize: nat)
    requires Bounded(es, maxSize) && maxSize > 0
    ensures Bounded(Put(es, key, result, now, ttl, maxSize), maxSize)
    ensures Has(Put(es, key, result, now, ttl, maxSize), key)
  {
    HasKeys(es, key);
    WithoutKeys(es, key);
    RemoveFacts(Keys(es), key);
    var entry := Entry(key, result, now + ttl);
    assert Put(es, key, result, now, ttl, maxSize)[0].key == key;
    KeysCons(entry, Without(es, key));
    KeysCons(entry, es);
    if |es| > 0 {
      assert Keys(es[..|es| - 1]) == Keys(es)[..|es| - 1];
      KeysCons(entry, es[..|es| - 1]);
    }
  }

  // ----- What a lookup answers and what it leaves -----

  lemma {:induction false} LookupIs(es: seq<Entry>, e: Entry)
    requires Distinct(Keys(es)) && e in es
    ensures Has(es, e.key) && Lookup(es, e.key) == e
  {
    var i :| 0 <= i < |es| && es[i] == e;
    assert Has(es, e.key);
    if i == 0 {
    } else {
      assert Keys(es)[0] != Keys(es)[i];
      TailDistinct(es);
      assert es[1..][i - 1] == e;
      LookupIs(es[1..], e);
    }
  }

  lemma TailDistinct(es: seq<Entry>)
    requires Distinct(Keys(es)) && es != []
    ensures Distinct(Keys(es[1..]))
  {
    assert Keys(es[1..]) == Keys(es)[1..];
  }

  lemma {:induction false} WithoutMembers(es: seq<Entry>, key: Digest)
    ensures forall e :: e in Without(es, key) <==> e in es && e.key != key
  {
    if es != [] {
      WithoutMembers(es[1..], key);
      assert forall e :: e in es <==> e == es[0] || e in es[1..];
    }
  }

  /** An entry a lookup of this key may answer with. */
  predicate Live(es: seq<Entry>, key: Digest, now: int, e: Entry) {
    e in es && e.key == key && now <= e.expiresAt
  }

  /** The answer is the result of the live entry if there is one, and none otherwise. */
  ghost predicate IsAnswer(es: seq<Entry>, key: Digest, now: int, answer: Option<AuthResult>) {
    && (forall e :: Live(es, key, now, e) ==> answer == Some(e.result))
    && ((forall e :: !Live(es, key, now, e)) ==> answer == None)
  }

  /** A lookup answers from the cache if and only if an entry of its key is stored and not past its
      time, with that entry's result, wherever in the list it stands; it removes nothing but an entry
      of its key that is past its time. */
  lemma GetExact(es: seq<Entry>, key: Digest, now: int, maxSize: nat)
    requires Bounded(es, maxSize)
    ensures IsAnswer(es, key, now, Get(es, key, now).1)
    ensures forall e :: e in Get(es, key, now).0 <==> e in es && (e.key == key ==> now <= e.expiresAt)
  {
    WithoutMembers(es, key);
    forall e | e in es && e.key == key ensures Has(es, key) && Lookup(es, key) == e {
      LookupIs(es, e);
    }
    if Has(es, key) {
      assert now <= Lookup(es, key).expiresAt ==> Live(es, key, now, Lookup(es, key));
    }
  }

  /** A store leaves exactly its own entry, expiring ttl later, and every entry of another key, except
      the last one when the key is new and the cache is full. */
  lemma PutExact(es: seq<Entry>, key: Digest, result: AuthResult, now: int, ttl: int, maxSize: nat)
    requires Bounded(es, maxSize) && maxSize > 0
    ensures forall e :: e in Put(es, key, result, now, ttl, maxSize)
                   <==> e == Entry(key, result, now + ttl)
                        || (e in es && e.key != key && (key in Keys(es) || |es| < maxSize || e != es[|es| - 1]))
  {
    HasKeys(es, key);
    WithoutMembers(es, key);
    if key !in Keys(es) {
      forall e | e in es ensures e.key != key {
        var i :| 0 <= i < |es| && es[i] == e;
        assert Keys(es)[i] == e.key;
      }
      if |es| == maxSize {
        AllButLast(es);
      }
    }
  }

  lemma AllButLast(es: seq<Entry>)
    requires Distinct(Keys(es)) && es != []
    ensures forall e :: e in es[..|es| - 1] <==> e in es && e != es[|es| - 1]
  {
    var n := |es| - 1;
    assert es == es[..n] + [es[n]];
    forall i | 0 <= i < n ensures es[i] != es[n] {
      assert Keys(es)[i] != Keys(es)[n];
    }
  }

  // ----- Which requests of a trace are answered without an inner call -----

  /** The other keys requested since the last request of this one (or ever, if there was none). */
  function KeysSince(trace: seq<Request>, key: Digest): set<Digest> {
    if trace == [] || trace[|trace| - 1].key == key then {}
    else KeysSince(trace[..|trace| - 1], key) + {trace[|trace| - 1].key}
  }

  /** The request whose result was stored last under a key: its latest one that was not answered. */
  function LastStore(trace: seq<Request>, key: Digest, ttl: int, maxSize: nat): Option<Request>
    decreases |trace|, 0
  {
    if trace == [] then None
    else
      var before, last := trace[..|trace| - 1], trace[|trace| - 1];
      if last.key == key && !Answered(before, last, ttl, maxSize) then Some(last) else LastStore(before, key, ttl, maxSize)
  }

  /** Whether a request after a trace should be answered without an inner call: the last store of its
      key is at most ttl old, and fewer than maxSize other keys were requested since that key was. */
  predicate Answered(trace: seq<Request>, q: Request, ttl: int, maxSize: nat)
    decreases |trace|, 1
  {
    var store := LastStore(trace, q.key, ttl, maxSize);
    store.Some? && q.getAt <= store.value.putAt + ttl && |KeysSince(trace, q.key)| < maxSize
  }

  /** Where an element stands after another one is removed. */
  lemma {:induction false} RemovePosition<T>(s: seq<T>, x: T, p: nat)
    requires Distinct(s) && p < |s| && s[p] != x
    ensures var q := if x in s[..p] then p - 1 else p;
            && 0 <= q < |Remove(s, x)| && Remove(s, x)[q] == s[p]
            && forall y :: y in Remove(s, x)[..q] <==> y in s[..p] && y != x
  {
    if s[0] == x {
      RemoveFacts(s[1..], x);
      assert x !in s[1..];
      assert s[..p][0] == x && Remove(s, x) == s[1..] && s[1..][..p - 1] == s[..p][1..];
      assert s[..p] == [x] + s[..p][1..];
    } else if p > 0 {
      RemovePosition(s[1..], x, p - 1);
      assert s[..p] == [s[0]] + s[1..][..p - 1];
      var q := if x in s[1..][..p - 1] then p - 2 else p - 1;
      assert ([s[0]] + Remove(s[1..], x))[..q + 1] == [s[0]] + Remove(s[1..], x)[..q];
    }
  }

  /** A key stands behind exactly the other keys requested since. */
  ghost predicate StandsBehind(recent: seq<Digest>, key: Digest, since: set<Digest>) {
    && |since| < |recent| && recent[|since|] == key
    && forall x :: x in since <==> x in recent[..|since|]
  }

  lemma OneMore<T>(since: set<T>, x: T)
    ensures |since + {x}| == if x in since then |since| else |since| + 1
  {
    if x in since {
      assert since + {x} == since;
    }
  }

  lemma ConsPrefix<T>(x: T, s: seq<T>, q: nat)
    requires q < |s|
    ensures ([x] + s)[q + 1] == s[q]
    ensures forall y :: y in ([x] + s)[..q + 1] <==> y == x || y in s[..q]
  {
    assert ([x] + s)[..q + 1] == [x] + s[..q];
  }

  lemma StandsAfterOther(recent: seq<Digest>, key: Digest, since: set<Digest>, other: Digest)
    requires Distinct(recent) && StandsBehind(recent, key, since) && other != key
    ensures StandsBehind([other] + Remove(recent, other), key, since + {other})
  {
    var p, rest := |since|, Remove(recent, other);
    RemovePosition(recent, other, p);
    OneMore(since, other);
    var q := if other in recent[..p] then p - 1 else p;
    ConsPrefix(other, rest, q);
  }

  lemma {:induction false} KeysBefore(trace: seq<Request>, key: Digest)
    requires key in RequestKeys(trace)
    ensures StandsBehind(FirstOccurrences(Reversed(RequestKeys(trace))), key, KeysSince(trace, key))
  {
    var before, k := trace[..|trace| - 1], trace[|trace| - 1].key;
    assert RequestKeys(trace)[..|trace| - 1] == RequestKeys(before);
    if k != key {
      assert RequestKeys(trace) == RequestKeys(before) + [k];
      KeysBefore(before, key);
      FirstOccurrencesDistinct(Reversed(RequestKeys(before)));
      StandsAfterOther(FirstOccurrences(Reversed(RequestKeys(before))), key, KeysSince(before, key), k);
    }
  }

  lemma {:induction false} ReversedMembers<T>(s: seq<T>)
    ensures forall x :: x in Reversed(s) <==> x in s
  {
    if s != [] {
      ReversedMembers(s[..|s| - 1]);
      assert s == s[..|s| - 1] + [s[|s| - 1]];
    }
  }

  lemma TakenIff<T>(s: seq<T>, i: nat, n: nat)
    requires Distinct(s) && i < |s|
    ensures s[i] in Take(s, n) <==> i < n
  {
    if i < n {
      assert Take(s, n)[i] == s[i];
    }
  }

  /** A key is among the n most recent ones if fewer than n others were requested since. */
  lemma RecentIff(trace: seq<Request>, key: Digest, n: nat)
    requires n > 0
    ensures key in Take(FirstOccurrences(Reversed(RequestKeys(trace))), n)
       <==> key in RequestKeys(trace) && |KeysSince(trace, key)| < n
  {
    var recent := FirstOccurrences(Reversed(RequestKeys(trace)));
    FirstOccurrencesDistinct(Reversed(RequestKeys(trace)));
    ReversedMembers(RequestKeys(trace));
    if key in RequestKeys(trace) {
      KeysBefore(trace, key);
      TakenIff(recent, |KeysSince(trace, key)|, n);
    } else {
      assert forall x :: x in Take(recent, n) ==> x in recent;
    }
  }

  /** The cache holds, for each key it keeps, what LastStore says was stored. */
  ghost predicate HoldsStores(es: seq<Entry>, trace: seq<Request>, ttl: int, maxSize: nat) {
    forall e :: e in es ==>
      var store := LastStore(trace, e.key, ttl, maxSize);
      store.Some? && e == Entry(e.key, store.value.result, store.value.putAt + ttl)
  }

  /** With such a cache, a lookup answers exactly when the trace says so. */
  lemma AnsweredHere(es: seq<Entry>, trace: seq<Request>, q: Request, ttl: int, maxSize: nat)
    requires maxSize > 0 && Bounded(es, maxSize) && HoldsStores(es, trace, ttl, maxSize)
    requires Keys(es) == Take(FirstOccurrences(Reversed(RequestKeys(trace))), maxSize)
    ensures Get(es, q.key, q.getAt).1
            == if Answered(trace, q, ttl, maxSize) then Some(LastStore(trace, q.key, ttl, maxSize).value.result) else None
  {
    GetExact(es, q.key, q.getAt, maxSize);
    RecentIff(trace, q.key, maxSize);
    StoredWasRequested(trace, q.key, ttl, maxSize);
    if q.key in Keys(es) {
      var i :| 0 <= i < |es| && Keys(es)[i] == q.key;
      assert es[i] in es && es[i].key == q.key;
      LookupIs(es, es[i]);
      forall e | e in es && e.key == q.key ensures e == es[i] {
        LookupIs(es, e);
      }
    } else {
      forall e | e in es ensures e.key != q.key {
        var i :| 0 <= i < |es| && es[i] == e;
        assert Keys(es)[i] == e.key;
      }
    }
  }

  lemma {:induction false} StoredWasRequested(trace: seq<Request>, key: Digest, ttl: int, maxSize: nat)
    ensures LastStore(trace, key, ttl, maxSize).Some? ==> key in RequestKeys(trace)
  {
    if trace != [] {
      var before := trace[..|trace| - 1];
      StoredWasRequested(before, key, ttl, maxSize);
      assert RequestKeys(trace) == RequestKeys(before) + [trace[|trace| - 1].key];
    }
  }

  lemma ServeKeepsStores(es: seq<Entry>, trace: seq<Request>, q: Request, ttl: int, maxSize: nat)
    requires maxSize > 0 && Bounded(es, maxSize) && HoldsStores(es, trace, ttl, maxSize)
    requires Get(es, q.key, q.getAt).1.Some? <==> Answered(trace, q, ttl, maxSize)
    ensures HoldsStores(Serve(es, q, ttl, maxSize), trace + [q], ttl, maxSize)
  {
    assert (trace + [q])[..|trace|] == trace;
    GetExact(es, q.key, q.getAt, maxSize);
    GetKeepsBounded(es, q.key, q.getAt, maxSize);
    var after := Get(es, q.key, q.getAt).0;
    PutExact(after, q.key, q.result, q.putAt, ttl, maxSize);
  }

  lemma ServedBounded(trace: seq<Request>, ttl: int, maxSize: nat)
    requires maxSize > 0
    ensures Bounded(ServeAll(trace, ttl, maxSize), maxSize)
  {
    LruRefinement(trace, ttl, maxSize);
    FirstOccurrencesDistinct(Reversed(RequestKeys(trace)));
  }

  lemma {:induction false} CacheHoldsStores(trace: seq<Request>, ttl: int, maxSize: nat)
    requires maxSize > 0
    ensures HoldsStores(ServeAll(trace, ttl, maxSize), trace, ttl, maxSize)
  {
    if trace != [] {
      var before, q := trace[..|trace| - 1], trace[|trace| - 1];
      var es := ServeAll(before, ttl, maxSize);
      CacheHoldsStores(before, ttl, maxSize);
      ServedBounded(before, ttl, maxSize);
      LruRefinement(before, ttl, maxSize);
      AnsweredHere(es, before, q, ttl, maxSize);
      ServeKeepsStores(es, before, q, ttl, maxSize);
      assert before + [q] == trace;
    }
  }

  /** Exactly which requests are hits: after any trace of successful requests, whatever the clock
      readings, a request is answered without an inner call if and only if the last store of its key
      is at most ttl old and fewer than maxSize other keys were requested since its key last was; the
      answer is the result stored. */
  lemma HitIff(trace: seq<Request>, q: Request, ttl: int, maxSize: nat)
    requires maxSize > 0
    ensures Get(ServeAll(trace, ttl, maxSize), q.key, q.getAt).1
            == if Answered(trace, q, ttl, maxSize) then Some(LastStore(trace, q.key, ttl, maxSize).value.result) else None
  {
    CacheHoldsStores(trace, ttl, maxSize);
    ServedBounded(trace, ttl, maxSize);
    LruRefinement(trace, ttl, maxSize);
    AnsweredHere(ServeAll(trace, ttl, maxSize), trace, q, ttl, maxSize);
  }
}
