/** The cache object of ldap/cache.go: a map from digests to nodes of the recency list. */
module CachedAuthenticator {
  import opened Common
  import opened AuthCache
  import opened RecencyList

  /** The one position a key has in a list without repeated keys. */
  lemma {:induction false} WithoutAt(es: seq<Entry>, key: Digest, i: nat)
    requires i < |es| && es[i].key == key && forall j :: 0 <= j < |es| && j != i ==> es[j].key != key
    ensures Has(es, key) && Lookup(es, key) == es[i] && Without(es, key) == es[..i] + es[i + 1..]
  {
    if i == 0 {
      WithoutAbsent(es[1..], key);
    } else {
      WithoutAt(es[1..], key, i - 1);
      assert es[..i] + es[i + 1..] == [es[0]] + (es[1..][..i - 1] + es[1..][i..]);
    }
  }

  lemma {:induction false} WithoutAbsent(es: seq<Entry>, key: Digest)
    requires forall j :: 0 <= j < |es| ==> es[j].key != key
    ensures Without(es, key) == es
  {
    if es != [] {
      WithoutAbsent(es[1..], key);
    }
  }

  class Cache {
    const maxSize: nat
    const ttl: int
    const lru: List
    var index: map<Digest, Node>

    /** Index and list are in bijection, entry keys match index keys, and the list is bounded. */
    ghost predicate Valid()
      reads this, lru, lru.nodes
    {
      && lru.Valid() && 0 < maxSize && |lru.nodes| <= maxSize
      && (forall k :: k in index ==> index[k] in lru.nodes && index[k].entry.key == k)
      && (forall n :: n in lru.nodes ==> n.entry.key in index && index[n.entry.key] == n)
    }

    constructor (maxSize: nat, ttl: int)
      requires maxSize > 0
      ensures Valid() && lru.Contents() == [] && this.maxSize == maxSize && this.ttl == ttl
      ensures fresh(lru) && lru.nodes == []
    {
      this.maxSize, this.ttl := maxSize, ttl;
      lru := new List();
      index := map[];
    }

    /** No key is repeated, so the abstract list is Bounded. */
    lemma ContentsBounded()
      requires Valid()
      ensures Bounded(lru.Contents(), maxSize)
    {
      var es := lru.Contents();
      forall i, j | 0 <= i < j < |es| ensures Keys(es)[i] != Keys(es)[j] {
        assert lru.nodes[i] in lru.nodes && lru.nodes[j] in lru.nodes;
        assert es[i] == lru.nodes[i].entry && es[j] == lru.nodes[j].entry;
      }
    }

    /** Where a key sits, on the list and in its value. */
    lemma Position(key: Digest) returns (i: nat)
      requires Valid() && key in index
      ensures i < |lru.nodes| && lru.nodes[i] == index[key]
      ensures var es := lru.Contents();
              Has(es, key) && Lookup(es, key) == index[key].entry && Without(es, key) == es[..i] + es[i + 1..]
    {
      var node := index[key];
      i :| 0 <= i < |lru.nodes| && lru.nodes[i] == node;
      var es := lru.Contents();
      forall j | 0 <= j < |es| && j != i ensures es[j].key != key {
        assert lru.nodes[j] in lru.nodes && lru.nodes[j] != node;
      }
      WithoutAt(es, key, i);
    }

    lemma NotIndexed(key: Digest)
      requires Valid() && key !in index
      ensures !Has(lru.Contents(), key)
    {
      forall j | 0 <= j < |lru.nodes| ensures lru.Contents()[j].key != key {
        assert lru.nodes[j] in lru.nodes;
      }
    }

    lemma Answers(key: Digest, now: int)
      requires Valid()
      ensures IsAnswer(lru.Contents(), key, now, Get(lru.Contents(), key, now).1)
    {
      ContentsBounded();
      GetExact(lru.Contents(), key, now, maxSize);
    }

    /** The lookup answers with the live entry of its key if there is one, and with none otherwise. */
    method CacheGet(key: Digest, now: int) returns (result: Option<AuthResult>)
      requires Valid()
      modifies this, lru, (set n | n in lru.nodes)`prev, (set n | n in lru.nodes)`next
      ensures Valid() && (lru.Contents(), result) == Get(old(lru.Contents()), key, now)
      ensures IsAnswer(old(lru.Contents()), key, now, result)
      ensures forall n :: n in lru.nodes ==> n in old(lru.nodes)
    {
      Answers(key, now);
      if key !in index {
        NotIndexed(key);
        return None;
      }
      ghost var i := Position(key);
      var el := index[key];
      if now > el.entry.expiresAt {
        Drop(el, i);
        return None;
      }
      lru.MoveToFront(el, i);
      result := Some(el.entry.result);
    }

    /** Remove one node from the list and its key from the index. */
    method Drop(el: Node, ghost i: nat)
      requires Valid() && i < |lru.nodes| && lru.nodes[i] == el
      modifies this, lru, (set n | n in lru.nodes)`prev, (set n | n in lru.nodes)`next
      ensures Valid() && lru.Contents() == old(lru.Contents())[..i] + old(lru.Contents())[i + 1..]
      ensures forall n :: n in lru.nodes ==> n in old(lru.nodes)
      ensures el.entry.key !in index && index.Keys <= old(index.Keys) && |lru.nodes| == |old(lru.nodes)| - 1
    {
      ghost var was := index;
      var key := el.entry.key;
      assert el in lru.nodes && was[key] == el;
      lru.Unlink(el, i);
      index := map k | k in index && k != key :: index[k];
      forall n | n in lru.nodes ensures n.entry.key in index && index[n.entry.key] == n {
        assert was[n.entry.key] == n;
      }
      forall k | k in index ensures index[k] in lru.nodes && index[k].entry.key == k {
        assert was[k] != el;
      }
    }

    method CachePut(key: Digest, result: AuthResult, now: int)
      requires Valid()
      modifies this, lru, lru.nodes
      ensures Valid() && lru.Contents() == Put(old(lru.Contents()), key, result, now, ttl, maxSize)
      ensures forall n :: n in lru.nodes ==> n in old(lru.nodes) || fresh(n)
    {
      if key in index {
        Refresh(key, result, now);
        return;
      }
      NotIndexed(key);
      ghost var es := lru.Contents();
      if lru.len >= maxSize {
        var back := lru.back;
        if back != null {
          Drop(back, |lru.nodes| - 1);
          assert lru.Contents() == es[..|es| - 1];
        }
      }
      Insert(key, result, now);
    }

    method Refresh(key: Digest, result: AuthResult, now: int)
      requires Valid() && key in index
      modifies this, lru, lru.nodes
      ensures Valid() && lru.Contents() == [Entry(key, result, now + ttl)] + Without(old(lru.Contents()), key)
      ensures Has(old(lru.Contents()), key)
      ensures forall n :: n in lru.nodes ==> n in old(lru.nodes)
    {
      ghost var i := Position(key);
      ghost var es := lru.Contents();
      var el := index[key];
      Overwrite(el, Entry(key, result, now + ttl), i);
      ghost var changed := lru.Contents();
      assert changed[..i] == es[..i] && changed[i + 1..] == es[i + 1..];
      lru.MoveToFront(el, i);
    }

    method Overwrite(el: Node, entry: Entry, ghost i: nat)
      requires Valid() && i < |lru.nodes| && lru.nodes[i] == el && entry.key == el.entry.key
      modifies el`entry
      ensures Valid() && lru.Contents() == old(lru.Contents())[i := entry] && el.entry == entry
    {
      ghost var es := lru.Contents();
      el.entry := entry;
      forall j | 0 <= j < |lru.nodes| ensures lru.Contents()[j] == es[i := entry][j] {
        assert j != i ==> lru.nodes[j] != el;
      }
      assert lru.Contents() == es[i := entry];
    }

    method Insert(key: Digest, result: AuthResult, now: int)
      requires Valid() && key !in index && |lru.nodes| < maxSize
      modifies this, lru, lru.nodes
      ensures Valid() && lru.Contents() == [Entry(key, result, now + ttl)] + old(lru.Contents())
      ensures forall n :: n in lru.nodes ==> n in old(lru.nodes) || fresh(n)
    {
      var el := new Node(Entry(key, result, now + ttl));
      lru.PushFront(el);
      index := index[key := el];
    }

    /** One sequential request; `inner` is what the wrapped authenticator would answer. */
    method AuthenticateUser(key: Digest, getAt: int, inner: Option<AuthResult>, putAt: int) returns (result: Option<AuthResult>)
      requires Valid()
      modifies this, lru, lru.nodes
      ensures Valid()
      ensures var (after, hit) := Get(old(lru.Contents()), key, getAt);
              if hit.Some? then lru.Contents() == after && result == hit
              else if inner.None? then lru.Contents() == after && result == None
              else lru.Contents() == Serve(old(lru.Contents()), Request(key, getAt, putAt, inner.value), ttl, maxSize)
                   && result == inner
      ensures forall e :: Live(old(lru.Contents()), key, getAt, e) ==> result == Some(e.result)
      ensures (forall e :: !Live(old(lru.Contents()), key, getAt, e)) ==> result == inner
      ensures forall n :: n in lru.nodes ==> n in old(lru.nodes) || fresh(n)
    {
      ghost var was := lru.nodes;
      result := CacheGet(key, getAt);
      assert forall n :: n in lru.nodes ==> n in was;
      if result.Some? {
        return;
      }
      if inner.None? {
        return None;
      }
      CachePut(key, inner.value, putAt);
      result := inner;
    }
  }
}
