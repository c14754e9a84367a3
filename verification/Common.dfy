/** Small shared vocabulary: optional values, and sums over sequences of naturals. */
module Common {

  datatype Option<+T> = None | Some(value: T) {
    function Or(default: T): T {
      if Some? then value else default
    }
  }

  datatype Result<+R, +E> = Ok(value: R) | Err(error: E)

  /** True when no element occurs twice. */
  ghost predicate Distinct<T>(s: seq<T>) {
    forall i, j :: 0 <= i < j < |s| ==> s[i] != s[j]
  }

  function Sum(s: seq<nat>): nat {
    if s == [] then 0 else s[0] + Sum(s[1..])
  }

  lemma {:induction false} SumUpdate(s: seq<nat>, i: nat, v: nat)
    requires i < |s|
    ensures Sum(s[i := v]) + s[i] == Sum(s) + v
  {
    if i == 0 {
      assert s[i := v][1..] == s[1..];
    } else {
      SumUpdate(s[1..], i - 1, v);
      assert s[i := v][1..] == s[1..][i - 1 := v];
    }
  }

  lemma {:induction false} SumAppend(s: seq<nat>, v: nat)
    ensures Sum(s + [v]) == Sum(s) + v
  {
    if s == [] {
      assert s + [v] == [v];
    } else {
      SumAppend(s[1..], v);
      assert (s + [v])[1..] == s[1..] + [v];
    }
  }

  /** The pairs of i with each number below m. */
  ghost function PairsAt(i: nat, m: nat): set<(nat, nat)> {
    set j: nat | j < m :: (i, j)
  }

  lemma {:induction false} PairsAtCount(i: nat, m: nat)
    ensures |PairsAt(i, m)| == m
  {
    if m > 0 {
      PairsAtCount(i, m - 1);
      assert PairsAt(i, m) == PairsAt(i, m - 1) + {(i, m - 1)};
    }
  }

  lemma DisjointSize<T>(x: set<T>, y: set<T>, z: set<T>)
    requires x !! y && z == x + y
    ensures |z| == |x| + |y|
  {
  }

  /** Powers of two, for backoff delays and byte layouts. */
  function Pow2(n: nat): (p: nat)
    ensures p >= 1
  {
    if n == 0 then 1 else 2 * Pow2(n - 1)
  }

  lemma {:induction false} Pow2Monotone(m: nat, n: nat)
    requires m <= n
    ensures Pow2(m) <= Pow2(n)
  {
    if m < n {
      Pow2Monotone(m, n - 1);
    }
  }

  // ----- Distinct elements in order of first occurrence -----

  function Remove<T(==)>(s: seq<T>, x: T): seq<T> {
    if s == [] then [] else if s[0] == x then Remove(s[1..], x) else [s[0]] + Remove(s[1..], x)
  }

  /** The elements of s in order of first occurrence. */
  function FirstOccurrences<T(==)>(s: seq<T>): seq<T> {
    if s == [] then [] else [s[0]] + Remove(FirstOccurrences(s[1..]), s[0])
  }

  lemma {:induction false} RemoveFacts<T>(s: seq<T>, x: T)
    ensures x !in Remove(s, x)
    ensures forall y :: y in Remove(s, x) <==> y in s && y != x
    ensures x !in s ==> Remove(s, x) == s
    ensures Distinct(s) ==> Distinct(Remove(s, x)) && |Remove(s, x)| == if x in s then |s| - 1 else |s|
  {
    if s != [] {
      RemoveFacts(s[1..], x);
      assert forall y :: y in s <==> y == s[0] || y in s[1..];
      if Distinct(s) {
        assert Distinct(s[1..]) && s[0] !in s[1..];
      }
    }
  }

  lemma {:induction false} FirstOccurrencesDistinct<T>(s: seq<T>)
    ensures Distinct(FirstOccurrences(s))
    ensures forall x :: x in FirstOccurrences(s) <==> x in s
  {
    if s != [] {
      FirstOccurrencesDistinct(s[1..]);
      RemoveFacts(FirstOccurrences(s[1..]), s[0]);
      assert forall x :: x in s <==> x == s[0] || x in s[1..];
    }
  }

  lemma {:induction false} RemoveNext<T>(s: seq<T>, x: T, y: T)
    ensures Remove(s + [y], x) == Remove(s, x) + if y == x then [] else [y]
  {
    if s == [] {
      assert s + [y] == [y];
    } else {
      assert (s + [y])[1..] == s[1..] + [y];
      RemoveNext(s[1..], x, y);
    }
  }

  /** One more element counts only if it is new. */
  lemma {:induction false} FirstOccurrencesNext<T>(s: seq<T>, x: T)
    ensures FirstOccurrences(s + [x]) == FirstOccurrences(s) + if x in s then [] else [x]
  {
    if s == [] {
      assert s + [x] == [x];
    } else {
      assert (s + [x])[1..] == s[1..] + [x];
      FirstOccurrencesNext(s[1..], x);
      var rest := FirstOccurrences(s[1..]);
      RemoveNext(rest, s[0], x);
      if x in s[1..] {
        assert rest + [] == rest;
        assert FirstOccurrences(s) + [] == FirstOccurrences(s);
      } else if x == s[0] {
        assert Remove(rest, x) + [] == Remove(rest, x);
        assert FirstOccurrences(s) + [] == FirstOccurrences(s);
      } else {
        assert [s[0]] + (Remove(rest, s[0]) + [x]) == FirstOccurrences(s) + [x];
      }
    }
  }
}
