// Shared vocabulary of the models: optional values, and sums over finite maps.

module Common {

  datatype Option<+T> = None | Some(value: T)

  function Max(a: int, b: int): (m: int)
    ensures m >= a && m >= b && (m == a || m == b)
  {
    if a < b then b else a
  }

  /** The sum of the values of a finite map, in no particular order. */
  ghost function SumValues<K>(m: map<K, nat>): nat
    decreases |m|
  {
    if |m| == 0 then 0
    else
      var k := SomeKey(m);
      SmallerWithout(m, k);
      m[k] + SumValues(m - {k})
  }

  ghost function SomeKey<K, V>(m: map<K, V>): (k: K)
    requires |m| != 0
    ensures k in m
  {
    var k :| k in m; k
  }

  ghost function SomeElement<T>(s: set<T>): (x: T)
    requires |s| != 0
    ensures x in s
  {
    var x :| x in s; x
  }

  /** Spelled out for integers, where the verifier does not find the element by itself. */
  lemma EmptyOrInhabited(s: set<int>)
    ensures s == {} || exists x :: x in s
  {
    if forall x :: x !in s { assert s == {}; }
  }

  lemma SmallerWithout<K, V>(m: map<K, V>, k: K)
    requires k in m
    ensures |m - {k}| == |m| - 1
  {
    assert (m - {k}).Keys == m.Keys - {k};
    assert |m.Keys| == |m| && |(m - {k}).Keys| == |m - {k}|;
  }

  lemma UpdatedElsewhere<K, V>(m: map<K, V>, k: K, v: V)
    ensures m[k := v] - {k} == m - {k}
  {
  }

  /** The sum may be taken starting from any key. */
  lemma {:induction false} SumWithout<K>(m: map<K, nat>, k: K)
    requires k in m
    ensures SumValues(m) == m[k] + SumValues(m - {k})
    decreases |m|
  {
    var j := SomeKey(m);
    if j != k {
      SmallerWithout(m, j);
      SmallerWithout(m, k);
      SumWithout(m - {j}, k);
      SumWithout(m - {k}, j);
      assert (m - {j}) - {k} == (m - {k}) - {j};
      assert SumValues(m) == m[j] + SumValues(m - {j});
    }
  }

  lemma SumUpdate<K>(m: map<K, nat>, k: K, v: nat)
    ensures SumValues(m[k := v]) == SumValues(m) - (if k in m then m[k] else 0) + v
  {
    SumWithout(m[k := v], k);
    assert m[k := v] - {k} == m - {k};
    if k in m {
      SumWithout(m, k);
    } else {
      assert m - {k} == m;
    }
  }

  /** Adding keys and raising values never lowers the sum. */
  lemma {:induction false} SumMonotone<K>(m: map<K, nat>, m': map<K, nat>)
    requires m.Keys <= m'.Keys
    requires forall k :: k in m ==> m[k] <= m'[k]
    ensures SumValues(m) <= SumValues(m')
    decreases |m|
  {
    if |m| > 0 {
      var k :| k in m;
      SmallerWithout(m, k);
      SumWithout(m, k);
      SumWithout(m', k);
      SumMonotone(m - {k}, m' - {k});
    }
  }

  predicate IsLeast(d: int, s: set<int>) { d in s && forall e :: e in s ==> d <= e }

  lemma {:induction false} LeastExists(s: set<int>)
    requires |s| != 0
    ensures exists d :: IsLeast(d, s)
    decreases |s|
  {
    var d := SomeElement(s);
    if s == {d} {
      assert IsLeast(d, s);
    } else {
      var others := s - {d};
      LeastExists(others);
      var rest :| IsLeast(rest, others);
      var best := if rest < d then rest else d;
      forall e | e in s ensures best <= e { assert e in others || e == d; }
      assert IsLeast(best, s);
    }
  }

  ghost function LeastOf(s: set<int>): (d: int)
    requires |s| != 0
    ensures IsLeast(d, s)
  {
    LeastExists(s);
    var d :| IsLeast(d, s);
    d
  }

  /** A loop over the entries of a map, in whatever order: the entries done so far and the keys still pending. */
  ghost predicate Partway<K(!new), V>(all: map<K, V>, done: map<K, V>, pending: set<K>) {
    && (forall k :: k in all <==> k in pending || k in done)
    && (forall k :: k in done ==> k in all && all[k] == done[k] && k !in pending)
  }

  lemma OneMoreDone<K(!new), V>(all: map<K, V>, done: map<K, V>, pending: set<K>, k: K)
    requires Partway(all, done, pending) && k in pending
    ensures k in all && k !in done && Partway(all, done[k := all[k]], pending - {k})
  {
  }

  lemma AllDone<K(!new), V>(all: map<K, V>, done: map<K, V>)
    requires Partway(all, done, {})
    ensures done == all
  {
    assert done.Keys == all.Keys;
  }

  lemma {:induction false} CardinalityMonotone<K>(a: set<K>, b: set<K>)
    requires a <= b
    ensures |a| <= |b|
  {
    if a != {} {
      var x :| x in a;
      CardinalityMonotone(a - {x}, b - {x});
    }
  }
}
