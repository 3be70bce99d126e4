/** Sums over finite sets of keys: the "SELECT SUM(...)" that the money properties are about. */
module Sums {

  ghost function SumOver<K>(keys: set<K>, f: K -> int): int
    decreases |keys|
  {
    if keys == {} then 0
    else
      var k :| k in keys;
      f(k) + SumOver(keys - {k}, f)
  }

  /** The order in which SumOver picks the keys does not matter. */
  lemma {:induction false} SumExtract<K>(keys: set<K>, f: K -> int, k: K)
    requires k in keys
    ensures SumOver(keys, f) == f(k) + SumOver(keys - {k}, f)
    decreases |keys|
  {
    var j :| j in keys && SumOver(keys, f) == f(j) + SumOver(keys - {j}, f);
    if j != k {
      SumExtract(keys - {j}, f, k);
      SumExtract(keys - {k}, f, j);
      assert (keys - {j}) - {k} == (keys - {k}) - {j};
    }
  }

  lemma {:induction false} SumSame<K>(keys: set<K>, f: K -> int, g: K -> int)
    requires forall k | k in keys :: f(k) == g(k)
    ensures SumOver(keys, f) == SumOver(keys, g)
    decreases |keys|
  {
    if keys != {} {
      var k :| k in keys;
      SumExtract(keys, f, k);
      SumExtract(keys, g, k);
      SumSame(keys - {k}, f, g);
    }
  }

  /** One key is added, or its summand changed. */
  lemma SumChange<K>(keys: set<K>, f: K -> int, g: K -> int, k: K)
    requires forall j | j in keys && j != k :: f(j) == g(j)
    ensures SumOver(keys + {k}, g) == SumOver(keys, f) - (if k in keys then f(k) else 0) + g(k)
  {
    SumExtract(keys + {k}, g, k);
    assert keys + {k} - {k} == keys - {k};
    SumSame(keys - {k}, f, g);
    if k in keys {
      SumExtract(keys, f, k);
    } else {
      assert keys - {k} == keys;
    }
  }

  /** A smaller selection of non-negative summands has a smaller sum. */
  lemma {:induction false} SumLe<K>(some: set<K>, f: K -> int, more: set<K>, g: K -> int)
    requires forall k | k in some :: f(k) <= if k in more then g(k) else 0
    requires forall k | k in more :: 0 <= g(k)
    ensures SumOver(some, f) <= SumOver(more, g)
    decreases |more| + |some|
  {
    if more != {} {
      var k :| k in more;
      SumExtract(more, g, k);
      SumLe(some - {k}, f, more - {k}, g);
      if k in some {
        SumExtract(some, f, k);
      } else {
        assert some - {k} == some;
      }
    } else if some != {} {
      var k :| k in some;
      SumExtract(some, f, k);
      SumLe(some - {k}, f, {}, g);
    }
  }

  lemma SumNonNegative<K>(keys: set<K>, f: K -> int)
    requires forall k | k in keys :: 0 <= f(k)
    ensures 0 <= SumOver(keys, f)
  {
    SumLe({}, f, keys, f);
  }

  lemma SumZero<K>(keys: set<K>, f: K -> int)
    requires forall k | k in keys :: f(k) == 0
    ensures SumOver(keys, f) == 0
  {
    SumNonNegative(keys, f);
    SumLe(keys, f, {}, f);
  }

  lemma {:induction false} SumUnion<K>(a: set<K>, b: set<K>, f: K -> int)
    requires a !! b
    ensures SumOver(a + b, f) == SumOver(a, f) + SumOver(b, f)
    decreases |a|
  {
    if a == {} {
      assert a + b == b;
    } else {
      var k :| k in a;
      SumExtract(a, f, k);
      SumExtract(a + b, f, k);
      assert a + b - {k} == (a - {k}) + b;
      SumUnion(a - {k}, b, f);
    }
  }

  // ---- Sums of maps ----

  function ValueOr0<K>(m: map<K, int>): K -> int {
    k => if k in m then m[k] else 0
  }

  ghost function Sum<K>(m: map<K, int>): int {
    SumOver(m.Keys, ValueOr0(m))
  }

  lemma SumUpdate<K>(m: map<K, int>, k: K, v: int)
    ensures Sum(m[k := v]) == Sum(m) - ValueOr0(m)(k) + v
  {
    assert m[k := v].Keys == m.Keys + {k};
    SumChange(m.Keys, ValueOr0(m), ValueOr0(m[k := v]), k);
  }
}
