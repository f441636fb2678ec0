/** Going through a Go map: the keys come in an arbitrary order, each exactly once. */
module MapOrder {

  /** The key that the iteration happens to visit next. */
  method Next<K(==)>(keys: set<K>) returns (k: K)
    requires keys != {}
    ensures k in keys
  {
    k :| k in keys;
  }

  lemma Member<K>(keys: set<K>) returns (k: K)
    requires keys != {}
    ensures k in keys
  {
    k :| k in keys;
  }

  /** Some key, always the same. */
  ghost function Any<K>(keys: set<K>): (k: K)
    requires keys != {}
    ensures k in keys
  {
    var k :| k in keys;
    k
  }

  /** The sum of `f` over a finite set of keys, which depends on no order. */
  ghost function SumOver<K>(keys: set<K>, f: K -> int): int {
    if keys == {} then 0
    else
      var k :| k in keys;
      f(k) + SumOver(keys - {k}, f)
  }

  /** Any key may be taken out first. */
  lemma {:induction false} SumOverTakes<K>(keys: set<K>, f: K -> int, k: K)
    requires k in keys
    ensures SumOver(keys, f) == f(k) + SumOver(keys - {k}, f)
    decreases |keys|
  {
    var x :| x in keys && SumOver(keys, f) == f(x) + SumOver(keys - {x}, f);
    if x != k {
      SumOverTakes(keys - {x}, f, k);
      SumOverTakes(keys - {k}, f, x);
      assert keys - {x} - {k} == keys - {k} - {x};
    }
  }

  /** The same for real values. */
  ghost function RealSumOver<K>(keys: set<K>, f: K -> real): real {
    if keys == {} then 0.0
    else
      var k :| k in keys;
      f(k) + RealSumOver(keys - {k}, f)
  }

  lemma {:induction false} RealSumOverTakes<K>(keys: set<K>, f: K -> real, k: K)
    requires k in keys
    ensures RealSumOver(keys, f) == f(k) + RealSumOver(keys - {k}, f)
    decreases |keys|
  {
    var x :| x in keys && RealSumOver(keys, f) == f(x) + RealSumOver(keys - {x}, f);
    if x != k {
      RealSumOverTakes(keys - {x}, f, k);
      RealSumOverTakes(keys - {k}, f, x);
      assert keys - {x} - {k} == keys - {k} - {x};
    }
  }
}
