/** Sums over finite maps. */
module Sums {
  ghost function Sum(f: map<nat, nat>): nat
    decreases |f|
  {
    if f == map[] then 0
    else
      var a :| a in f;
      assert (f - {a}).Keys == f.Keys - {a};
      f[a] + Sum(f - {a})
  }

  /** Any entry can be taken out of a sum first. */
  lemma {:induction false} SumTakeOut(f: map<nat, nat>, a: nat)
    requires a in f
    ensures Sum(f) == f[a] + Sum(f - {a})
    decreases |f|
  {
    var x :| x in f && Sum(f) == f[x] + Sum(f - {x});
    if x != a {
      assert (f - {x}).Keys == f.Keys - {x};
      assert (f - {a}).Keys == f.Keys - {a};
      SumTakeOut(f - {x}, a);
      SumTakeOut(f - {a}, x);
      assert (f - {x}) - {a} == (f - {a}) - {x};
    }
  }

  lemma SumPut(f: map<nat, nat>, a: nat, v: nat)
    requires a in f
    ensures Sum(f[a := v]) == Sum(f) - f[a] + v
  {
    SumTakeOut(f, a);
    SumTakeOut(f[a := v], a);
    assert f[a := v] - {a} == f - {a};
  }

  lemma {:induction false} SumBounds(f: map<nat, nat>, a: nat)
    requires a in f
    ensures f[a] <= Sum(f)
  {
    SumTakeOut(f, a);
  }

  lemma {:induction false} SumMonotone(f: map<nat, nat>, g: map<nat, nat>)
    requires f.Keys == g.Keys && forall a :: a in f ==> f[a] <= g[a]
    ensures Sum(f) <= Sum(g)
    decreases |f|
  {
    if f == map[] {
      assert g == map[];
    } else {
      var a :| a in f;
      SumTakeOut(f, a);
      SumTakeOut(g, a);
      assert (f - {a}).Keys == f.Keys - {a};
      SumMonotone(f - {a}, g - {a});
    }
  }

  /** Adding one at each key of a set adds the size of the set. */
  lemma {:induction false} SumRaised(f: map<nat, nat>, g: map<nat, nat>, raised: set<nat>)
    requires f.Keys == g.Keys && raised <= f.Keys
    requires forall a :: a in f ==> g[a] == f[a] + if a in raised then 1 else 0
    ensures Sum(g) == Sum(f) + |raised|
    decreases |f|
  {
    if f == map[] {
      assert g == map[] && raised == {};
    } else {
      var a :| a in f;
      SumTakeOut(f, a);
      SumTakeOut(g, a);
      assert (f - {a}).Keys == f.Keys - {a};
      SumRaised(f - {a}, g - {a}, raised - {a});
    }
  }
}
