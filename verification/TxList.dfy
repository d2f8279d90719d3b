/** The per-account transaction list: a nonce-sorted map with upper bounds on the cost and the gas
    of its transactions, which let a filter be skipped. */
module TxLists {
  import opened Options
  import opened Transactions
  import opened SortedMaps

  /** A replacement must exceed the old gas price by the given percentage. */
  predicate Outbids(tx: Tx, replaced: Tx, priceBump: nat) {
    tx.price > replaced.price * (100 + priceBump) / 100
  }

  predicate Accepts(m: TxMap, tx: Tx, priceBump: nat) {
    tx.nonce in m ==> Outbids(tx, m[tx.nonce], priceBump)
  }

  predicate Unpayable(tx: Tx, costLimit: nat, gasLimit: nat) {
    tx.Cost() > costLimit || tx.gas > gasLimit
  }

  function TooCostly(costLimit: nat, gasLimit: nat): Tx -> bool {
    (tx: Tx) => Unpayable(tx, costLimit, gasLimit)
  }

  function Above(nonce: nat): Tx -> bool {
    (tx: Tx) => tx.nonce > nonce
  }

  /** The transactions whose cost or gas exceeds a limit. */
  function Costly(m: TxMap, costLimit: nat, gasLimit: nat): TxMap {
    map n | n in m && Unpayable(m[n], costLimit, gasLimit) :: m[n]
  }

  function Affordable(m: TxMap, costLimit: nat, gasLimit: nat): TxMap {
    map n | n in m && !Unpayable(m[n], costLimit, gasLimit) :: m[n]
  }

  /** What a filter keeps: in strict mode nothing above the lowest removed nonce. */
  function FilterKeeps(m: TxMap, strict: bool, costLimit: nat, gasLimit: nat): TxMap {
    var costly := Costly(m, costLimit, gasLimit);
    if strict && costly.Keys != {} then Below(m, Least(costly.Keys))
    else Affordable(m, costLimit, gasLimit)
  }

  /** What a filter invalidates: affordable transactions left behind a gap. */
  function FilterInvalidates(m: TxMap, strict: bool, costLimit: nat, gasLimit: nat): TxMap {
    var costly := Costly(m, costLimit, gasLimit);
    if strict && costly.Keys != {} then AtLeast(Affordable(m, costLimit, gasLimit), Least(costly.Keys))
    else map[]
  }

  ghost predicate Capped(m: TxMap, costcap: nat, gascap: nat) {
    forall n :: n in m ==> m[n].Cost() <= costcap && m[n].gas <= gascap
  }

  /** Kept, removed and invalidated transactions partition the list. */
  lemma FilterPartitions(m: TxMap, strict: bool, costLimit: nat, gasLimit: nat)
    ensures var kept, removed, invalid := FilterKeeps(m, strict, costLimit, gasLimit),
                Costly(m, costLimit, gasLimit), FilterInvalidates(m, strict, costLimit, gasLimit);
            && kept + removed + invalid == m
            && kept.Keys !! removed.Keys !! invalid.Keys
  {
  }

  /** The lowest nonce that cannot be paid for, or the end of the list. */
  ghost function FilterEnd(m: TxMap, hi: nat, costLimit: nat, gasLimit: nat): nat {
    var costly := Costly(m, costLimit, gasLimit);
    if costly.Keys == {} then hi else Least(costly.Keys)
  }

  /** In strict mode a contiguous list stays a contiguous prefix, ending at the lowest costly nonce. */
  lemma FilterKeepsPrefix(m: TxMap, lo: nat, hi: nat, costLimit: nat, gasLimit: nat)
    requires Interval(m, lo, hi)
    ensures lo <= FilterEnd(m, hi, costLimit, gasLimit) <= hi
    ensures Interval(FilterKeeps(m, true, costLimit, gasLimit), lo, FilterEnd(m, hi, costLimit, gasLimit))
  {
    var costly := Costly(m, costLimit, gasLimit);
    if costly.Keys == {} {
      assert forall n :: n in m && Unpayable(m[n], costLimit, gasLimit) ==> n in costly;
      assert Affordable(m, costLimit, gasLimit) == m;
    } else {
      assert Least(costly.Keys) in m;
    }
  }

  lemma SelectsCostly(m: TxMap, costLimit: nat, gasLimit: nat)
    ensures Selected(m, TooCostly(costLimit, gasLimit)) == Costly(m, costLimit, gasLimit)
    ensures Rejected(m, TooCostly(costLimit, gasLimit)) == Affordable(m, costLimit, gasLimit)
  {
  }

  class TxList {
    const strict: bool
    const txs: TxSortedMap
    var costcap: nat
    var gascap: nat

    /** The caps bound every listed transaction. */
    ghost predicate Valid()
      reads this, txs
    {
      txs.Valid() && Capped(txs.items, costcap, gascap)
    }

    constructor (strict: bool)
      ensures Valid() && this.strict == strict && txs.items == map[] && fresh(txs)
    {
      this.strict := strict;
      txs := new TxSortedMap();
      costcap, gascap := 0, 0;
    }

    /** Inserts a transaction unless an older one with the same nonce is not outbid. */
    method Add(tx: Tx, priceBump: nat) returns (inserted: bool, replaced: Option<Tx>)
      requires Valid()
      modifies this, txs
      ensures Valid()
      ensures inserted == Accepts(old(txs.items), tx, priceBump)
      ensures txs.items == if inserted then old(txs.items)[tx.nonce := tx] else old(txs.items)
      ensures replaced == if inserted && tx.nonce in old(txs.items) then Some(old(txs.items)[tx.nonce]) else None
    {
      var older := txs.Get(tx.nonce);
      if older != None {
        var threshold := older.value.price * (100 + priceBump) / 100;
        if threshold >= tx.price {
          return false, None;
        }
      }
      txs.Put(tx);
      if costcap < tx.Cost() {
        costcap := tx.Cost();
      }
      if gascap < tx.gas {
        gascap := tx.gas;
      }
      return true, older;
    }

    method Forward(threshold: nat) returns (removed: seq<Tx>)
      requires Valid()
      modifies txs
      ensures Valid()
      ensures txs.items == AtLeast(old(txs.items), threshold)
      ensures removed == Listing(Below(old(txs.items), threshold))
    {
      removed := txs.Forward(threshold);
    }

    /** Removes what an unconditional filter would, even when the caps let it skip the work. */
    method Filter(costLimit: nat, gasLimit: nat) returns (removed: seq<Tx>, invalids: seq<Tx>)
      requires Valid()
      modifies this, txs
      ensures Valid()
      ensures txs.items == FilterKeeps(old(txs.items), strict, costLimit, gasLimit)
      ensures multiset(removed) == multiset(Txs(Costly(old(txs.items), costLimit, gasLimit)))
      ensures multiset(invalids) == multiset(Txs(FilterInvalidates(old(txs.items), strict, costLimit, gasLimit)))
    {
      ghost var was := txs.items;
      if costcap <= costLimit && gascap <= gasLimit {
        SkipIsHarmless(was, strict, costcap, gascap, costLimit, gasLimit);
        return [], [];
      }
      costcap, gascap := costLimit, gasLimit;
      removed := txs.Filter(TooCostly(costLimit, gasLimit));
      invalids := [];
      SelectsCostly(was, costLimit, gasLimit);
      if strict && |removed| > 0 {
        var lowest := LowestNonce(removed, Costly(was, costLimit, gasLimit));
        invalids := txs.Filter(Above(lowest));
        StrictTail(was, costLimit, gasLimit);
      } else {
        NoneRemoved(removed, Costly(was, costLimit, gasLimit));
      }
    }

    method LowestNonce(removed: seq<Tx>, ghost m: TxMap) returns (lowest: nat)
      requires ByNonce(m) && |removed| > 0 && multiset(removed) == multiset(Txs(m))
      ensures m.Keys != {} && lowest == Least(m.Keys)
    {
      lowest := removed[0].nonce;
      for i := 0 to |removed|
        invariant exists k :: 0 <= k < |removed| && lowest == removed[k].nonce
        invariant forall k :: 0 <= k < i ==> lowest <= removed[k].nonce
      {
        if lowest > removed[i].nonce {
          lowest := removed[i].nonce;
        }
      }
      LowestIsLeast(removed, m, lowest);
    }

    method Cap(threshold: nat) returns (drops: seq<Tx>)
      requires Valid()
      modifies txs
      ensures Valid()
      ensures |old(txs.items)| <= threshold ==> txs.items == old(txs.items) && drops == []
      ensures |old(txs.items)| > threshold ==> |txs.items| == threshold
      ensures Listing(old(txs.items)) == Listing(txs.items) + Reversed(drops)
      ensures txs.items.Keys <= old(txs.items).Keys && forall n :: n in txs.items ==> txs.items[n] == old(txs.items)[n]
    {
      drops := txs.Cap(threshold);
    }

    /** Removes a nonce; in strict mode everything above it goes too and is returned. */
    method Remove(tx: Tx) returns (found: bool, invalids: seq<Tx>)
      requires Valid()
      modifies txs
      ensures Valid()
      ensures found == (tx.nonce in old(txs.items))
      ensures txs.items == if strict && found then Below(old(txs.items), tx.nonce) else old(txs.items) - {tx.nonce}
      ensures multiset(invalids) == multiset(Txs(if strict && found then AtLeast(old(txs.items), tx.nonce + 1) else map[]))
    {
      hide Selected, Rejected, Below, AtLeast, Txs, Capped;
      ghost var was := txs.items;
      var nonce := tx.nonce;
      RemovedTail(was, nonce, costcap, gascap);
      found := txs.Remove(nonce);
      if !found {
        return false, [];
      }
      if strict {
        invalids := txs.Filter(Above(nonce));
        return true, invalids;
      }
      return true, [];
    }

    method Ready(start: nat) returns (ready: seq<Tx>)
      requires Valid()
      modifies txs
      ensures Valid()
      ensures txs.items == (var e := ReadyEnd(old(txs.items), start); AtLeast(old(txs.items), e))
      ensures ready == (var e := ReadyEnd(old(txs.items), start); Listing(Below(old(txs.items), e)))
    {
      ready := txs.Ready(start);
    }
  }

  lemma SkipIsHarmless(m: TxMap, strict: bool, costcap: nat, gascap: nat, costLimit: nat, gasLimit: nat)
    requires Capped(m, costcap, gascap) && costcap <= costLimit && gascap <= gasLimit
    ensures Costly(m, costLimit, gasLimit) == map[] && FilterKeeps(m, strict, costLimit, gasLimit) == m
    ensures Txs(map[]) == {} && FilterInvalidates(m, strict, costLimit, gasLimit) == map[]
  {
    assert Costly(m, costLimit, gasLimit).Keys == {};
  }

  /** Filtering by nonce after the first filter leaves what lies below the lowest removed nonce. */
  lemma StrictTail(m: TxMap, costLimit: nat, gasLimit: nat)
    requires ByNonce(m) && Costly(m, costLimit, gasLimit).Keys != {}
    ensures var lowest := Least(Costly(m, costLimit, gasLimit).Keys);
            && Rejected(Affordable(m, costLimit, gasLimit), Above(lowest)) == FilterKeeps(m, true, costLimit, gasLimit)
            && Selected(Affordable(m, costLimit, gasLimit), Above(lowest)) == FilterInvalidates(m, true, costLimit, gasLimit)
  {
    var costly := Costly(m, costLimit, gasLimit);
    var lowest := Least(costly.Keys);
    assert forall n :: n in m && Unpayable(m[n], costLimit, gasLimit) ==> n in costly;
    assert lowest in costly && Unpayable(m[lowest], costLimit, gasLimit);
    assert forall n :: n in m && n < lowest ==> n in Affordable(m, costLimit, gasLimit);
  }

  lemma RemovedTail(m: TxMap, nonce: nat, costcap: nat, gascap: nat)
    requires ByNonce(m) && Capped(m, costcap, gascap)
    ensures Capped(m - {nonce}, costcap, gascap) && Capped(Below(m, nonce), costcap, gascap)
    ensures Selected(m - {nonce}, Above(nonce)) == AtLeast(m, nonce + 1)
    ensures Rejected(m - {nonce}, Above(nonce)) == Below(m, nonce)
    ensures nonce !in m ==> m - {nonce} == m
    ensures Txs(map[]) == {}
  {
  }

  lemma NoneRemoved(removed: seq<Tx>, m: TxMap)
    requires multiset(removed) == multiset(Txs(m))
    ensures |removed| == 0 ==> m.Keys == {}
    ensures Txs(map[]) == {}
  {
    assert |multiset(removed)| == |Txs(m)|;
    assert forall n :: n in m ==> m[n] in Txs(m);
  }

  lemma LowestIsLeast(removed: seq<Tx>, m: TxMap, lowest: nat)
    requires ByNonce(m) && |removed| > 0 && multiset(removed) == multiset(Txs(m))
    requires exists k :: 0 <= k < |removed| && lowest == removed[k].nonce
    requires forall k :: 0 <= k < |removed| ==> lowest <= removed[k].nonce
    ensures m.Keys != {} && lowest == Least(m.Keys)
  {
    forall tx
      ensures tx in removed <==> tx in Txs(m)
    {
      assert tx in multiset(removed) <==> tx in multiset(Txs(m));
    }
    var k :| 0 <= k < |removed| && lowest == removed[k].nonce;
    assert removed[k] in Txs(m);
    forall n | n in m
      ensures lowest <= n
    {
      assert m[n] in Txs(m);
      assert m[n] in removed;
    }
  }
}
