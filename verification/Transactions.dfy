/** Transactions and nonce-keyed collections of them, as values. */
module Transactions {

  type Address = nat

  /** A signed transaction; its content hash identifies it, so equal hashes mean equal values. */
  datatype Tx = Tx(sender: Address, nonce: nat, price: nat, gas: nat, value: nat, payload: nat) {
    /** What the sender must be able to pay: the value plus the gas bought at the gas price. */
    function Cost(): nat {
      value + price * gas
    }
  }

  type TxMap = map<nat, Tx>

  /** Each transaction is filed under its own nonce. */
  predicate ByNonce(m: TxMap) {
    forall n :: n in m ==> m[n].nonce == n
  }

  function Below(m: TxMap, threshold: nat): TxMap {
    map n | n in m && n < threshold :: m[n]
  }

  function AtLeast(m: TxMap, threshold: nat): TxMap {
    map n | n in m && n >= threshold :: m[n]
  }

  /** The first nonce from `n` on that is missing from `m`. */
  function RunEnd(m: TxMap, n: nat): (e: nat)
    ensures n <= e && e !in m
    ensures forall k: nat :: n <= k < e ==> k in m
    decreases |m|
  {
    if n in m then
      assert (m - {n}).Keys == m.Keys - {n};
      var e := RunEnd(m - {n}, n + 1);
      assert forall k: nat :: n < k < e ==> k in m by {
        forall k: nat | n < k < e
          ensures k in m
        {
          assert k in m - {n};
        }
      }
      e
    else n
  }

  predicate IsLeast(n: nat, s: set<nat>) {
    n in s && forall k :: k in s ==> n <= k
  }

  lemma {:induction false} LeastExists(s: set<nat>)
    requires s != {}
    ensures exists n :: IsLeast(n, s)
  {
    var x :| x in s;
    if s != {x} {
      LeastExists(s - {x});
      var n :| IsLeast(n, s - {x});
      var least := if x < n then x else n;
      forall k | k in s
        ensures least <= k
      {
        assert k != x ==> k in s - {x};
      }
      assert IsLeast(least, s);
    } else {
      assert IsLeast(x, s);
    }
  }

  function Least(s: set<nat>): (n: nat)
    requires s != {}
    ensures IsLeast(n, s)
  {
    LeastExists(s);
    var n :| n in s && forall k :: k in s ==> n <= k;
    n
  }

  lemma {:induction false} GreatestExists(s: set<nat>)
    requires s != {}
    ensures exists n :: n in s && forall k :: k in s ==> k <= n
  {
    var x :| x in s;
    if s != {x} {
      GreatestExists(s - {x});
      var n :| n in s - {x} && forall k :: k in s - {x} ==> k <= n;
      var greatest := if x > n then x else n;
      forall k | k in s
        ensures k <= greatest
      {
        assert k != x ==> k in s - {x};
      }
    }
  }

  function Greatest(s: set<nat>): (n: nat)
    requires s != {}
    ensures n in s && forall k :: k in s ==> k <= n
  {
    GreatestExists(s);
    var n :| n in s && forall k :: k in s ==> k <= n;
    n
  }

  /** The transactions of `m` by increasing nonce. */
  function Listing(m: TxMap): (s: seq<Tx>)
    decreases |m|
  {
    if m == map[] then []
    else
      var n := Least(m.Keys);
      assert (m - {n}).Keys == m.Keys - {n};
      [m[n]] + Listing(m - {n})
  }

  /** A listing begins with the transaction of the least nonce. */
  lemma ListingFirst(m: TxMap, n: nat)
    requires IsLeast(n, m.Keys)
    ensures Listing(m) == [m[n]] + Listing(m - {n})
    ensures |m - {n}| == |m| - 1
  {
    assert Least(m.Keys) == n;
    assert (m - {n}).Keys == m.Keys - {n};
  }

  lemma {:induction false} ListingSize(m: TxMap)
    ensures |Listing(m)| == |m|
    decreases |m|
  {
    if m != map[] {
      var n := Least(m.Keys);
      ListingFirst(m, n);
      ListingSize(m - {n});
    }
  }

  lemma {:induction false} ListingMember(m: TxMap, tx: Tx)
    requires ByNonce(m)
    ensures tx in Listing(m) <==> tx.nonce in m && m[tx.nonce] == tx
    decreases |m|
  {
    if m != map[] {
      var n := Least(m.Keys);
      ListingFirst(m, n);
      ListingMember(m - {n}, tx);
    }
  }

  /** A listing is in strictly increasing nonce order. */
  lemma {:induction false} ListingIncreases(m: TxMap, i: nat, j: nat)
    requires ByNonce(m) && i < j < |Listing(m)|
    ensures Listing(m)[i].nonce < Listing(m)[j].nonce
    decreases |m|
  {
    var n := Least(m.Keys);
    var rest := m - {n};
    ListingFirst(m, n);
    if i == 0 {
      var tx := Listing(rest)[j - 1];
      ListingMember(rest, tx);
      assert tx in Listing(rest);
    } else {
      ListingIncreases(rest, i - 1, j - 1);
    }
  }

  lemma {:induction false} ListingSplits(m: TxMap, threshold: nat)
    ensures Listing(m) == Listing(Below(m, threshold)) + Listing(AtLeast(m, threshold))
    decreases |m|
  {
    if m == map[] {
      assert Below(m, threshold) == map[] && AtLeast(m, threshold) == map[];
    } else {
      var n := Least(m.Keys);
      ListingFirst(m, n);
      SplitMinus(m, threshold, n);
      if n < threshold {
        ListingSplits(m - {n}, threshold);
        assert IsLeast(n, Below(m, threshold).Keys);
        ListingFirst(Below(m, threshold), n);
      }
    }
  }

  lemma SplitMinus(m: TxMap, threshold: nat, n: nat)
    requires IsLeast(n, m.Keys)
    ensures n < threshold ==>
              && Below(m - {n}, threshold) == Below(m, threshold) - {n}
              && AtLeast(m - {n}, threshold) == AtLeast(m, threshold)
    ensures n >= threshold ==> Below(m, threshold) == map[] && AtLeast(m, threshold) == m
  {
  }

  lemma CancelSuffix<T>(a: seq<T>, b: seq<T>, c: seq<T>)
    requires a + c == b + c
    ensures a == b
  {
    assert |a + c| == |b + c|;
    assert (a + c)[..|a|] == a && (b + c)[..|b|] == b;
  }

  /** The nonces `m` holds are an interval. */
  ghost predicate Interval(m: TxMap, lo: nat, hi: nat) {
    lo <= hi && forall n: nat :: n in m <==> lo <= n < hi
  }

  function Nonces(lo: nat, hi: nat): (s: set<nat>)
    requires lo <= hi
    ensures |s| == hi - lo
    ensures forall n: nat :: n in s <==> lo <= n < hi
    decreases hi - lo
  {
    if lo == hi then {} else {lo} + Nonces(lo + 1, hi)
  }

  lemma IntervalSize(m: TxMap, lo: nat, hi: nat)
    requires Interval(m, lo, hi)
    ensures |m| == hi - lo
  {
    assert m.Keys == Nonces(lo, hi);
  }
}
