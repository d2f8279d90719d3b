/** The global queue limit: whole remote queues are dropped in a given order, the last one only in part. */
module QueueLimits {
  import opened Transactions
  import opened Books
  import opened WaterLevels

  /** The queues after `drop` transactions have been dropped, taking the accounts of `order` from its end. */
  function Trim(m: Lists, order: seq<Address>, drop: nat): Lists
    decreases |order|
  {
    if order == [] || drop == 0 then m
    else
      var a, rest := order[|order| - 1], order[..|order| - 1];
      var l := ListOf(m, a);
      if |l| <= drop then Trim(File(m, a, map[]), rest, drop - |l|)
      else File(m, a, Lowest(l, |l| - drop))
  }

  /** By how much the queues exceed the limit. */
  ghost function Overflow(m: Lists, limit: nat): nat {
    if Total(m) > limit then Total(m) - limit else 0
  }

  lemma OverflowIs(m: Lists, limit: nat)
    ensures Overflow(m, limit) == if Total(m) > limit then Total(m) - limit else 0
  {
  }

  ghost predicate Shrunk(now: Lists, was: Lists, only: set<Address>) {
    forall a {:trigger ListOf(now, a)} :: Prefix(ListOf(now, a), ListOf(was, a)) && (a !in only ==> ListOf(now, a) == ListOf(was, a))
  }

  lemma PrefixTransitive(m: TxMap, k: TxMap, p: TxMap)
    requires Prefix(m, k) && Prefix(k, p)
    ensures Prefix(m, p)
  {
  }

  lemma ShrunkTransitive(now: Lists, mid: Lists, was: Lists, some: set<Address>, only: set<Address>)
    requires Shrunk(now, mid, some) && Shrunk(mid, was, only) && some <= only
    ensures Shrunk(now, was, only)
  {
    forall a
      ensures Prefix(ListOf(now, a), ListOf(was, a)) && (a !in only ==> ListOf(now, a) == ListOf(was, a))
    {
      assert Prefix(ListOf(now, a), ListOf(mid, a)) && Prefix(ListOf(mid, a), ListOf(was, a));
      PrefixTransitive(ListOf(now, a), ListOf(mid, a), ListOf(was, a));
    }
  }

  lemma FileShrinks(m: Lists, a: Address, l: TxMap)
    requires Prefix(l, ListOf(m, a))
    ensures Shrunk(File(m, a, l), m, {a})
  {
  }

  lemma FileTotal(m: Lists, a: Address, l: TxMap)
    ensures Total(File(m, a, l)) == Total(m) - |ListOf(m, a)| + |l|
  {
    hide *;
    SizesWithout(m, a);
    SizesWithout(File(m, a, l), a);
    FileWithout(m, a, l);
  }

  lemma FileWithout(m: Lists, a: Address, l: TxMap)
    ensures File(m, a, l) - {a} == m - {a}
  {
  }

  lemma {:induction false} LowestIsPrefix(l: TxMap, k: nat)
    requires k <= |l|
    ensures Prefix(Lowest(l, k), l) && |Lowest(l, k)| == k
    decreases k
  {
    hide Lowest, Prefix, Least;
    LowestNext(l, k);
    if k > 0 {
      var n := Least(l.Keys);
      LowestIsPrefix(l - {n}, k - 1);
      PrefixPut(Lowest(l - {n}, k - 1), l, n);
    }
  }

  lemma LowestNext(l: TxMap, k: nat)
    requires k <= |l|
    ensures k == 0 ==> Prefix(Lowest(l, k), l) && |Lowest(l, k)| == 0
    ensures k > 0 ==>
              && l.Keys != {} && var n := Least(l.Keys);
              && n in l && IsLeast(n, l.Keys) && |l - {n}| == |l| - 1 && Lowest(l, k) == Lowest(l - {n}, k - 1)[n := l[n]]
  {
    assert |l| == |l.Keys|;
    if k > 0 {
      var n := Least(l.Keys);
      assert (l - {n}).Keys == l.Keys - {n};
    }
  }

  lemma PrefixPut(m: TxMap, l: TxMap, n: nat)
    requires n in l && IsLeast(n, l.Keys) && Prefix(m, l - {n})
    ensures Prefix(m[n := l[n]], l) && |m[n := l[n]]| == |m| + 1
  {
    assert n !in m;
    assert m[n := l[n]].Keys == m.Keys + {n};
  }

  ghost predicate Emptied(m: Lists, accounts: set<Address>) {
    forall a {:trigger ListOf(m, a)} :: a in accounts ==> ListOf(m, a) == map[]
  }

  lemma StaysEmptied(now: Lists, mid: Lists, accounts: set<Address>, a: Address)
    requires Emptied(now, accounts) && Shrunk(now, mid, accounts) && ListOf(mid, a) == map[]
    ensures Emptied(now, accounts + {a})
  {
    assert Prefix(ListOf(now, a), ListOf(mid, a));
    assert ListOf(now, a) == map[];
  }

  lemma NothingShrunk(m: Lists, only: set<Address>)
    ensures Shrunk(m, m, only)
  {
  }

  lemma ElemsLast(order: seq<Address>)
    requires order != []
    ensures Elems(order) == Elems(order[..|order| - 1]) + {order[|order| - 1]}
  {
    assert order == order[..|order| - 1] + [order[|order| - 1]];
  }

  lemma TrimTakesAll(m: Lists, order: seq<Address>, drop: nat, a: Address, rest: seq<Address>)
    requires order != [] && drop > 0 && a == order[|order| - 1] && rest == order[..|order| - 1]
    requires |ListOf(m, a)| <= drop
    ensures Trim(m, order, drop) == Trim(File(m, a, map[]), rest, drop - |ListOf(m, a)|)
  {
    hide File, Lowest, ListOf;
  }

  lemma TrimTakesPart(m: Lists, order: seq<Address>, drop: nat, a: Address)
    requires order != [] && 0 < drop < |ListOf(m, a)| && a == order[|order| - 1]
    ensures Trim(m, order, drop) == File(m, a, Lowest(ListOf(m, a), |ListOf(m, a)| - drop))
  {
    hide File, Lowest, ListOf;
  }

  lemma PrefixOfNone(p: TxMap)
    ensures Prefix(map[], p)
  {
  }

  /** What the limit achieves: exactly `drop` transactions go, or every account of the order is emptied. */
  ghost predicate Trimmed(now: Lists, m: Lists, accounts: set<Address>, drop: nat) {
    && Shrunk(now, m, accounts) && Total(now) >= Total(m) - drop
    && (Total(now) == Total(m) - drop || Emptied(now, accounts))
  }

  lemma TrimNothing(m: Lists, order: seq<Address>, drop: nat)
    requires order == [] || drop == 0
    ensures Trimmed(Trim(m, order, drop), m, Elems(order), drop)
  {
    hide Total;
    NothingShrunk(m, Elems(order));
  }

  lemma TrimPart(m: Lists, a: Address, drop: nat, accounts: set<Address>)
    requires drop < |ListOf(m, a)| && a in accounts
    ensures Trimmed(File(m, a, Lowest(ListOf(m, a), |ListOf(m, a)| - drop)), m, accounts, drop)
  {
    hide Total, Lowest, Prefix, File;
    var l := ListOf(m, a);
    LowestIsPrefix(l, |l| - drop);
    FileTotal(m, a, Lowest(l, |l| - drop));
    FileShrinks(m, a, Lowest(l, |l| - drop));
    ShrunkWider(File(m, a, Lowest(l, |l| - drop)), m, a, accounts);
  }

  lemma TrimWhole(now: Lists, m: Lists, a: Address, drop: nat, rest: set<Address>)
    requires |ListOf(m, a)| <= drop && Trimmed(now, File(m, a, map[]), rest, drop - |ListOf(m, a)|)
    ensures Trimmed(now, m, rest + {a}, drop)
  {
    hide Total, Prefix, File;
    PrefixOfNone(ListOf(m, a));
    FileTotal(m, a, map[]);
    FileShrinks(m, a, map[]);
    var mid := File(m, a, map[]);
    ShrunkMore(now, mid, m, rest, a);
    if Emptied(now, rest) {
      StaysEmptied(now, mid, rest, a);
    }
  }

  lemma {:induction false} TrimDrops(m: Lists, order: seq<Address>, drop: nat)
    ensures Trimmed(Trim(m, order, drop), m, Elems(order), drop)
    decreases |order|
  {
    hide *;
    if order == [] || drop == 0 {
      TrimNothing(m, order, drop);
    } else {
      var a, rest := order[|order| - 1], order[..|order| - 1];
      var l := ListOf(m, a);
      ElemsLast(order);
      if |l| <= drop {
        TrimTakesAll(m, order, drop, a, rest);
        TrimDrops(File(m, a, map[]), rest, drop - |l|);
        TrimWhole(Trim(File(m, a, map[]), rest, drop - |l|), m, a, drop, Elems(rest));
      } else {
        TrimTakesPart(m, order, drop, a);
        TrimPart(m, a, drop, Elems(order));
      }
    }
  }

  lemma ShrunkWider(now: Lists, m: Lists, a: Address, only: set<Address>)
    requires Shrunk(now, m, {a}) && a in only
    ensures Shrunk(now, m, only)
  {
  }

  lemma ShrunkMore(now: Lists, mid: Lists, m: Lists, rest: set<Address>, a: Address)
    requires Shrunk(now, mid, rest) && Shrunk(mid, m, {a})
    ensures Shrunk(now, m, rest + {a})
  {
    ShrunkWider(mid, m, a, rest + {a});
    ShrunkTransitive(now, mid, m, rest, rest + {a});
  }

  /** The k-th transaction by nonce is the highest of the k lowest. */
  lemma {:induction false} LowestStep(l: TxMap, k: nat)
    requires ByNonce(l) && 0 < k <= |l|
    ensures |Listing(l)| == |l|
    ensures var t := Listing(l)[k - 1];
            t.nonce in Lowest(l, k) && Lowest(l, k)[t.nonce] == t && Lowest(l, k) - {t.nonce} == Lowest(l, k - 1)
    decreases k
  {
    ListingSize(l);
    assert |l| == |l.Keys|;
    var n := Least(l.Keys);
    ListingFirst(l, n);
    if k > 1 {
      var rest := l - {n};
      LowestStep(rest, k - 1);
      var t := Listing(rest)[k - 2];
      assert Listing(l)[k - 1] == t;
      assert t.nonce != n;
      assert Lowest(l, k) == Lowest(rest, k - 1)[n := l[n]];
      assert Lowest(l, k - 1) == Lowest(rest, k - 2)[n := l[n]];
    } else {
      assert Lowest(l, 1) == map[n := l[n]];
    }
  }

  lemma {:induction false} LowestAll(l: TxMap)
    ensures Lowest(l, |l|) == l
  {
    LowestIsPrefix(l, |l|);
    PrefixOfSelf(l);
    PrefixUnique(Lowest(l, |l|), l, l);
  }

  lemma PrefixOfSelf(l: TxMap)
    ensures Prefix(l, l)
  {
  }

  /** Forgetting a queued transaction only takes it out of its queue. */
  lemma QueuedRemoval(b: Book, a: Address, tx: Tx)
    requires Inv(b) && tx.nonce in ListOf(b.queue, a) && ListOf(b.queue, a)[tx.nonce] == tx
    ensures RemoveTx(b, tx) == b.(queue := File(b.queue, a, ListOf(b.queue, a) - {tx.nonce}), all := b.all - {tx})
  {
    assert AcctAt(b, false, a);
    assert AcctAt(b, false, tx.sender);
    assert File(b.pending, a, ListOf(b.pending, a)) == b.pending;
  }

  lemma FileTwice(m: Lists, a: Address, k: TxMap, l: TxMap)
    ensures File(File(m, a, k), a, l) == File(m, a, l)
  {
  }

  /** All of account `a`'s list but its `k` lowest nonces has gone. */
  ghost predicate KeepsLowest(now: Lists, was: Lists, a: Address, list: TxMap, k: nat) {
    now == File(was, a, Lowest(list, k))
  }

  lemma KeepsAll(was: Lists, a: Address, list: TxMap)
    requires File(was, a, list) == was
    ensures KeepsLowest(was, was, a, list, |list|)
  {
    LowestAll(list);
  }

  lemma KeepsOneLess(now: Lists, was: Lists, a: Address, list: TxMap, k: nat, tx: Tx)
    requires ByNonce(list) && k < |list| == |Listing(list)| && tx == Listing(list)[k] && KeepsLowest(now, was, a, list, k + 1)
    ensures tx.nonce in ListOf(now, a) && ListOf(now, a)[tx.nonce] == tx
    ensures KeepsLowest(File(now, a, ListOf(now, a) - {tx.nonce}), was, a, list, k)
  {
    hide Lowest, Listing, File;
    LowestStep(list, k + 1);
    FileTwice(was, a, Lowest(list, k + 1), Lowest(list, k));
  }

  lemma KeepsWhat(now: Lists, was: Lists, a: Address, list: TxMap, k: nat)
    requires KeepsLowest(now, was, a, list, k)
    ensures now == File(was, a, Lowest(list, k))
  {
  }

  lemma TrimNone(m: Lists, order: seq<Address>, drop: nat)
    ensures order == [] || drop == 0 ==> Trim(m, order, drop) == m
  {
    hide Lowest, File;
  }

  /** Accounts are taken from the end of the order: if one loses anything, all behind it are empty. */
  lemma {:induction false} TrimInOrder(m: Lists, order: seq<Address>, drop: nat, i: nat, j: nat)
    requires Distinct(order) && i < j < |order| && ListOf(Trim(m, order, drop), order[i]) != ListOf(m, order[i])
    ensures ListOf(Trim(m, order, drop), order[j]) == map[]
    decreases |order|
  {
    hide Lowest, Trim, File;
    TrimNone(m, order, drop);
    if drop > 0 {
      var a, rest := order[|order| - 1], order[..|order| - 1];
      var l := ListOf(m, a);
      if |l| <= drop {
        var mid := File(m, a, map[]);
        TrimTakesAll(m, order, drop, a, rest);
        if j < |order| - 1 {
          TrimInOrder(mid, rest, drop - |l|, i, j);
        } else {
          TrimLeaves(mid, rest, drop - |l|, a);
        }
      } else {
        TrimTakesPart(m, order, drop, a);
      }
    }
  }

  lemma {:induction false} TrimLeaves(m: Lists, order: seq<Address>, drop: nat, a: Address)
    requires a !in order
    ensures ListOf(Trim(m, order, drop), a) == ListOf(m, a)
    decreases |order|
  {
    hide Lowest, Trim, File;
    TrimNone(m, order, drop);
    if order != [] && drop > 0 {
      var b, rest := order[|order| - 1], order[..|order| - 1];
      if |ListOf(m, b)| <= drop {
        TrimTakesAll(m, order, drop, b, rest);
        TrimLeaves(File(m, b, map[]), rest, drop - |ListOf(m, b)|, a);
      } else {
        TrimTakesPart(m, order, drop, b);
      }
    }
  }
}
