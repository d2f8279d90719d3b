/** The nonce-sorted transaction map: a hash map, a heap of its nonces and a cached sorted listing,
    which together behave like a plain nonce map. */
module SortedMaps {
  import opened Options
  import opened Transactions

  /** `h` holds the elements of `s`, each once. */
  ghost predicate Elements(h: seq<nat>, s: set<nat>) {
    multiset(h) == multiset(s)
  }

  /** A binary heap promises that its root is the least element. */
  ghost predicate Heap(h: seq<nat>, s: set<nat>) {
    Elements(h, s) && forall i :: 0 <= i < |h| ==> h[0] <= h[i]
  }

  ghost predicate Increasing(h: seq<nat>) {
    forall i, j :: 0 <= i < j < |h| ==> h[i] < h[j]
  }

  lemma ElementsMember(h: seq<nat>, s: set<nat>, n: nat)
    requires Elements(h, s)
    ensures n in h <==> n in s
  {
    assert n in multiset(h) <==> n in multiset(s);
  }

  lemma ElementsSize(h: seq<nat>, s: set<nat>)
    requires Elements(h, s)
    ensures |h| == |s|
  {
    assert |multiset(h)| == |multiset(s)|;
  }

  lemma ElementsWithout(h: seq<nat>, i: nat, s: set<nat>)
    requires Elements(h, s) && i < |h|
    ensures h[i] in s && Elements(h[..i] + h[i + 1..], s - {h[i]})
  {
    ElementsMember(h, s, h[i]);
    assert h == h[..i] + [h[i]] + h[i + 1..];
    assert multiset(s - {h[i]}) == multiset(s) - multiset{h[i]};
  }

  /** Moves a least element to the front. */
  method HeapInit(h: seq<nat>, ghost s: set<nat>) returns (r: seq<nat>)
    requires Elements(h, s)
    ensures Heap(r, s) && |r| == |h|
  {
    if h == [] {
      return h;
    }
    var m := 0;
    for i := 1 to |h|
      invariant 0 <= m < |h|
      invariant forall k :: 0 <= k < i ==> h[m] <= h[k]
    {
      if h[i] < h[m] {
        m := i;
      }
    }
    r := [h[m]] + h[..m] + h[m + 1..];
    MoveToFront(h, m, s);
  }

  lemma MoveToFront(h: seq<nat>, m: nat, s: set<nat>)
    requires Elements(h, s) && m < |h| && forall k :: 0 <= k < |h| ==> h[m] <= h[k]
    ensures Heap([h[m]] + h[..m] + h[m + 1..], s)
  {
    assert h == h[..m] + [h[m]] + h[m + 1..];
  }

  method HeapPush(h: seq<nat>, x: nat, ghost s: set<nat>) returns (r: seq<nat>)
    requires Heap(h, s) && x !in s
    ensures Heap(r, s + {x})
  {
    r := if h == [] || x < h[0] then [x] + h else h + [x];
  }

  method HeapRemove(h: seq<nat>, i: nat, ghost s: set<nat>) returns (x: nat, r: seq<nat>)
    requires Heap(h, s) && i < |h|
    ensures x == h[i] && x in s && Heap(r, s - {x}) && |r| < |h|
  {
    x := h[i];
    var rest := h[..i] + h[i + 1..];
    ElementsWithout(h, i, s);
    r := HeapInit(rest, s - {x});
  }

  method HeapPop(h: seq<nat>, ghost s: set<nat>) returns (x: nat, r: seq<nat>)
    requires Heap(h, s) && h != []
    ensures x == h[0] && IsLeast(x, s) && Heap(r, s - {x}) && |r| < |h|
  {
    RootIsLeast(h, s);
    x, r := HeapRemove(h, 0, s);
  }

  /** Sorts by repeatedly taking the least element. */
  method Sort(h: seq<nat>, ghost s: set<nat>) returns (r: seq<nat>)
    requires Elements(h, s)
    ensures Elements(r, s) && Increasing(r)
  {
    r := [];
    var rest := HeapInit(h, s);
    ghost var left := s;
    assert s - left == {};
    while rest != []
      invariant left <= s && Heap(rest, left) && Elements(r, s - left) && Increasing(r)
      invariant forall a, b :: a in s && a !in left && b in left ==> a < b
      decreases left
    {
      var x;
      x, rest := HeapPop(rest, left);
      AppendElement(r, x, s - left);
      assert s - left + {x} == s - (left - {x});
      left := left - {x};
      r := r + [x];
    }
    ElementsSize(rest, left);
    assert left == {} && s - left == s;
  }

  lemma AppendElement(r: seq<nat>, x: nat, done: set<nat>)
    requires Elements(r, done) && Increasing(r) && forall a :: a in done ==> a < x
    ensures Elements(r + [x], done + {x}) && Increasing(r + [x])
  {
    forall i | 0 <= i < |r|
      ensures r[i] < x
    {
      ElementsMember(r, done, r[i]);
    }
    assert multiset(done + {x}) == multiset(done) + multiset{x};
  }

  class TxSortedMap {
    var items: TxMap
    var index: seq<nat>
    var cache: Option<seq<Tx>>

    /** The heap holds exactly the map's nonces, and a cached listing is the full sorted contents. */
    ghost predicate Valid()
      reads this
    {
      && ByNonce(items)
      && Heap(index, items.Keys)
      && (cache.Some? ==> cache.value == Listing(items))
    }

    constructor ()
      ensures Valid() && items == map[]
    {
      items, index, cache := map[], [], None;
    }

    method Get(nonce: nat) returns (tx: Option<Tx>)
      ensures tx == if nonce in items then Some(items[nonce]) else None
    {
      tx := if nonce in items then Some(items[nonce]) else None;
    }

    /** Files a transaction under its nonce, overwriting an older one. */
    method Put(tx: Tx)
      requires Valid()
      modifies this
      ensures Valid() && items == old(items)[tx.nonce := tx]
    {
      var nonce := tx.nonce;
      if nonce !in items {
        index := HeapPush(index, nonce, items.Keys);
      }
      assert items[nonce := tx].Keys == items.Keys + {nonce};
      items, cache := items[nonce := tx], None;
    }

    /** Takes the transaction with the least nonce out of the map. */
    method PopLeast() returns (tx: Tx)
      requires ByNonce(items) && Heap(index, items.Keys) && index != []
      modifies this`items, this`index
      ensures ByNonce(items) && Heap(index, items.Keys)
      ensures IsLeast(tx.nonce, old(items).Keys) && tx == old(items)[tx.nonce] && tx.nonce == old(index)[0]
      ensures items == old(items) - {tx.nonce}
      ensures Listing(old(items)) == [tx] + Listing(items)
      ensures |index| < |old(index)|
    {
      ghost var was := items;
      var nonce;
      nonce, index := HeapPop(index, items.Keys);
      tx := items[nonce];
      assert (items - {nonce}).Keys == items.Keys - {nonce};
      items := items - {nonce};
      ListingFirst(was, nonce);
    }

    /** Removes the transactions below a nonce, returning them in nonce order. */
    method Forward(threshold: nat) returns (removed: seq<Tx>)
      requires Valid()
      modifies this
      ensures Valid()
      ensures items == AtLeast(old(items), threshold)
      ensures removed == Listing(Below(old(items), threshold))
    {
      ghost var was := items;
      removed := [];
      while |index| > 0 && index[0] < threshold
        invariant ByNonce(items) && Heap(index, items.Keys)
        invariant removed + Listing(items) == Listing(was) && cache == old(cache)
        invariant AtLeast(items, threshold) == AtLeast(was, threshold)
        decreases |index|
      {
        var tx := PopLeast();
        removed := removed + [tx];
      }
      ForwardDone(index, was, items, threshold, removed);
      if cache != None {
        assert cache.value[|removed|..] == Listing(items);
        cache := Some(cache.value[|removed|..]);
      }
    }

    /** Takes out the maximal consecutive run from the lowest nonce, provided that is not above `start`. */
    method Ready(start: nat) returns (ready: seq<Tx>)
      requires Valid()
      modifies this
      ensures Valid()
      ensures items == (var e := ReadyEnd(old(items), start); AtLeast(old(items), e))
      ensures ready == (var e := ReadyEnd(old(items), start); Listing(Below(old(items), e)))
    {
      if index == [] || index[0] > start {
        NothingReady(items, index, start);
        return [];
      }
      assert Least(items.Keys) == index[0] by { RootIsLeast(index, items.Keys); }
      ready := TakeRun(index[0]);
      cache := None;
    }

    method TakeRun(ghost lo: nat) returns (ready: seq<Tx>)
      requires ByNonce(items) && Heap(index, items.Keys) && index != [] && index[0] == lo
      modifies this`items, this`index
      ensures ByNonce(items) && Heap(index, items.Keys)
      ensures items == AtLeast(old(items), RunEnd(old(items), lo))
      ensures ready == Listing(Below(old(items), RunEnd(old(items), lo)))
    {
      ghost var was := items;
      RootIsLeast(index, items.Keys);
      assert AtLeast(was, lo) == was;
      ready := [];
      var next := index[0];
      while |index| > 0 && index[0] == next
        invariant ByNonce(items) && Heap(index, items.Keys)
        invariant ready + Listing(items) == Listing(was)
        invariant lo <= next && items == AtLeast(was, next)
        invariant HasAll(was, lo, next)
        decreases |index|
      {
        AtLeastNext(was, next);
        var tx := PopLeast();
        assert tx.nonce == next && next in was;
        ready := ready + [tx];
        next := next + 1;
      }
      RunTaken(index, was, lo, next, ready);
    }

    /** Keeps the `threshold` lowest nonces and returns the rest, highest first. */
    method Cap(threshold: nat) returns (drops: seq<Tx>)
      requires Valid()
      modifies this
      ensures Valid()
      ensures |old(items)| <= threshold ==> items == old(items) && drops == []
      ensures |old(items)| > threshold ==> |items| == threshold
      ensures Listing(old(items)) == Listing(items) + Reversed(drops)
      ensures items.Keys <= old(items).Keys && forall n :: n in items ==> items[n] == old(items)[n]
    {
      if |items| <= threshold {
        return [];
      }
      index := Sort(index, items.Keys);
      drops := DropHighestDownTo(threshold);
      index := HeapInit(index[..threshold], items.Keys);
      if cache != None {
        ReversedSize(drops);
        assert cache.value[..|cache.value| - |drops|] == Listing(items);
        cache := Some(cache.value[..|cache.value| - |drops|]);
      }
    }

    method DropHighestDownTo(threshold: nat) returns (drops: seq<Tx>)
      requires ByNonce(items) && Elements(index, items.Keys) && Increasing(index) && |items| > threshold
      modifies this`items
      ensures ByNonce(items) && |items| == threshold <= |index| && Elements(index[..threshold], items.Keys)
      ensures Listing(old(items)) == Listing(items) + Reversed(drops)
      ensures items.Keys <= old(items).Keys && forall n :: n in items ==> items[n] == old(items)[n]
    {
      drops := [];
      var size := |items|;
      ElementsSize(index, items.Keys);
      assert index[..size] == index;
      while size > threshold
        invariant threshold <= size <= |index| && |items| == size
        invariant Elements(index[..size], items.Keys) && ByNonce(items)
        invariant Listing(old(items)) == Listing(items) + Reversed(drops)
        invariant items.Keys <= old(items).Keys && forall n :: n in items ==> items[n] == old(items)[n]
      {
        DropLastIndex(index, size, items.Keys);
        DropListed(items, index[size - 1], drops);
        drops := drops + [items[index[size - 1]]];
        items := items - {index[size - 1]};
        size := size - 1;
      }
    }

    /** Removes the transactions a predicate selects, in no particular order. */
    method Filter(filter: Tx -> bool) returns (removed: seq<Tx>)
      requires Valid()
      modifies this
      ensures Valid()
      ensures items == Rejected(old(items), filter)
      ensures multiset(removed) == multiset(Txs(Selected(old(items), filter)))
    {
      removed := CollectFiltered(filter);
      if |removed| > 0 {
        Reindex();
        cache := None;
      } else {
        assert |multiset(removed)| == 0;
        NothingSelected(old(items), filter);
      }
    }

    /** Rebuilds the heap from the map's nonces, visited in an arbitrary order. */
    method Reindex()
      modifies this`index
      ensures Heap(index, items.Keys)
    {
      var nonces: seq<nat>, todo := [], items.Keys;
      while todo != {}
        invariant todo <= items.Keys && Elements(nonces, items.Keys - todo)
        decreases todo
      {
        var nonce :| nonce in todo;
        assert multiset(items.Keys - (todo - {nonce})) == multiset(items.Keys - todo) + multiset{nonce};
        nonces := nonces + [nonce];
        todo := todo - {nonce};
      }
      assert items.Keys - todo == items.Keys;
      index := HeapInit(nonces, items.Keys);
    }

    /** Visits the map's entries in an arbitrary order. */
    method CollectFiltered(filter: Tx -> bool) returns (removed: seq<Tx>)
      requires ByNonce(items)
      modifies this`items
      ensures ByNonce(items) && items == Rejected(old(items), filter)
      ensures multiset(removed) == multiset(Txs(Selected(old(items), filter)))
    {
      ghost var was := items;
      removed := [];
      var todo := items.Keys;
      ghost var seen: TxMap := map[];
      assert was - todo == map[];
      while todo != {}
        invariant todo <= was.Keys
        invariant items == Rejected(was - todo, filter) + (was - (was.Keys - todo))
        invariant multiset(removed) == multiset(Txs(Selected(was - todo, filter)))
        decreases todo
      {
        var nonce :| nonce in todo;
        var tx := items[nonce];
        VisitOne(was, todo, nonce, filter);
        if filter(tx) {
          removed := removed + [tx];
          items := items - {nonce};
        }
        todo := todo - {nonce};
      }
      assert was - todo == was && was - (was.Keys - todo) == map[];
    }

    /** Removes one nonce, telling whether it was present. */
    method Remove(nonce: nat) returns (found: bool)
      requires Valid()
      modifies this
      ensures Valid()
      ensures found == (nonce in old(items)) && items == old(items) - {nonce}
    {
      if nonce !in items {
        return false;
      }
      ElementsMember(index, items.Keys, nonce);
      var i := 0;
      while index[i] != nonce
        invariant 0 <= i < |index| && nonce !in index[..i]
        decreases |index| - i
      {
        i := i + 1;
        assert index == index[..i] + index[i..];
      }
      assert (items - {nonce}).Keys == items.Keys - {nonce};
      var _, rest := HeapRemove(index, i, items.Keys);
      index := rest;
      items := items - {nonce};
      cache := None;
      return true;
    }

    /** The contents by increasing nonce, cached until the next change. */
    method Flatten() returns (txs: seq<Tx>)
      requires Valid()
      modifies this`cache
      ensures Valid() && txs == Listing(items)
    {
      if cache == None {
        var nonces := Sort(index, items.Keys);
        var all: seq<Tx> := [];
        ElementsSize(nonces, items.Keys);
        for i := 0 to |nonces|
          invariant |all| == i && forall k :: 0 <= k < i ==> nonces[k] in items && all[k] == items[nonces[k]]
        {
          ElementsMember(nonces, items.Keys, nonces[i]);
          all := all + [items[nonces[i]]];
        }
        SortedIsListing(items, nonces, all);
        cache := Some(all);
      }
      return cache.value;
    }
  }

  function Selected(m: TxMap, filter: Tx -> bool): TxMap {
    map n | n in m && filter(m[n]) :: m[n]
  }

  function Rejected(m: TxMap, filter: Tx -> bool): TxMap {
    map n | n in m && !filter(m[n]) :: m[n]
  }

  /** The transactions of a map, each of which sits under its own nonce. */
  function Txs(m: TxMap): set<Tx> {
    set n | n in m :: m[n]
  }

  lemma NothingSelected(m: TxMap, filter: Tx -> bool)
    requires |Txs(Selected(m, filter))| == 0
    ensures Rejected(m, filter) == m
  {
    var chosen := Selected(m, filter);
    assert forall n :: n in chosen ==> chosen[n] in Txs(chosen);
    assert chosen.Keys == {};
    assert forall n :: n in m && filter(m[n]) ==> n in chosen;
  }

  lemma TxsPut(m: TxMap, tx: Tx)
    requires ByNonce(m) && tx.nonce !in m
    ensures multiset(Txs(m[tx.nonce := tx])) == multiset(Txs(m)) + multiset{tx}
  {
    var m' := m[tx.nonce := tx];
    forall t
      ensures t in Txs(m') <==> t in Txs(m) || t == tx
    {
      if t in Txs(m) {
        assert m'[t.nonce] == t;
      }
      if t == tx {
        assert m'[tx.nonce] == t;
      }
      if t in Txs(m') && t != tx {
        assert m[t.nonce] == t;
      }
    }
    assert Txs(m') == Txs(m) + {tx};
  }

  lemma VisitOne(was: TxMap, todo: set<nat>, nonce: nat, filter: Tx -> bool)
    requires ByNonce(was) && todo <= was.Keys && nonce in todo
    ensures var tx := was[nonce];
            var m := Rejected(was - todo, filter) + (was - (was.Keys - todo));
            var m' := Rejected(was - (todo - {nonce}), filter) + (was - (was.Keys - (todo - {nonce})));
            && nonce in m && m[nonce] == tx
            && m' == (if filter(tx) then m - {nonce} else m)
            && multiset(Txs(Selected(was - (todo - {nonce}), filter))) ==
               multiset(Txs(Selected(was - todo, filter))) + (if filter(tx) then multiset{tx} else multiset{})
  {
    var tx := was[nonce];
    var before, after := Selected(was - todo, filter), Selected(was - (todo - {nonce}), filter);
    if filter(tx) {
      assert after == before[nonce := tx];
      TxsPut(before, tx);
    } else {
      assert after == before;
    }
  }

  /** Reading a map in the order of its sorted nonces yields its listing. */
  lemma {:induction false} SortedIsListing(m: TxMap, nonces: seq<nat>, all: seq<Tx>)
    requires Elements(nonces, m.Keys) && Increasing(nonces) && |all| == |nonces|
    requires forall k :: 0 <= k < |nonces| ==> nonces[k] in m && all[k] == m[nonces[k]]
    ensures all == Listing(m)
    decreases |all|
  {
    ElementsSize(nonces, m.Keys);
    if all == [] {
      assert m.Keys == {};
    } else {
      var n, rest := nonces[0], m - {nonces[0]};
      SortedTail(nonces, m.Keys);
      ListingFirst(m, n);
      assert rest.Keys == m.Keys - {n};
      forall k | 0 <= k < |nonces[1..]|
        ensures nonces[1..][k] in rest && all[1..][k] == rest[nonces[1..][k]]
      {
        assert nonces[1..][k] == nonces[k + 1] && all[1..][k] == all[k + 1];
      }
      SortedIsListing(rest, nonces[1..], all[1..]);
    }
  }

  lemma SortedTail(nonces: seq<nat>, s: set<nat>)
    requires Elements(nonces, s) && Increasing(nonces) && nonces != []
    ensures IsLeast(nonces[0], s) && Elements(nonces[1..], s - {nonces[0]}) && Increasing(nonces[1..])
  {
    RootIsLeast(nonces, s);
    var n, tail := nonces[0], nonces[1..];
    assert nonces == [n] + tail;
    assert multiset(s - {n}) == multiset(s) - multiset{n};
  }

  function Reversed<T>(s: seq<T>): seq<T> {
    if s == [] then [] else [s[|s| - 1]] + Reversed(s[..|s| - 1])
  }

  lemma {:induction false} ReversedSize<T>(s: seq<T>)
    ensures |Reversed(s)| == |s|
    decreases |s|
  {
    if s != [] {
      ReversedSize(s[..|s| - 1]);
    }
  }

  /** Where the run starts that `start` makes ready: nothing is ready if the lowest nonce exceeds it. */
  function ReadyEnd(m: TxMap, start: nat): nat {
    if m.Keys == {} || Least(m.Keys) > start then 0 else RunEnd(m, Least(m.Keys))
  }

  lemma NothingReady(m: TxMap, index: seq<nat>, start: nat)
    requires Heap(index, m.Keys) && (index == [] || index[0] > start)
    ensures ReadyEnd(m, start) == 0 && AtLeast(m, 0) == m && Listing(Below(m, 0)) == []
  {
    if m.Keys != {} {
      ElementsMember(index, m.Keys, Least(m.Keys));
    }
  }

  lemma RootIsLeast(index: seq<nat>, s: set<nat>)
    requires Heap(index, s) && index != []
    ensures IsLeast(index[0], s) && Least(s) == index[0]
  {
    ElementsMember(index, s, index[0]);
    forall k | k in s
      ensures index[0] <= k
    {
      ElementsMember(index, s, k);
    }
  }

  lemma AtLeastNext(m: TxMap, n: nat)
    ensures AtLeast(m, n) - {n} == AtLeast(m, n + 1)
  {
  }

  lemma RunOver(index: seq<nat>, was: TxMap, next: nat)
    requires Heap(index, AtLeast(was, next).Keys) && (index == [] || index[0] != next)
    ensures next !in was
  {
    ElementsMember(index, AtLeast(was, next).Keys, next);
    if index != [] {
      RootIsLeast(index, AtLeast(was, next).Keys);
    }
  }

  lemma ForwardDone(index: seq<nat>, was: TxMap, m: TxMap, threshold: nat, removed: seq<Tx>)
    requires Heap(index, m.Keys) && (index == [] || index[0] >= threshold)
    requires AtLeast(m, threshold) == AtLeast(was, threshold) && removed + Listing(m) == Listing(was)
    ensures m == AtLeast(was, threshold) && removed == Listing(Below(was, threshold))
  {
    forall n | n in m
      ensures n >= threshold
    {
      ElementsMember(index, m.Keys, n);
    }
    assert AtLeast(m, threshold) == m;
    ListingSplits(was, threshold);
    CancelSuffix(removed, Listing(Below(was, threshold)), Listing(m));
  }

  ghost predicate HasAll(m: TxMap, lo: nat, hi: nat) {
    forall n: nat :: lo <= n < hi ==> n in m
  }

  lemma RunTaken(index: seq<nat>, was: TxMap, lo: nat, next: nat, ready: seq<Tx>)
    requires Heap(index, AtLeast(was, next).Keys) && (index == [] || index[0] != next)
    requires lo <= next && HasAll(was, lo, next)
    requires ready + Listing(AtLeast(was, next)) == Listing(was)
    ensures next == RunEnd(was, lo) && ready == Listing(Below(was, next))
  {
    RunOver(index, was, next);
    RunEndUnique(was, lo, next);
    ListingSplits(was, next);
    CancelSuffix(ready, Listing(Below(was, next)), Listing(AtLeast(was, next)));
  }

  lemma RunEndUnique(m: TxMap, lo: nat, e: nat)
    requires lo <= e && e !in m && forall n :: lo <= n < e ==> n in m
    ensures RunEnd(m, lo) == e
  {
  }

  /** Removing the highest nonce removes the last entry of the listing. */
  lemma DropHighest(m: TxMap, n: nat)
    requires n in m && forall k :: k in m ==> k <= n
    ensures (m - {n}).Keys == m.Keys - {n} && |m - {n}| == |m| - 1
    ensures Listing(m) == Listing(m - {n}) + [m[n]]
  {
    hide Listing;
    ListingSplits(m, n);
    assert Below(m, n) == m - {n};
    OnlyOne(AtLeast(m, n), n);
  }

  lemma OnlyOne(m: TxMap, n: nat)
    requires m.Keys == {n}
    ensures Listing(m) == [m[n]]
  {
    ListingFirst(m, n);
    assert m - {n} == map[];
  }

  lemma LastIsHighest(h: seq<nat>, s: set<nat>)
    requires Elements(h, s) && Increasing(h) && h != []
    ensures h[|h| - 1] in s && forall k :: k in s ==> k <= h[|h| - 1]
  {
    ElementsMember(h, s, h[|h| - 1]);
    forall k | k in s
      ensures k <= h[|h| - 1]
    {
      ElementsMember(h, s, k);
    }
  }

  lemma ReversedAppend<T>(a: seq<T>, drops: seq<T>, x: T)
    ensures (a + [x]) + Reversed(drops) == a + Reversed(drops + [x])
  {
    var more := drops + [x];
    assert more[..|more| - 1] == drops;
    assert Reversed(more) == [x] + Reversed(drops);
  }

  lemma DropLastIndex(index: seq<nat>, size: nat, s: set<nat>)
    requires 0 < size <= |index| && Elements(index[..size], s) && Increasing(index)
    ensures index[size - 1] in s && forall k :: k in s ==> k <= index[size - 1]
    ensures Elements(index[..size - 1], s - {index[size - 1]})
  {
    var low := index[..size];
    LastIsHighest(low, s);
    ElementsWithout(low, size - 1, s);
    assert low[..size - 1] + low[size..] == index[..size - 1];
  }

  lemma DropListed(m: TxMap, n: nat, drops: seq<Tx>)
    requires n in m && forall k :: k in m ==> k <= n
    ensures (m - {n}).Keys == m.Keys - {n} && |m - {n}| == |m| - 1
    ensures Listing(m) + Reversed(drops) == Listing(m - {n}) + Reversed(drops + [m[n]])
  {
    DropHighest(m, n);
    ReversedAppend(Listing(m - {n}), drops, m[n]);
  }
}
