/** The price heap of the pool.  Transactions leave the pool without being searched for in the heap,
    so it may hold stale entries and duplicates; it is rebuilt once too many entries are stale. */
module PricedLists {
  import opened Transactions

  /** Every pool transaction has an entry. */
  ghost predicate Covers(items: multiset<Tx>, all: set<Tx>) {
    forall t :: t in all ==> t in items
  }

  /** Every pool transaction has exactly one entry. */
  ghost predicate Once(items: multiset<Tx>, all: set<Tx>) {
    forall t :: t in all ==> items[t] == 1
  }

  /** An entry more for a transaction more, and no entry less for a transaction less. */
  lemma PutCovers(items: multiset<Tx>, all: set<Tx>, gone: Tx, tx: Tx, except: set<Tx>)
    requires Covers(items, all - except)
    ensures Covers(items, (all - {gone}) - except)
    ensures Covers(items + multiset{tx}, (all + {tx}) - except)
  {
  }

  lemma FewerCovers(items: multiset<Tx>, all: set<Tx>, gone: Tx)
    requires Covers(items, all)
    ensures Covers(items, all - {gone})
  {
  }

  ghost predicate NoneTwice(s: seq<Tx>) {
    forall i, j :: 0 <= i < j < |s| ==> s[i] != s[j]
  }

  ghost predicate Cheapest(t: Tx, items: multiset<Tx>) {
    t in items && forall u :: u in items ==> t.price <= u.price
  }

  lemma {:induction false} CheapestExists(items: multiset<Tx>)
    requires |items| > 0
    ensures exists t :: Cheapest(t, items)
    decreases |items|
  {
    var x :| x in items;
    var rest := items - multiset{x};
    if |rest| == 0 {
      assert items == multiset{x};
      assert Cheapest(x, items);
    } else {
      CheapestExists(rest);
      var t :| Cheapest(t, rest);
      var c := if x.price < t.price then x else t;
      forall u | u in items
        ensures c.price <= u.price
      {
        assert u == x || u in rest;
      }
      assert Cheapest(c, items);
    }
  }

  /** The entry at the root of the heap: some cheapest one. */
  method Root(items: multiset<Tx>) returns (t: Tx)
    requires |items| > 0
    ensures Cheapest(t, items)
  {
    CheapestExists(items);
    t :| t in items && forall u :: u in items ==> t.price <= u.price;
  }

  function Dropped(drop: seq<Tx>): set<Tx> {
    set t | t in drop
  }

  /** A choice of entries of remote pool transactions of which none is dearer than an entry left out. */
  ghost predicate Choice(drop: seq<Tx>, items: multiset<Tx>, all: set<Tx>, locals: set<Address>, count: int) {
    && |drop| <= count && multiset(drop) <= items
    && (forall t :: t in drop ==> t in all && t.sender !in locals)
    && (forall d, t :: d in drop && t in all && t.sender !in locals && multiset(drop)[t] < items[t] ==> d.price <= t.price)
  }

  /** A possible outcome of a discard: such a choice of `count` entries, or of all there are. */
  ghost predicate IsDiscard(drop: seq<Tx>, items: multiset<Tx>, all: set<Tx>, locals: set<Address>, count: int) {
    && Choice(drop, items, all, locals, count)
    && (|drop| < count ==> forall t :: t in all && t.sender !in locals ==> multiset(drop)[t] == items[t])
  }

  class PricedList {
    var items: multiset<Tx>
    var stales: int

    constructor ()
      ensures items == multiset{} && stales == 0
    {
      items, stales := multiset{}, 0;
    }

    method Put(tx: Tx)
      modifies this
      ensures items == old(items) + multiset{tx} && stales == old(stales)
    {
      items := items + multiset{tx};
    }

    /** Counts one departure; past a quarter of the entries the heap is rebuilt from the pool. */
    method Removed(all: set<Tx>)
      modifies this
      ensures Covers(old(items), all) ==> Covers(items, all)
      ensures if old(stales) + 1 <= |old(items)| / 4 then items == old(items) && stales == old(stales) + 1 else items == multiset(all) && stales == 0
    {
      stales := stales + 1;
      if stales <= |items| / 4 {
        return;
      }
      stales := 0;
      items := multiset(all);
    }

    /** Whether no pool transaction is cheaper; stale entries at the root are discarded on the way. */
    method Underpriced(tx: Tx, locals: set<Address>, all: set<Tx>) returns (r: bool)
      requires Covers(items, all)
      modifies this
      ensures Covers(items, all) && forall t :: t in all ==> items[t] == old(items)[t]
      ensures old(stales) - stales == |old(items)| - |items|
      ensures r <==> tx.sender !in locals && all != {} && forall t :: t in all ==> t.price >= tx.price
    {
      if tx.sender in locals {
        return false;
      }
      var head := tx;
      while |items| > 0
        invariant Covers(items, all) && forall t :: t in all ==> items[t] == old(items)[t]
        invariant old(stales) - stales == |old(items)| - |items|
        decreases |items|
      {
        head := Root(items);
        if head in all {
          break;
        }
        stales := stales - 1;
        items := items - multiset{head};
      }
      if |items| == 0 {
        assert all == {} by {
          assert forall t :: t in all ==> t in items;
        }
        return false;
      }
      return head.price >= tx.price;
    }

    /** Takes up to `count` entries of the cheapest remote transactions out of the heap.  A transaction
        with several entries may be taken several times. */
    method Discard(count: nat, locals: set<Address>, all: set<Tx>) returns (drop: seq<Tx>)
      requires Covers(items, all)
      modifies this
      ensures Covers(items, all - Dropped(drop)) && IsDiscard(drop, old(items), all, locals, count)
      ensures forall t :: t in all ==> items[t] == old(items)[t] - multiset(drop)[t]
      ensures old(stales) - stales == |old(items)| - |items| - |drop|
      ensures forall d, t :: d in drop && t in all && t.sender !in locals && t !in drop ==> d.price <= t.price
      ensures |drop| < count ==> forall t :: t in all && t.sender !in locals ==> t in drop
    {
      drop := [];
      var save: seq<Tx>, left: nat := [], count;
      while |items| > 0 && left > 0
        invariant left + |drop| == count && old(stales) - stales == |old(items)| - |items| - |drop| - |save|
        invariant Discarding(items, drop, save, locals, all) && Accounted(old(items), items, drop, save, all)
        decreases |items|
      {
        var tx := Root(items);
        DiscardStep(items, drop, save, locals, all, tx);
        AccountedStep(old(items), items, drop, save, all, tx);
        items := items - multiset{tx};
        if tx !in all {
          stales := stales - 1;
        } else if tx.sender in locals {
          save := save + [tx];
        } else {
          drop := drop + [tx];
          left := left - 1;
        }
      }
      DiscardDone(items, drop, save, locals, all);
      AccountedDone(old(items), items, drop, save, locals, all);
      PushBack(save);
    }

    method PushBack(save: seq<Tx>)
      modifies this`items
      ensures items == old(items) + multiset(save) && |items| == |old(items)| + |save|
    {
      for i := 0 to |save|
        invariant items == old(items) + multiset(save[..i]) && |items| == |old(items)| + i
      {
        assert save[..i + 1] == save[..i] + [save[i]];
        items := items + multiset{save[i]};
      }
      assert save[..|save|] == save;
    }
  }

  /** The entries of pool transactions are still in the heap, dropped or set aside. */
  ghost predicate Accounted(was: multiset<Tx>, items: multiset<Tx>, drop: seq<Tx>, save: seq<Tx>, all: set<Tx>) {
    && (forall t :: t in all ==> was[t] == items[t] + multiset(drop)[t] + multiset(save)[t])
    && (forall t :: t in drop || t in save ==> t in all)
  }

  lemma AccountedStep(was: multiset<Tx>, items: multiset<Tx>, drop: seq<Tx>, save: seq<Tx>, all: set<Tx>, tx: Tx)
    requires Accounted(was, items, drop, save, all) && tx in items
    ensures tx !in all ==> Accounted(was, items - multiset{tx}, drop, save, all)
    ensures tx in all ==> Accounted(was, items - multiset{tx}, drop, save + [tx], all)
    ensures tx in all ==> Accounted(was, items - multiset{tx}, drop + [tx], save, all)
  {
  }

  lemma AccountedDone(was: multiset<Tx>, items: multiset<Tx>, drop: seq<Tx>, save: seq<Tx>, locals: set<Address>, all: set<Tx>)
    requires Accounted(was, items, drop, save, all) && Discarding(items, drop, save, locals, all) && Covers(was, all)
    ensures multiset(drop) <= was
    ensures forall d, t :: d in drop && t in all && t.sender !in locals && multiset(drop)[t] < was[t] ==> d.price <= t.price
    ensures forall d, t :: d in drop && t in all && t.sender !in locals && t !in drop ==> d.price <= t.price
    ensures |items| == 0 ==> forall t :: t in all && t.sender !in locals ==> multiset(drop)[t] == was[t] && t in drop
  {
    forall t
      ensures multiset(drop)[t] <= was[t]
    {
      assert t in drop || multiset(drop)[t] == 0;
    }
    forall t | t in all && t.sender !in locals
      ensures was[t] == items[t] + multiset(drop)[t]
    {
      assert t !in save && multiset(save)[t] == 0;
    }
  }

  lemma EntriesDistinct(s: seq<Tx>)
    requires forall t :: t in s ==> multiset(s)[t] == 1
    ensures NoneTwice(s)
  {
    forall i, j | 0 <= i < j < |s|
      ensures s[i] != s[j]
    {
      assert s == s[..i] + [s[i]] + s[i + 1..];
      assert s[j] == s[i + 1..][j - i - 1] && s[j] in s[i + 1..];
      assert multiset(s) == multiset(s[..i]) + multiset{s[i]} + multiset(s[i + 1..]);
      assert multiset(s[i + 1..])[s[j]] > 0;
      assert s[i] in s && multiset(s)[s[i]] == multiset(s[..i])[s[i]] + 1 + multiset(s[i + 1..])[s[i]];
    }
  }

  lemma NoneTwiceStep(s: seq<Tx>)
    requires s != []
    ensures NoneTwice(s) <==> s[0] !in s[1..] && NoneTwice(s[1..])
  {
    var rest := s[1..];
    assert forall i :: 0 <= i < |rest| ==> rest[i] == s[i + 1];
    assert forall i :: 0 < i < |s| ==> s[i] == rest[i - 1];
    if s[0] in rest {
      var j :| 0 <= j < |rest| && rest[j] == s[0];
      assert s[0] == s[j + 1];
    }
  }

  lemma {:induction false} DroppedSize(s: seq<Tx>)
    ensures |Dropped(s)| <= |s| && (|Dropped(s)| == |s| <==> NoneTwice(s))
  {
    hide NoneTwice;
    if s == [] {
      NoneTwiceEmpty();
    } else {
      NoneTwiceStep(s);
      DroppedSize(s[1..]);
      assert s == [s[0]] + s[1..];
      assert Dropped(s) == Dropped(s[1..]) + {s[0]};
    }
  }

  lemma NoneTwiceEmpty()
    ensures NoneTwice([])
  {
  }

  lemma {:induction false} CountAtMost(s: seq<Tx>, t: Tx)
    ensures multiset(s)[t] <= |s|
  {
    if s != [] {
      assert s == [s[0]] + s[1..];
      CountAtMost(s[1..], t);
    }
  }

  // ------------------------------------------------------------------ when a discard repeats itself

  /** The entries for the transactions of a set. */
  ghost function Restrict(items: multiset<Tx>, keep: set<Tx>): (r: multiset<Tx>)
    ensures forall t :: r[t] == if t in keep then items[t] else 0
  {
    if keep == {} then multiset{}
    else
      var t :| t in keep;
      Restrict(items, keep - {t})[t := items[t]]
  }

  ghost function Remote(all: set<Tx>, locals: set<Address>): set<Tx> {
    set t | t in all && t.sender !in locals
  }

  /** The entries of remote pool transactions that are cheaper than `tx`. */
  ghost function Cheaper(items: multiset<Tx>, all: set<Tx>, locals: set<Address>, tx: Tx): multiset<Tx> {
    Restrict(items, set t | t in all && t.sender !in locals && t.price < tx.price)
  }

  /** No remote transaction has two entries among the cheapest `count`. */
  ghost predicate NoPairDue(items: multiset<Tx>, all: set<Tx>, locals: set<Address>, count: int) {
    forall t :: t in all && t.sender !in locals && items[t] >= 2 ==> |Cheaper(items, all, locals, t)| + 2 > count
  }

  /** No discard of `count` entries names a transaction twice if and only if no pair is due. */
  lemma DiscardRepeats(items: multiset<Tx>, all: set<Tx>, locals: set<Address>, count: int)
    ensures (forall drop :: IsDiscard(drop, items, all, locals, count) ==> NoneTwice(drop)) <==> NoPairDue(items, all, locals, count)
  {
    hide NoneTwice, IsDiscard, Choice, Cheaper;
    if NoPairDue(items, all, locals, count) {
      forall drop | IsDiscard(drop, items, all, locals, count)
        ensures NoneTwice(drop)
      {
        NoPairTaken(drop, items, all, locals, count);
      }
    } else {
      var t :| t in all && t.sender !in locals && items[t] >= 2 && |Cheaper(items, all, locals, t)| + 2 <= count;
      var drop := PairTaken(items, all, locals, count, t);
    }
  }

  lemma NoPairTaken(drop: seq<Tx>, items: multiset<Tx>, all: set<Tx>, locals: set<Address>, count: int)
    requires IsDiscard(drop, items, all, locals, count) && NoPairDue(items, all, locals, count)
    ensures NoneTwice(drop)
  {
    forall t | t in drop
      ensures multiset(drop)[t] == 1
    {
      if multiset(drop)[t] >= 2 {
        CheaperTaken(drop, items, all, locals, count, t);
      }
    }
    EntriesDistinct(drop);
  }

  /** A transaction is only taken together with all cheaper entries. */
  lemma CheaperTaken(drop: seq<Tx>, items: multiset<Tx>, all: set<Tx>, locals: set<Address>, count: int, t: Tx)
    requires Choice(drop, items, all, locals, count) && t in drop
    ensures |Cheaper(items, all, locals, t)| + multiset(drop)[t] <= count && items[t] >= multiset(drop)[t]
  {
    var m, cheaper := multiset(drop), Cheaper(items, all, locals, t);
    var own := multiset{}[t := m[t]];
    forall u
      ensures (cheaper + own)[u] <= m[u]
    {
      if u != t && cheaper[u] > 0 {
        assert u in all && u.sender !in locals && u.price < t.price;
        assert m[u] >= items[u];
      }
    }
    SmallerSize(cheaper + own, m);
  }

  lemma SmallerSize(a: multiset<Tx>, b: multiset<Tx>)
    requires a <= b
    ensures |a| <= |b|
  {
    assert b == a + (b - a);
  }

  ghost function SeqOf(m: multiset<Tx>): (s: seq<Tx>)
    ensures multiset(s) == m
    decreases |m|
  {
    if m == multiset{} then []
    else
      var x :| x in m;
      [x] + SeqOf(m - multiset{x})
  }

  /** If a pair is due, some discard takes it. */
  lemma PairTaken(items: multiset<Tx>, all: set<Tx>, locals: set<Address>, count: int, t: Tx) returns (drop: seq<Tx>)
    requires t in all && t.sender !in locals && items[t] >= 2 && |Cheaper(items, all, locals, t)| + 2 <= count
    ensures IsDiscard(drop, items, all, locals, count) && !NoneTwice(drop)
  {
    var first := SeqOf(Cheaper(items, all, locals, t)) + [t, t];
    PairFirst(items, all, locals, count, t, first);
    drop := Completed(first, items, all, locals, count);
    assert multiset(first)[t] <= multiset(drop)[t];
    if NoneTwice(drop) {
      DistinctOnce(drop, t);
    }
  }

  lemma PairFirst(items: multiset<Tx>, all: set<Tx>, locals: set<Address>, count: int, t: Tx, first: seq<Tx>)
    requires t in all && t.sender !in locals && items[t] >= 2 && |Cheaper(items, all, locals, t)| + 2 <= count
    requires first == SeqOf(Cheaper(items, all, locals, t)) + [t, t]
    ensures Choice(first, items, all, locals, count) && multiset(first)[t] >= 2
  {
    hide Cheaper, SeqOf;
    forall u
      ensures multiset(first)[u] == (if IsCheaper(u, t, all, locals) then items[u] else 0) + if u == t then 2 else 0
    {
      PairCount(items, all, locals, t, first, u);
    }
    PairSize(Cheaper(items, all, locals, t), t, first);
    forall d | d in first
      ensures d in all && d.sender !in locals && d.price <= t.price
    {
      assert multiset(first)[d] > 0;
    }
  }

  predicate IsCheaper(u: Tx, t: Tx, all: set<Tx>, locals: set<Address>) {
    u in all && u.sender !in locals && u.price < t.price
  }

  lemma PairSize(cheaper: multiset<Tx>, t: Tx, first: seq<Tx>)
    requires first == SeqOf(cheaper) + [t, t]
    ensures |first| == |cheaper| + 2
  {
    hide SeqOf;
    assert |multiset(SeqOf(cheaper))| == |SeqOf(cheaper)|;
  }

  lemma PairCount(items: multiset<Tx>, all: set<Tx>, locals: set<Address>, t: Tx, first: seq<Tx>, u: Tx)
    requires first == SeqOf(Cheaper(items, all, locals, t)) + [t, t]
    ensures multiset(first)[u] == (if IsCheaper(u, t, all, locals) then items[u] else 0) + if u == t then 2 else 0
  {
    hide SeqOf, Restrict;
    assert multiset([t, t])[u] == if u == t then 2 else 0;
  }

  lemma DistinctOnce(s: seq<Tx>, t: Tx)
    requires NoneTwice(s)
    ensures multiset(s)[t] <= 1
    decreases |s|
  {
    if s != [] {
      NoneTwiceStep(s);
      DistinctOnce(s[1..], t);
      assert s == [s[0]] + s[1..];
    }
  }

  /** A choice can be completed to a discard. */
  lemma Completed(first: seq<Tx>, items: multiset<Tx>, all: set<Tx>, locals: set<Address>, count: int) returns (drop: seq<Tx>)
    requires Choice(first, items, all, locals, count)
    ensures IsDiscard(drop, items, all, locals, count) && multiset(first) <= multiset(drop)
    decreases count - |first|
  {
    var rest := Restrict(items, Remote(all, locals)) - multiset(first);
    if |first| == count || rest == multiset{} {
      drop := first;
      forall t | t in all && t.sender !in locals && |first| < count
        ensures multiset(first)[t] == items[t]
      {
        assert rest[t] == 0 && t in Remote(all, locals);
      }
    } else {
      CheapestExists(rest);
      var t :| Cheapest(t, rest);
      ChoiceGrows(first, items, all, locals, count, t, rest);
      drop := Completed(first + [t], items, all, locals, count);
      assert multiset(first + [t]) == multiset(first) + multiset{t};
    }
  }

  lemma ChoiceGrows(first: seq<Tx>, items: multiset<Tx>, all: set<Tx>, locals: set<Address>, count: int, t: Tx, rest: multiset<Tx>)
    requires Choice(first, items, all, locals, count) && |first| < count
    requires rest == Restrict(items, Remote(all, locals)) - multiset(first) && Cheapest(t, rest)
    ensures Choice(first + [t], items, all, locals, count)
  {
    var more := first + [t];
    assert multiset(more) == multiset(first) + multiset{t};
    assert t in Remote(all, locals) && multiset(first)[t] < items[t];
    forall u | u in all && u.sender !in locals && multiset(more)[u] < items[u]
      ensures t.price <= u.price && multiset(first)[u] < items[u]
    {
      assert u in Remote(all, locals) && rest[u] > 0;
    }
  }

  /** The entries of pool transactions alone decide what a discard can be. */
  lemma SameEntries(drop: seq<Tx>, items: multiset<Tx>, was: multiset<Tx>, all: set<Tx>, locals: set<Address>, count: int)
    requires IsDiscard(drop, items, all, locals, count) && forall t :: t in all ==> items[t] == was[t]
    ensures IsDiscard(drop, was, all, locals, count)
  {
    forall t
      ensures multiset(drop)[t] <= was[t]
    {
      assert t in drop || multiset(drop)[t] == 0;
    }
  }

  /** With one entry for every pool transaction no pair is due, and neither is one if a single entry is asked for. */
  lemma NoPair(items: multiset<Tx>, all: set<Tx>, locals: set<Address>, count: int)
    requires Once(items, all) || count <= 1
    ensures NoPairDue(items, all, locals, count)
  {
  }

  lemma BothCheap(drop: seq<Tx>, cheap: Tx, dear: Tx)
    requires cheap != dear && |drop| <= 2 && forall t :: t in drop ==> t == cheap || t == dear
    requires |drop| < 2 || dear in drop ==> multiset(drop)[cheap] == 2
    ensures drop == [cheap, cheap]
  {
    CountAtMost(drop, cheap);
    assert drop == [drop[0], drop[1]];
    assert multiset(drop) == multiset{drop[0], drop[1]} && drop[0] in drop && drop[1] in drop;
  }

  /** With two entries of one cheap transaction and one of a dearer one, a discard of two drops the first twice. */
  lemma DroppedTwice(drop: seq<Tx>, cheap: Tx, dear: Tx)
    requires cheap.price < dear.price && cheap.sender != dear.sender
    requires IsDiscard(drop, multiset{cheap, dear, cheap}, {cheap, dear}, {}, 2)
    ensures drop == [cheap, cheap]
  {
    var items, all := multiset{cheap, dear, cheap}, {cheap, dear};
    assert items[cheap] == 2 && cheap in all;
    assert multiset(drop)[cheap] <= items[cheap];
    BothCheap(drop, cheap, dear);
  }

  /** The state of a discard: what is left in the heap is no cheaper than anything dropped, and only
      local transactions have been set aside. */
  ghost predicate Discarding(items: multiset<Tx>, drop: seq<Tx>, save: seq<Tx>, locals: set<Address>, all: set<Tx>) {
    && (forall t :: t in all ==> t in items || t in drop || t in save)
    && (forall t :: t in drop ==> t in all && t.sender !in locals)
    && (forall t :: t in save ==> t.sender in locals)
    && (forall d, t :: d in drop && t in items ==> d.price <= t.price)
  }

  lemma DiscardStep(items: multiset<Tx>, drop: seq<Tx>, save: seq<Tx>, locals: set<Address>, all: set<Tx>, tx: Tx)
    requires Discarding(items, drop, save, locals, all) && Cheapest(tx, items)
    ensures tx !in all ==> Discarding(items - multiset{tx}, drop, save, locals, all)
    ensures tx in all && tx.sender in locals ==> Discarding(items - multiset{tx}, drop, save + [tx], locals, all)
    ensures tx in all && tx.sender !in locals ==> Discarding(items - multiset{tx}, drop + [tx], save, locals, all)
  {
  }

  lemma DiscardDone(items: multiset<Tx>, drop: seq<Tx>, save: seq<Tx>, locals: set<Address>, all: set<Tx>)
    requires Discarding(items, drop, save, locals, all)
    ensures Covers(items + multiset(save), all - Dropped(drop))
  {
    forall t | t in all && t !in drop
      ensures t in items + multiset(save)
    {
    }
  }
}
