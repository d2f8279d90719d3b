/** What the pool's operations do to an account, stated on its lists before and after and on nothing else. */
module Effects {
  import opened Options
  import opened Transactions
  import opened SortedMaps
  import opened TxLists
  import opened Books
  import opened Resets
  import opened WaterLevels
  import opened QueueLimits
  import opened Tidiness
  import opened TxPools

  // ------------------------------------------------------------------ prices and payments

  /** The sender can pay the value and all the gas, and the gas fits into a block. */
  predicate Affords(t: Tx, balance: nat, gasLimit: nat) {
    t.value + t.price * t.gas <= balance && t.gas <= gasLimit
  }

  lemma PayableMeans(t: Tx, balance: nat, gasLimit: nat)
    ensures !Unpayable(t, balance, gasLimit) <==> Affords(t, balance, gasLimit)
  {
  }

  /** A replacement must exceed the old price by the given percentage, so it is always dearer. */
  lemma OutbidsMeans(tx: Tx, replaced: Tx, priceBump: nat)
    ensures Outbids(tx, replaced, priceBump) <==> 100 * tx.price > replaced.price * (100 + priceBump)
    ensures Outbids(tx, replaced, priceBump) ==> tx.price > replaced.price
  {
    var x := replaced.price * (100 + priceBump);
    assert x == 100 * (x / 100) + x % 100;
    assert x == 100 * replaced.price + replaced.price * priceBump;
  }

  /** A transaction can be placed if and only if it outbids the one that holds its nonce, if any. */
  lemma PlaceableMeans(b: Book, tx: Tx, priceBump: nat)
    requires Inv(b)
    ensures Placeable(b, tx, priceBump) <==> forall t :: Holds(b, tx, t) ==> 100 * tx.price > t.price * (100 + priceBump)
  {
    hide Outbids, Inv, ListOf;
    var n, p, q := tx.nonce, ListOf(b.pending, tx.sender), ListOf(b.queue, tx.sender);
    HolderKnown(b, tx, p, q);
    if n in p {
      assert Holds(b, tx, p[n]);
      OutbidsMeans(tx, p[n], priceBump);
    }
    if n in q {
      assert Holds(b, tx, q[n]);
      OutbidsMeans(tx, q[n], priceBump);
    }
  }

  /** An admitted transaction is not behind the chain, can be paid for, and is dear enough unless it is local. */
  lemma AdmissibleMeans(tx: Tx, local: bool, cur: ChainState, wellFormed: bool, locals: set<Address>, gasPrice: nat)
    ensures Admissible(tx, local, cur, wellFormed, locals, gasPrice) <==>
            && wellFormed && tx.nonce >= cur.Nonce(tx.sender) && Affords(tx, cur.Balance(tx.sender), cur.gasLimit)
            && (tx.price >= gasPrice || local || tx.sender in locals)
  {
  }

  // ------------------------------------------------------------------ promotion and reset

  /** The transactions of a list that are not behind the chain and can be paid for. */
  function Survivors(m: TxMap, nonce: nat, balance: nat, gasLimit: nat): TxMap {
    map n | n in m && n >= nonce && Affords(m[n], balance, gasLimit) :: m[n]
  }

  function From(m: TxMap, lo: nat): TxMap {
    map n | n in m && n >= lo :: m[n]
  }

  function UpToNonce(m: TxMap, hi: nat): TxMap {
    map n | n in m && n < hi :: m[n]
  }

  /** What stays queued: everything for a local account, and for a remote one the lowest nonces up to the limit. */
  ghost predicate StaysQueued(queued: TxMap, rest: TxMap, local: bool, cap: nat) {
    if local then queued == rest else Prefix(queued, rest) && |queued| == if |rest| < cap then |rest| else cap
  }

  /** The run of survivors from `lo` up to the first missing nonce, `hi`. */
  ghost predicate LongestRun(run: TxMap, survivors: TxMap, lo: nat, hi: nat) {
    && lo <= hi && hi !in survivors && (forall n :: lo <= n < hi ==> n in survivors)
    && run == map n | n in survivors && lo <= n < hi :: survivors[n]
  }

  lemma SurvivorsAre(q: TxMap, nonce: nat, balance: nat, gasLimit: nat)
    ensures Affordable(AtLeast(q, nonce), balance, gasLimit) == Survivors(q, nonce, balance, gasLimit)
  {
  }

  lemma {:induction false} LowestStays(m: TxMap, cap: nat)
    ensures StaysQueued(Lowest(m, cap), m, false, cap)
    decreases cap
  {
    hide Lowest, Prefix;
    if cap <= |m| {
      LowestIsPrefix(m, cap);
    } else {
      LowestAll(m, cap);
    }
  }

  lemma {:induction false} LowestAll(m: TxMap, cap: nat)
    requires cap >= |m|
    ensures Lowest(m, cap) == m && Prefix(m, m)
    decreases cap
  {
    hide Least;
    LowestOne(m, cap);
    if m.Keys != {} {
      var n := Least(m.Keys);
      LowestAll(m - {n}, cap - 1);
    }
  }

  lemma LowestOne(m: TxMap, cap: nat)
    requires cap >= |m|
    ensures m.Keys == {} ==> Lowest(m, cap) == m
    ensures m.Keys != {} ==>
              var n := Least(m.Keys);
              n in m && cap > 0 && cap - 1 >= |m - {n}| && Lowest(m, cap) == Lowest(m - {n}, cap - 1)[n := m[n]] && (m - {n})[n := m[n]] == m
  {
    assert |m| == |m.Keys|;
    if m.Keys != {} {
      var n := Least(m.Keys);
      assert (m - {n}).Keys == m.Keys - {n};
    }
  }

  /** A promotion moves the longest run from the pending nonce and keeps the rest within the limit. */
  lemma PromoteMeans(q: TxMap, pn: nat, nonce: nat, balance: nat, gasLimit: nat, local: bool, cap: nat)
    requires forall n :: n in q && n >= nonce ==> n >= pn
    ensures var r, s := Promote(q, pn, nonce, balance, gasLimit, if local then None else Some(cap)), Survivors(q, nonce, balance, gasLimit);
            LongestRun(r.ready, s, pn, r.pn) && StaysQueued(r.kept, From(s, r.pn), local, cap)
  {
    var limit := if local then None else Some(cap);
    var r, s := Promote(q, pn, nonce, balance, gasLimit, limit), Survivors(q, nonce, balance, gasLimit);
    SurvivorsAre(q, nonce, balance, gasLimit);
    var e := ReadyEnd(s, pn);
    RunIs(s, pn, e);
    var hi := if UpToNonce(s, e) == map[] then pn else e;
    assert Transactions.Below(s, e) == UpToNonce(s, e) && Transactions.AtLeast(s, e) == From(s, hi);
    if !local {
      LowestStays(From(s, hi), cap);
    }
  }

  lemma RunIs(s: TxMap, pn: nat, e: nat)
    requires e == ReadyEnd(s, pn) && forall n :: n in s ==> n >= pn
    ensures var hi := if UpToNonce(s, e) == map[] then pn else e;
            LongestRun(UpToNonce(s, e), s, pn, hi) && From(s, e) == From(s, hi)
  {
    if s.Keys != {} && Least(s.Keys) <= pn {
      assert Least(s.Keys) == pn && pn in UpToNonce(s, e);
    } else {
      assert UpToNonce(s, e) == map[] by {
        assert forall n :: n in UpToNonce(s, e) ==> n in s;
      }
    }
  }

  lemma CapIs(locals: set<Address>, cap: nat, a: Address)
    ensures CapOf(locals, cap, a) == if a in locals then None else Some(cap)
  {
  }

  lemma QueueAhead(b: Book, a: Address, nonce: nat)
    requires AcctAt(b, true, a) && NonceOf(b.snapshot, a) <= nonce
    ensures forall n :: n in ListOf(b.queue, a) && n >= nonce ==> n >= b.PendingNonce(a)
  {
  }

  /** After a promotion the pending list has grown by the longest run of queued survivors from the pending nonce.
      The other survivors stay queued: all of them for a local account, the lowest up to the limit for a remote one. */
  lemma PromotedMeans(b: Book, was: Book, done: set<Address>, cur: ChainState, locals: set<Address>, cap: nat, a: Address)
    requires PromotedFrom(b, was, done, cur, locals, cap) && a in done
    requires AcctAt(was, true, a) && NonceOf(was.snapshot, a) <= cur.Nonce(a)
    ensures var s, pn, hi := Survivors(ListOf(was.queue, a), cur.Nonce(a), cur.Balance(a), cur.gasLimit), was.PendingNonce(a), b.PendingNonce(a);
            exists run ::
              && LongestRun(run, s, pn, hi) && ListOf(b.pending, a) == ListOf(was.pending, a) + run
              && StaysQueued(ListOf(b.queue, a), From(s, hi), a in locals, cap)
  {
    hide Promote, PromoteAccount, Survivors, LongestRun, StaysQueued, CapOf, AcctAt;
    var p, q, pn := ListOf(was.pending, a), ListOf(was.queue, a), was.PendingNonce(a);
    QueueAhead(was, a, cur.Nonce(a));
    CapIs(locals, cap, a);
    var r := Promote(q, pn, cur.Nonce(a), cur.Balance(a), cur.gasLimit, CapOf(locals, cap, a));
    PromotedLists(was, a, cur, CapOf(locals, cap, a), p, q, pn, r);
    PromoteMeans(q, pn, cur.Nonce(a), cur.Balance(a), cur.gasLimit, a in locals, cap);
    assert AcctSame(b, PromoteAccount(was, a, cur, CapOf(locals, cap, a)), a);
    assert LongestRun(r.ready, Survivors(q, cur.Nonce(a), cur.Balance(a), cur.gasLimit), pn, r.pn);
  }

  /** After a reset the pending list is the longest run of survivors, pending or queued before, from the chain
      nonce.  The other survivors are queued: all of them for a local account, the lowest up to the limit for a
      remote one. */
  lemma ResetMeans(b: Book, was: Book, cur: ChainState, locals: set<Address>, cap: nat, a: Address)
    requires ResetFrom(b, was, cur, locals, cap)
    requires AcctAt(was, false, a) && NonceOf(was.snapshot, a) <= cur.Nonce(a)
    ensures var s, hi := Survivors(ListOf(was.pending, a) + ListOf(was.queue, a), cur.Nonce(a), cur.Balance(a), cur.gasLimit), b.PendingNonce(a);
            && LongestRun(ListOf(b.pending, a), s, cur.Nonce(a), hi)
            && StaysQueued(ListOf(b.queue, a), From(s, hi), a in locals, cap)
  {
    hide *;
    var p, q := ListOf(was.pending, a), ListOf(was.queue, a);
    ResetIs(b, was, cur, locals, cap, a);
    ResetLists(was, a, cur, locals, cap, p, q, p + q);
  }

  lemma ResetLists(was: Book, a: Address, cur: ChainState, locals: set<Address>, cap: nat, p: TxMap, q: TxMap, both: TxMap)
    requires AcctAt(was, false, a) && NonceOf(was.snapshot, a) <= cur.Nonce(a)
    requires p == ListOf(was.pending, a) && q == ListOf(was.queue, a) && both == p + q
    ensures var r, s := ResetAccount(was, a, cur, CapOf(locals, cap, a)), Survivors(both, cur.Nonce(a), cur.Balance(a), cur.gasLimit);
            && LongestRun(ListOf(r.pending, a), s, cur.Nonce(a), r.PendingNonce(a))
            && StaysQueued(ListOf(r.queue, a), From(s, r.PendingNonce(a)), a in locals, cap)
  {
    hide *;
    var d, kept, que := Renonced(DemoteAccount(was, a, cur), a, cur), Kept(p, a, cur), q + Back(p, a, cur);
    DemotedRun(was, a, cur, p, q, both, d, kept, que);
    IsReset(was, a, cur, CapOf(locals, cap, a));
    PromotedRun(d, a, cur, locals, cap, kept, que, both);
  }

  lemma DemotedRun(was: Book, a: Address, cur: ChainState, p: TxMap, q: TxMap, both: TxMap, d: Book, kept: TxMap, que: TxMap)
    requires AcctAt(was, false, a) && NonceOf(was.snapshot, a) <= cur.Nonce(a)
    requires p == ListOf(was.pending, a) && q == ListOf(was.queue, a) && both == p + q
    requires d == Renonced(DemoteAccount(was, a, cur), a, cur) && kept == Kept(p, a, cur) && que == q + Back(p, a, cur)
    ensures ListOf(d.pending, a) == kept && ListOf(d.queue, a) == que && d.PendingNonce(a) == cur.Nonce(a) + |kept|
    ensures Interval(kept, cur.Nonce(a), cur.Nonce(a) + |kept|)
    ensures forall n :: n in que && n >= cur.Nonce(a) ==> n >= cur.Nonce(a) + |kept|
    ensures var s, balance, gas := cur.Nonce(a), cur.Balance(a), cur.gasLimit;
            Survivors(both, s, balance, gas) == kept + Survivors(que, s, balance, gas)
  {
    hide Kept, Back, DemoteAccount, Renonced, AllPayable, Survivors, AcctAt, ListOf, NonceOf;
    DemotionOf(was, a, cur, p, q);
    DemotedLists(was, a, cur, p, q);
    SurvivorsSplit(was, a, cur, p, q);
    RenoncedLists(DemoteAccount(was, a, cur), a, cur, kept, que);
  }

  /** Promoting an account whose pending list is a run from the chain nonce leaves the longest run of survivors. */
  lemma PromotedRun(d: Book, a: Address, cur: ChainState, locals: set<Address>, cap: nat, kept: TxMap, que: TxMap, both: TxMap)
    requires ListOf(d.pending, a) == kept && ListOf(d.queue, a) == que && d.PendingNonce(a) == cur.Nonce(a) + |kept|
    requires Interval(kept, cur.Nonce(a), cur.Nonce(a) + |kept|)
    requires forall n :: n in que && n >= cur.Nonce(a) ==> n >= cur.Nonce(a) + |kept|
    requires var s, balance, gas := cur.Nonce(a), cur.Balance(a), cur.gasLimit;
             Survivors(both, s, balance, gas) == kept + Survivors(que, s, balance, gas)
    ensures var r, s := PromoteAccount(d, a, cur, CapOf(locals, cap, a)), Survivors(both, cur.Nonce(a), cur.Balance(a), cur.gasLimit);
            && LongestRun(ListOf(r.pending, a), s, cur.Nonce(a), r.PendingNonce(a))
            && StaysQueued(ListOf(r.queue, a), From(s, r.PendingNonce(a)), a in locals, cap)
  {
    hide PromoteAccount, Promote, LongestRun, StaysQueued, Survivors, CapOf, ListOf, NonceOf, From;
    CapIs(locals, cap, a);
    var s, e := cur.Nonce(a), cur.Nonce(a) + |kept|;
    var r := Promote(que, e, s, cur.Balance(a), cur.gasLimit, CapOf(locals, cap, a));
    PromotedLists(d, a, cur, CapOf(locals, cap, a), kept, que, e, r);
    PromoteMeans(que, e, s, cur.Balance(a), cur.gasLimit, a in locals, cap);
    SurvivorsAhead(que, s, e, cur.Balance(a), cur.gasLimit);
    RunsJoin(kept, r.ready, Survivors(que, s, cur.Balance(a), cur.gasLimit), Survivors(both, s, cur.Balance(a), cur.gasLimit), s, e, r.pn);
  }

  lemma ResetIs(b: Book, was: Book, cur: ChainState, locals: set<Address>, cap: nat, a: Address)
    requires ResetFrom(b, was, cur, locals, cap)
    ensures var r := ResetAccount(was, a, cur, CapOf(locals, cap, a));
            ListOf(b.pending, a) == ListOf(r.pending, a) && ListOf(b.queue, a) == ListOf(r.queue, a) && b.PendingNonce(a) == r.PendingNonce(a)
  {
    assert AcctSame(b, ResetAccount(was, a, cur, CapOf(locals, cap, a)), a);
  }

  lemma SurvivorsAhead(q: TxMap, s: nat, e: nat, balance: nat, gasLimit: nat)
    requires forall n :: n in q && n >= s ==> n >= e
    ensures forall n :: n in Survivors(q, s, balance, gasLimit) ==> n >= e
  {
  }

  /** The survivors of both lists are what stays pending and the survivors of what is queued after the demotion. */
  lemma SurvivorsSplit(was: Book, a: Address, cur: ChainState, p: TxMap, q: TxMap)
    requires AcctAt(was, false, a) && p == ListOf(was.pending, a) && q == ListOf(was.queue, a)
    ensures var s, balance, gas := cur.Nonce(a), cur.Balance(a), cur.gasLimit;
            Survivors(p + q, s, balance, gas) == Kept(p, a, cur) + Survivors(q + Back(p, a, cur), s, balance, gas)
  {
    var s, balance, gas := cur.Nonce(a), cur.Balance(a), cur.gasLimit;
    var left := Transactions.AtLeast(p, s);
    assert p.Keys !! q.Keys;
    FilterPartitions(left, true, balance, gas);
    KeptPayable(left, balance, gas);
    BackPayable(left, balance, gas);
    SplitParts(p, q, left, Kept(p, a, cur), Costly(left, balance, gas), Back(p, a, cur), s, balance, gas);
  }

  lemma BackPayable(left: TxMap, balance: nat, gas: nat)
    ensures AllPayable(FilterInvalidates(left, true, balance, gas), balance, gas)
    ensures forall n :: n in Costly(left, balance, gas) ==> Unpayable(Costly(left, balance, gas)[n], balance, gas)
  {
  }

  lemma SplitParts(p: TxMap, q: TxMap, left: TxMap, kept: TxMap, costly: TxMap, back: TxMap, s: nat, balance: nat, gas: nat)
    requires p.Keys !! q.Keys && left == Transactions.AtLeast(p, s) && kept + costly + back == left
    requires kept.Keys !! costly.Keys && kept.Keys !! back.Keys && costly.Keys !! back.Keys
    requires AllPayable(kept, balance, gas) && AllPayable(back, balance, gas)
    requires forall n :: n in costly ==> Unpayable(costly[n], balance, gas)
    ensures Survivors(p + q, s, balance, gas) == kept + Survivors(q + back, s, balance, gas)
  {
    hide Affords, Unpayable;
    var one, two := Survivors(p + q, s, balance, gas), kept + Survivors(q + back, s, balance, gas);
    forall n
      ensures (n in one <==> n in two) && (n in one ==> one[n] == two[n])
    {
      SplitPart(p, q, left, kept, costly, back, s, balance, gas, n);
    }
  }

  lemma SplitPart(p: TxMap, q: TxMap, left: TxMap, kept: TxMap, costly: TxMap, back: TxMap, s: nat, balance: nat, gas: nat, n: nat)
    requires p.Keys !! q.Keys && left == Transactions.AtLeast(p, s) && kept + costly + back == left
    requires kept.Keys !! costly.Keys && kept.Keys !! back.Keys && costly.Keys !! back.Keys
    requires AllPayable(kept, balance, gas) && AllPayable(back, balance, gas)
    requires forall n :: n in costly ==> Unpayable(costly[n], balance, gas)
    ensures var one, two := Survivors(p + q, s, balance, gas), kept + Survivors(q + back, s, balance, gas);
            (n in one <==> n in two) && (n in one ==> one[n] == two[n])
  {
    hide Affords, Unpayable;
    assert n in left <==> n in kept || n in costly || n in back;
    if n in left {
      assert left[n] == (kept + costly + back)[n];
      PayableMeans(p[n], balance, gas);
    }
  }

  lemma RunsJoin(kept: TxMap, ready: TxMap, some: TxMap, all: TxMap, s: nat, e: nat, hi: nat)
    requires Interval(kept, s, e) && LongestRun(ready, some, e, hi) && all == kept + some && forall n :: n in some ==> n >= e
    ensures LongestRun(kept + ready, all, s, hi) && From(all, hi) == From(some, hi)
  {
  }

  // ------------------------------------------------------------------ removal

  /** Removing a known transaction forgets it and nobody else.  If its nonce is pending, the lower nonces stay
      pending, the higher ones go to the queue unless no lower one is left, and the nonce is handed out next;
      otherwise only the queued transaction of that nonce is taken off.  No other account changes. */
  lemma RemovedMeans(b: Book, tx: Tx)
    requires Inv(b) && tx in b.all
    ensures var a, n, c := tx.sender, tx.nonce, Books.RemoveTx(b, tx);
            var p, q := ListOf(b.pending, a), ListOf(b.queue, a);
            && c.all == b.all - {tx}
            && (n in p ==>
                  && ListOf(c.pending, a) == UpToNonce(p, n) && c.PendingNonce(a) == n
                  && ListOf(c.queue, a) == q + if UpToNonce(p, n) == map[] then map[] else From(p, n + 1))
            && (n !in p ==> ListOf(c.pending, a) == p && ListOf(c.queue, a) == q - {n} && c.PendingNonce(a) == b.PendingNonce(a))
            && (forall x :: x != a ==>
                  && ListOf(c.pending, x) == ListOf(b.pending, x) && ListOf(c.queue, x) == ListOf(b.queue, x)
                  && c.PendingNonce(x) == b.PendingNonce(x))
  {
    hide File, Inv, SentBack, ListOf;
    SentBackIs(ListOf(b.pending, tx.sender), tx.nonce);
    PendingBelow(b, tx.sender, tx.nonce);
  }

  lemma SentBackIs(p: TxMap, n: nat)
    ensures Transactions.Below(p, n) == UpToNonce(p, n) && SentBack(p, n) == if UpToNonce(p, n) == map[] then map[] else From(p, n + 1)
  {
    assert Transactions.Below(p, n) == UpToNonce(p, n) && Transactions.AtLeast(p, n + 1) == From(p, n + 1);
  }

  lemma PendingBelow(b: Book, a: Address, n: nat)
    requires Inv(b)
    ensures n in ListOf(b.pending, a) ==> n < b.PendingNonce(a)
  {
    assert AcctAt(b, false, a);
  }

  // ------------------------------------------------------------------ the limits

  /** After the limits: the queues fit unless no remote one is left, nothing was dropped that would have fit, local queues
      are whole, and what is left of a remote queue are its lowest nonces. */
  lemma QueueLimited(now: Book, promoted: Book, locals: set<Address>, config: Config, level: nat, order: seq<Address>)
    requires Limited(now, promoted, locals, config, level, order)
    ensures Total(now.queue) <= config.globalQueue || forall a :: a !in locals ==> ListOf(now.queue, a) == map[]
    ensures Total(promoted.queue) <= config.globalQueue ==> Total(now.queue) >= Total(promoted.queue)
    ensures Total(promoted.queue) > config.globalQueue ==> Total(now.queue) >= config.globalQueue
    ensures forall a :: Prefix(ListOf(now.queue, a), ListOf(promoted.queue, a)) && (a in locals ==> ListOf(now.queue, a) == ListOf(promoted.queue, a))
  {
    hide Total, Prefix, IsWaterLevel;
    OverflowIs(promoted.queue, config.globalQueue);
    forall a
      ensures Prefix(ListOf(now.queue, a), ListOf(promoted.queue, a))
      ensures a in locals ==> ListOf(now.queue, a) == ListOf(promoted.queue, a)
      ensures a !in promoted.queue ==> ListOf(now.queue, a) == map[]
    {
      assert Shrunk(now.queue, promoted.queue, Elems(order));
    }
    if Emptied(now.queue, Elems(order)) {
      forall a | a !in locals
        ensures ListOf(now.queue, a) == map[]
      {
        assert a in promoted.queue ==> a in Elems(order);
      }
    }
  }
}
