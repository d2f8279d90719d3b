/** The transaction pool. */
module TxPools {
  import opened Options
  import opened Transactions
  import opened SortedMaps
  import opened TxLists
  import opened PricedLists
  import opened Books
  import opened WaterLevels
  import opened QueueLimits
  import opened Resets
  import opened Tidiness

  datatype Config = Config(priceBump: nat, accountSlots: nat, globalSlots: nat, accountQueue: nat, globalQueue: nat)

  datatype AddError = NoError | KnownTransaction | InvalidTransaction | Underpriced | ReplaceUnderpriced

  lemma FileBack(m: Lists, a: Address)
    requires NoEmpty(m)
    ensures File(m, a, ListOf(m, a)) == m
  {
  }

  lemma EnqueueShape(b: Book, tx: Tx, priceBump: nat)
    requires NoEmpty(b.pending) && Accepts(ListOf(b.queue, tx.sender), tx, priceBump)
    ensures var q := ListOf(b.queue, tx.sender);
            Enqueue(b, tx, priceBump) == b.(queue := b.queue[tx.sender := q[tx.nonce := tx]], all := Swap(b.all, q, tx))
  {
    FileBack(b.pending, tx.sender);
    assert tx.nonce in ListOf(b.queue, tx.sender)[tx.nonce := tx];
  }

  /** The books with a batch of transactions added to an account's queue. */
  function WithQueued(b: Book, a: Address, m: TxMap): Book {
    b.(queue := File(b.queue, a, ListOf(b.queue, a) + m), all := b.all + Txs(m))
  }

  /** `m` holds transactions of `a` under nonces that `q` does not use. */
  ghost predicate NewTo(m: TxMap, q: TxMap, a: Address) {
    m.Keys !! q.Keys && forall k :: k in m ==> m[k].nonce == k && m[k].sender == a
  }

  /** Enqueueing one transaction after another amounts to adding the batch. */
  lemma QueueOneMore(b: Book, a: Address, m: TxMap, todo: set<nat>, n: nat, priceBump: nat)
    requires NoEmpty(b.pending) && todo <= m.Keys && n in todo && NewTo(m, ListOf(b.queue, a), a)
    ensures Enqueue(WithQueued(b, a, m - todo), m[n], priceBump) == WithQueued(b, a, m - (todo - {n}))
  {
    hide Enqueue, File, Txs, NoEmpty;
    var some, more, tx := m - todo, m - (todo - {n}), m[n];
    var c := WithQueued(b, a, some);
    var q, q0 := ListOf(c.queue, a), ListOf(b.queue, a);
    assert n !in q;
    EnqueueShape(c, tx, priceBump);
    assert more == some[n := tx];
    var grown: TxMap := q0 + some;
    assert grown[n := tx] == q0 + more;
    TxsGrow(some, tx);
    RefileGrown(b.queue, a, grown, n, tx);
  }

  lemma RefileGrown(m: Lists, a: Address, l: TxMap, n: nat, tx: Tx)
    ensures var l': TxMap := l[n := tx]; File(m, a, l)[a := l'] == File(m, a, l')
  {
    assert n in l[n := tx].Keys;
  }

  lemma TxsGrow(m: TxMap, tx: Tx)
    requires ByNonce(m) && tx.nonce !in m
    ensures Txs(m[tx.nonce := tx]) == Txs(m) + {tx}
  {
    forall t
      ensures t in Txs(m[tx.nonce := tx]) <==> t in Txs(m) || t == tx
    {
      TxsMember(m[tx.nonce := tx], t);
      TxsMember(m, t);
    }
  }

  lemma QueueNone(b: Book, a: Address, m: TxMap)
    requires NoEmpty(b.queue)
    ensures WithQueued(b, a, m - m.Keys) == b
  {
    var none := m - m.Keys;
    assert none == map[] && Txs(none) == {};
    assert ListOf(b.queue, a) + none == ListOf(b.queue, a);
    FileBack(b.queue, a);
  }

  /** What cutting a pending list does to each part of the books. */
  lemma PendingFacts(b: Book, a: Address, n: nat)
    requires Inv(b) && n in ListOf(b.pending, a)
    ensures b.PendingNonce(a) > n && Owned(ListOf(b.pending, a), a, b.all) && NoEmpty(b.pending) && NoEmpty(b.queue)
  {
    assert AcctAt(b, false, a);
  }

  lemma CutPendingParts(b: Book, tx: Tx)
    requires Inv(b) && tx.nonce in ListOf(b.pending, tx.sender)
    ensures b.PendingNonce(tx.sender) > tx.nonce
    ensures var a, n, p, q, c := tx.sender, tx.nonce, ListOf(b.pending, tx.sender), ListOf(b.queue, tx.sender), CutPending(b, tx);
            && c.pending == File(b.pending, a, Below(p, n)) && c.snapshot == b.snapshot
            && c.managed == b.managed[a := n]
            && c.queue == (if Below(p, n) == map[] then b.queue else File(b.queue, a, q + AtLeast(p, n + 1)))
            && c.all == b.all - {tx} && c.all + Txs(AtLeast(p, n + 1)) == c.all
  {
    var a, n, p, q := tx.sender, tx.nonce, ListOf(b.pending, tx.sender), ListOf(b.queue, tx.sender);
    hide Inv, Below, AtLeast, Txs, Owned, File, ListOf, NoEmpty;
    PendingFacts(b, a, n);
    assert q + map[] == q;
    FileBack(b.queue, a);
    BackStaysKnown(p, n, b.all, tx, a);
  }

  lemma BackStaysKnown(p: TxMap, n: nat, all: set<Tx>, tx: Tx, a: Address)
    requires Owned(p, a, all) && tx.nonce == n
    ensures (all - {tx}) + Txs(AtLeast(p, n + 1)) == all - {tx}
  {
    var back := AtLeast(p, n + 1);
    forall t | t in Txs(back)
      ensures t in all - {tx}
    {
      TxsMember(back, t);
    }
  }

  lemma SentBackIsNew(b: Book, a: Address, n: nat)
    requires Inv(b)
    ensures NewTo(AtLeast(ListOf(b.pending, a), n), ListOf(b.queue, a), a)
  {
    assert AcctAt(b, false, a);
  }

  lemma DropQueuedShape(b: Book, tx: Tx)
    requires Inv(b)
    ensures DropQueued(b, tx) == b.(queue := File(b.queue, tx.sender, ListOf(b.queue, tx.sender) - {tx.nonce}), all := b.all - {tx})
  {
    FileBack(b.pending, tx.sender);
  }

  /** The books after removing transactions one after another. */
  function RemoveAll(b: Book, txs: seq<Tx>): Book
    decreases |txs|
  {
    if txs == [] then b else RemoveAll(Books.RemoveTx(b, txs[0]), txs[1..])
  }

  /** The books after a valid transaction has found its place. */
  function Placed(b: Book, tx: Tx, priceBump: nat): Book {
    if tx.nonce in ListOf(b.pending, tx.sender) then ReplacePending(b, tx) else Enqueue(b, tx, priceBump)
  }

  /** Whether the sender already has a transaction with this nonce. */
  predicate Occupied(b: Book, tx: Tx) {
    tx.nonce in ListOf(b.pending, tx.sender) || tx.nonce in ListOf(b.queue, tx.sender)
  }

  /** Whether the transaction outbids the one it would replace, if any. */
  predicate Placeable(b: Book, tx: Tx, priceBump: nat) {
    && Accepts(ListOf(b.pending, tx.sender), tx, priceBump)
    && (tx.nonce in ListOf(b.pending, tx.sender) || Accepts(ListOf(b.queue, tx.sender), tx, priceBump))
  }

  lemma PlacedKeepsInv(b: Book, tx: Tx, priceBump: nat)
    requires Inv(b) && tx !in b.all && tx.nonce >= NonceOf(b.snapshot, tx.sender)
    ensures Inv(Placed(b, tx, priceBump))
  {
    if tx.nonce in ListOf(b.pending, tx.sender) {
      ReplacePendingKeepsInv(b, tx);
    } else {
      assert AcctAt(b, false, tx.sender);
      EnqueueKeepsInv(b, tx, priceBump);
    }
  }

  /** `t` holds the nonce of `tx`. */
  ghost predicate Holds(b: Book, tx: Tx, t: Tx) {
    t.nonce == tx.nonce && (In(ListOf(b.pending, tx.sender), t) || In(ListOf(b.queue, tx.sender), t))
  }

  /** The parts of the books after a transaction has been placed. */
  lemma PlacedParts(b: Book, tx: Tx, priceBump: nat, p: TxMap, q: TxMap)
    requires Placeable(b, tx, priceBump) && p == ListOf(b.pending, tx.sender) && q == ListOf(b.queue, tx.sender)
    ensures var a, n, c := tx.sender, tx.nonce, Placed(b, tx, priceBump);
            && ListOf(c.pending, a) == (if n in p then p[n := tx] else p) && ListOf(c.queue, a) == (if n in p then q else q[n := tx])
            && c.all == (if n in p then b.all - {p[n]} else if n in q then b.all - {q[n]} else b.all) + {tx}
            && (forall x :: x != a ==> ListOf(c.pending, x) == ListOf(b.pending, x) && ListOf(c.queue, x) == ListOf(b.queue, x))
            && (forall x :: c.PendingNonce(x) == b.PendingNonce(x))
  {
    hide Outbids, File;
  }

  lemma HolderKnown(b: Book, tx: Tx, p: TxMap, q: TxMap)
    requires Inv(b) && p == ListOf(b.pending, tx.sender) && q == ListOf(b.queue, tx.sender)
    ensures var n := tx.nonce;
            && (n in p ==> n !in q && p[n] in b.all && p[n].nonce == n && p[n].sender == tx.sender)
            && (n in q ==> q[n] in b.all && q[n].nonce == n && q[n].sender == tx.sender)
  {
    assert AcctAt(b, false, tx.sender);
  }

  lemma SwapSize(all: set<Tx>, gone: Tx, tx: Tx)
    requires tx !in all
    ensures |all + {tx}| == |all| + 1 && (gone in all ==> |(all - {gone}) + {tx}| == |all|)
  {
  }

  /** A placed transaction takes over from the one that held its nonce, which is forgotten; nobody else is. */
  lemma PlacedKnown(b: Book, tx: Tx, priceBump: nat)
    requires Inv(b) && tx !in b.all && Placeable(b, tx, priceBump)
    ensures forall t :: t in Placed(b, tx, priceBump).all <==> t == tx || (t in b.all && !Holds(b, tx, t))
    ensures |Placed(b, tx, priceBump).all| == |b.all| + if Occupied(b, tx) then 0 else 1
  {
    hide Inv, Placed, Placeable, ListOf;
    var n, p, q := tx.nonce, ListOf(b.pending, tx.sender), ListOf(b.queue, tx.sender);
    PlacedParts(b, tx, priceBump, p, q);
    HolderKnown(b, tx, p, q);
    SwapSize(b.all, if n in p then p[n] else if n in q then q[n] else tx, tx);
  }

  /** A placed transaction is listed, and no other known one comes off its list. */
  lemma PlacedTidy(b: Book, tx: Tx, priceBump: nat)
    requires Inv(b) && tx !in b.all && Placeable(b, tx, priceBump)
    ensures Tidy(Placed(b, tx, priceBump), b) && Listed(Placed(b, tx, priceBump), tx)
  {
    hide Inv, Placed, Placeable, ListOf;
    var n, c, p, q := tx.nonce, Placed(b, tx, priceBump), ListOf(b.pending, tx.sender), ListOf(b.queue, tx.sender);
    PlacedParts(b, tx, priceBump, p, q);
    HolderKnown(b, tx, p, q);
    forall t | t in c.all && !Listed(c, t)
      ensures t in b.all && !Listed(b, t)
    {
    }
  }

  /** The transaction is listed, and one more is known unless it took over from another; that one is forgotten. */
  ghost predicate Took(c: Book, b: Book, tx: Tx, replaced: bool) {
    && Listed(c, tx) && |c.all| == |b.all| + (if replaced then 0 else 1)
    && (forall t :: t in c.all <==> t == tx || (t in b.all && !Holds(b, tx, t))) && Tidy(c, b)
  }

  lemma PlacedResult(b: Book, tx: Tx, priceBump: nat)
    requires Inv(b) && tx !in b.all
    ensures Placeable(b, tx, priceBump) ==> Took(Placed(b, tx, priceBump), b, tx, Occupied(b, tx))
  {
    hide Inv, Placed, Placeable, Tidy, Listed, Holds, Occupied;
    if Placeable(b, tx, priceBump) {
      PlacedKnown(b, tx, priceBump);
      PlacedTidy(b, tx, priceBump);
    }
  }

  lemma ReplacePendingParts(b: Book, tx: Tx)
    requires NoEmpty(b.queue)
    ensures var c, p := ReplacePending(b, tx), ListOf(b.pending, tx.sender);
            && c.pending == b.pending[tx.sender := p[tx.nonce := tx]] && c.queue == b.queue
            && c.managed == b.managed && c.snapshot == b.snapshot && c.all == Swap(b.all, p, tx)
  {
    FileBack(b.queue, tx.sender);
    assert tx.nonce in ListOf(b.pending, tx.sender)[tx.nonce := tx];
  }

  /** Removing transactions one after another forgets exactly those. */
  lemma {:induction false} RemoveAllForgets(b: Book, txs: seq<Tx>)
    ensures RemoveAll(b, txs).all == b.all - Dropped(txs) && RemoveAll(b, txs).snapshot == b.snapshot
    decreases |txs|
  {
    if txs != [] {
      RemoveAllForgets(Books.RemoveTx(b, txs[0]), txs[1..]);
      assert txs == [txs[0]] + txs[1..];
      assert Dropped(txs) == {txs[0]} + Dropped(txs[1..]);
    }
  }

  lemma ListingOfInterval(m: TxMap, lo: nat, hi: nat, i: nat)
    requires Interval(m, lo, hi) && ByNonce(m) && i < hi - lo
    ensures |Listing(m)| == hi - lo && Listing(m)[i] == m[lo + i]
    decreases hi - lo
  {
    IntervalSize(m, lo, hi);
    ListingSize(m);
    assert lo in m && IsLeast(lo, m.Keys);
    ListingFirst(m, lo);
    if i > 0 {
      assert Interval(m - {lo}, lo + 1, hi);
      ListingOfInterval(m - {lo}, lo + 1, hi, i - 1);
    }
  }

  lemma StartRun(pending: Lists, a: Address, ready: TxMap, lo: nat, hi: nat)
    requires NoEmpty(pending) && Interval(ready, lo, hi)
    ensures pending == File(pending, a, ListOf(pending, a) + Below(ready, lo))
    ensures |Listing(ready)| == hi - lo && Below(ready, hi) == ready && (ready == map[] <==> hi == lo)
  {
    ListingSize(ready);
    IntervalSize(ready, lo, hi);
    assert ListOf(pending, a) + Below(ready, lo) == ListOf(pending, a);
    FileBack(pending, a);
  }

  /** The next transaction of a run is accepted and replaces nothing. */
  lemma NextInRun(p: TxMap, a: Address, ready: TxMap, lo: nat, hi: nat, n: nat, priceBump: nat, all: set<Tx>)
    requires Interval(ready, lo, hi) && lo <= n < hi && Owned(ready, a, all) && ready.Keys !! p.Keys
    ensures n in ready && |Listing(ready)| == hi - lo && Listing(ready)[n - lo] == ready[n] && ready[n].nonce == n
    ensures Accepts(p + Below(ready, n), ready[n], priceBump) && Swap(all, p + Below(ready, n), ready[n]) == all
  {
    ListingOfInterval(ready, lo, hi, n - lo);
    assert n !in p + Below(ready, n);
  }

  /** The pending nonces after a run from `lo` up to `n` has been promoted. */
  function RunNonce(managed: map<Address, nat>, a: Address, lo: nat, n: nat): map<Address, nat> {
    if n == lo then managed else managed[a := n]
  }

  lemma RunNonceNext(managed: map<Address, nat>, a: Address, lo: nat, n: nat)
    requires lo <= n
    ensures RunNonce(managed, a, lo, n)[a := n + 1] == RunNonce(managed, a, lo, n + 1)
    ensures RunNonce(managed, a, lo, lo) == managed
  {
  }

  lemma RunNonceEnd(managed: map<Address, nat>, a: Address, lo: nat, hi: nat)
    ensures RunNonce(managed, a, lo, hi) == if lo == hi then managed else managed[a := hi]
  {
  }

  lemma RunGrows(pending: Lists, a: Address, p: TxMap, ready: TxMap, n: nat)
    requires n in ready
    ensures var list: TxMap := p + Below(ready, n);
            File(pending, a, list)[a := list[n := ready[n]]] == File(pending, a, p + Below(ready, n + 1))
  {
    var list: TxMap := p + Below(ready, n);
    assert list[n := ready[n]] == p + Below(ready, n + 1);
    RefileGrown(pending, a, list, n, ready[n]);
  }

  /** Forgetting the stale, then the unpayable, then those over the limit forgets all that does not stay. */
  lemma ForgetInSteps(all: set<Tx>, q: TxMap, nonce: nat, balance: nat, gasLimit: nat, e: nat, kept: TxMap)
    requires ByNonce(q)
    requires PartOf(kept, AtLeast(Affordable(AtLeast(q, nonce), balance, gasLimit), e))
    ensures var left := AtLeast(q, nonce);
            var payable := Affordable(left, balance, gasLimit);
            all - Txs(Below(q, nonce)) - Txs(Costly(left, balance, gasLimit)) - Txs(AtLeast(payable, e) - kept.Keys)
            == all - Txs(q - (Below(payable, e).Keys + kept.Keys))
  {
    var left := AtLeast(q, nonce);
    var payable := Affordable(left, balance, gasLimit);
    forall t
      ensures t in Txs(q - (Below(payable, e).Keys + kept.Keys)) <==>
                t in Txs(Below(q, nonce)) || t in Txs(Costly(left, balance, gasLimit)) || t in Txs(AtLeast(payable, e) - kept.Keys)
    {
      TxsMember(q - (Below(payable, e).Keys + kept.Keys), t);
      TxsMember(Below(q, nonce), t);
      TxsMember(Costly(left, balance, gasLimit), t);
      TxsMember(AtLeast(payable, e) - kept.Keys, t);
    }
  }

  lemma LowestIsPart(m: TxMap, cap: Option<nat>)
    ensures PartOf(if cap == None then m else Lowest(m, cap.value), m)
  {
  }

  /** The queued transactions that are neither stale nor unpayable. */
  function PayableOf(q: TxMap, a: Address, cur: ChainState): TxMap {
    Affordable(AtLeast(q, cur.Nonce(a)), cur.Balance(a), cur.gasLimit)
  }

  /** The known transactions after forgetting the stale and the unpayable ones of a queue. */
  function KnownAfter(all: set<Tx>, q: TxMap, a: Address, cur: ChainState): set<Tx> {
    all - Txs(Below(q, cur.Nonce(a))) - Txs(Costly(AtLeast(q, cur.Nonce(a)), cur.Balance(a), cur.gasLimit))
  }

  function KeptOf(rest: TxMap, cap: Option<nat>): TxMap {
    if cap == None then rest else Lowest(rest, cap.value)
  }

  /** The promoted run continues the pending list, and its transactions stay known. */
  lemma ReadyFacts(p: TxMap, q: TxMap, lo: nat, pn: nat, a: Address, all: set<Tx>, cur: ChainState, cap: Option<nat>)
    requires AcctOk(p, q, lo, pn, true, a, all) && cur.Nonce(a) >= lo
    ensures var r := Promote(q, pn, cur.Nonce(a), cur.Balance(a), cur.gasLimit, cap);
            && Interval(r.ready, pn, r.pn) && (r.ready == map[] <==> r.pn == pn)
            && r.ready.Keys !! p.Keys && Owned(r.ready, a, KnownAfter(all, q, a, cur))
  {
    var r := Promote(q, pn, cur.Nonce(a), cur.Balance(a), cur.gasLimit, cap);
    PromoteRun(q, pn, cur.Nonce(a), cur.Balance(a), cur.gasLimit, cap);
    IntervalSize(r.ready, pn, r.pn);
    ReadyStaysKnown(q, a, all, cur.Nonce(a), cur.Balance(a), cur.gasLimit, ReadyEnd(PayableOf(q, a, cur), pn));
  }

  lemma RestForgotten(q: TxMap, pn: nat, a: Address, all: set<Tx>, cur: ChainState, cap: Option<nat>, e: nat)
    requires ByNonce(q) && e == ReadyEnd(PayableOf(q, a, cur), pn)
    ensures var r := Promote(q, pn, cur.Nonce(a), cur.Balance(a), cur.gasLimit, cap);
            var rest := AtLeast(PayableOf(q, a, cur), e);
            && r.ready == Below(PayableOf(q, a, cur), e) && r.kept == KeptOf(rest, cap)
            && all - Txs(q - (r.ready.Keys + r.kept.Keys)) == KnownAfter(all, q, a, cur) - Txs(rest - KeptOf(rest, cap).Keys)
  {
    var rest := AtLeast(PayableOf(q, a, cur), e);
    LowestIsPart(rest, cap);
    ForgetInSteps(all, q, cur.Nonce(a), cur.Balance(a), cur.gasLimit, e, KeptOf(rest, cap));
  }

  /** What a promotion does to each part of the books, in the order the pool does it. */
  lemma PromoteAccountParts(b: Book, a: Address, cur: ChainState, cap: Option<nat>, e: nat)
    requires AcctAt(b, true, a) && cur.Nonce(a) >= NonceOf(b.snapshot, a)
    requires e == ReadyEnd(PayableOf(ListOf(b.queue, a), a, cur), b.PendingNonce(a))
    ensures var p, q, pn, c := ListOf(b.pending, a), ListOf(b.queue, a), b.PendingNonce(a), PromoteAccount(b, a, cur, cap);
            var ready, rest := Below(PayableOf(q, a, cur), e), AtLeast(PayableOf(q, a, cur), e);
            && Interval(ready, pn, c.PendingNonce(a)) && ready.Keys !! p.Keys && Owned(ready, a, KnownAfter(b.all, q, a, cur))
            && c.pending == File(b.pending, a, p + ready) && c.queue == File(b.queue, a, KeptOf(rest, cap)) && c.snapshot == b.snapshot
            && c.managed == (if ready == map[] then b.managed else b.managed[a := c.PendingNonce(a)])
            && c.all == KnownAfter(b.all, q, a, cur) - Txs(rest - KeptOf(rest, cap).Keys)
  {
    var p, q, pn := ListOf(b.pending, a), ListOf(b.queue, a), b.PendingNonce(a);
    RestForgotten(q, pn, a, b.all, cur, cap, e);
    ReadyFacts(p, q, NonceOf(b.snapshot, a), pn, a, b.all, cur, cap);
  }

  lemma ReadyStaysKnown(q: TxMap, a: Address, all: set<Tx>, nonce: nat, balance: nat, gasLimit: nat, e: nat)
    requires Owned(q, a, all)
    ensures var left := AtLeast(q, nonce);
            Owned(Below(Affordable(left, balance, gasLimit), e), a, all - Txs(Below(q, nonce)) - Txs(Costly(left, balance, gasLimit)))
  {
    var left := AtLeast(q, nonce);
    var ready := Below(Affordable(left, balance, gasLimit), e);
    forall n | n in ready
      ensures ready[n] !in Txs(Below(q, nonce)) && ready[n] !in Txs(Costly(left, balance, gasLimit))
    {
      TxsMember(Below(q, nonce), ready[n]);
      TxsMember(Costly(left, balance, gasLimit), ready[n]);
    }
  }

  /** No chain nonce is lower than it was at the last reset. */
  ghost predicate NotBehind(snapshot: map<Address, nat>, cur: ChainState) {
    forall a :: NonceOf(snapshot, a) <= cur.Nonce(a)
  }

  /** Every account is in order, except that the queues of those in `todo` may be stale. */
  ghost predicate InOrder(b: Book, todo: set<Address>) {
    NoEmpty(b.pending) && NoEmpty(b.queue) && forall a :: AcctAt(b, a in todo, a)
  }

  lemma PromoteKeepsOrder(b: Book, todo: set<Address>, a: Address, cur: ChainState, cap: Option<nat>)
    requires InOrder(b, todo) && a in todo && NotBehind(b.snapshot, cur)
    ensures InOrder(PromoteAccount(b, a, cur, cap), todo - {a})
    ensures PromoteAccount(b, a, cur, cap).all <= b.all
  {
    var p, q := ListOf(b.pending, a), ListOf(b.queue, a);
    var r := Promote(q, b.PendingNonce(a), cur.Nonce(a), cur.Balance(a), cur.gasLimit, cap);
    FileNoEmpty(b.pending, a, p + r.ready);
    FileNoEmpty(b.queue, a, r.kept);
    assert AcctAt(b, a in todo, a) && NonceOf(b.snapshot, a) <= cur.Nonce(a);
    forall x
      ensures AcctAt(PromoteAccount(b, a, cur, cap), x in todo - {a}, x)
    {
      assert AcctAt(b, x in todo, x);
      PromoteAccountOk(b, a, cur, cap, x in todo, x);
    }
  }

  lemma EmptyQueueIsFresh(b: Book, todo: set<Address>, a: Address)
    requires InOrder(b, todo) && a !in b.queue
    ensures InOrder(b, todo - {a})
  {
    forall x
      ensures AcctAt(b, x in todo - {a}, x)
    {
      assert AcctAt(b, x in todo, x);
    }
  }

  lemma OrderIsInv(b: Book)
    requires InOrder(b, {})
    ensures Inv(b)
  {
    var none: set<Address> := {};
    forall a
      ensures AcctAt(b, false, a)
    {
      assert AcctAt(b, a in none, a);
    }
  }

  lemma CapOneParts(b: Book, a: Address)
    requires Inv(b) && a in b.pending && |b.pending[a]| >= 2
    ensures ListOf(b.pending, a) == b.pending[a] && b.pending[a].Keys != {}
    ensures var n, c := Greatest(b.pending[a].Keys), CapOne(b, a);
            && c.pending == b.pending[a := DropTop(b.pending[a])] && c.queue == b.queue && c.snapshot == b.snapshot
            && c.managed == (if b.PendingNonce(a) > n then b.managed[a := n] else b.managed)
            && c.all == b.all - {b.pending[a][n]} && Inv(c)
  {
    assert |b.pending[a]| == |b.pending[a].Keys|;
    CapOneKeepsInv(b, a);
    FileBack(b.queue, a);
    DropTopIsPrefix(b.pending[a], b.pending[a]);
    assert DropTop(b.pending[a]) != map[];
  }

  lemma ListingHead(rest: TxMap, txs: seq<Tx>)
    requires ByNonce(rest) && Listing(rest) == txs && txs != []
    ensures txs[0].nonce in rest && rest[txs[0].nonce] == txs[0]
    ensures ByNonce(rest - {txs[0].nonce}) && Listing(rest - {txs[0].nonce}) == txs[1..]
    ensures |rest - {txs[0].nonce}| == |rest| - 1
  {
    ListingFirst(rest, Least(rest.Keys));
  }

  /** Lists a set of accounts in some order. */
  method Arrange(accounts: set<Address>) returns (order: seq<Address>)
    ensures Elems(order) == accounts && Distinct(order)
  {
    order := [];
    var todo := accounts;
    while todo != {}
      invariant todo <= accounts && Elems(order) == accounts - todo && Distinct(order)
      decreases todo
    {
      var a :| a in todo;
      ElemsAppend(order, a);
      order := order + [a];
      todo := todo - {a};
    }
  }

  lemma DemoteReady(b: Book, was: Book, cur: ChainState, a: Address, p: TxMap)
    requires NoEmpty(b.pending) && ResetAt(b, was, cur, true, a) && p == ListOf(b.pending, a)
    ensures NoEmpty(File(b.pending, a, Kept(p, a, cur))) && NewTo(Back(p, a, cur), ListOf(b.queue, a), a)
    ensures DemoteAccount(b, a, cur).pending == File(b.pending, a, Kept(p, a, cur))
    ensures DemoteAccount(b, a, cur).queue == File(b.queue, a, ListOf(b.queue, a) + Back(p, a, cur))
    ensures DemoteAccount(b, a, cur).managed == b.managed && DemoteAccount(b, a, cur).snapshot == b.snapshot
    ensures DemoteAccount(b, a, cur).all ==
              b.all - Txs(Below(p, cur.Nonce(a))) - Txs(Costly(AtLeast(p, cur.Nonce(a)), cur.Balance(a), cur.gasLimit)) + Txs(Back(p, a, cur))
  {
    DemoteShape(b, a, cur);
    DemoteForgets(p, a, cur, b.all);
    FileNoEmpty(b.pending, a, Kept(p, a, cur));
    BackIsNew(p, ListOf(b.queue, a), NonceOf(was.snapshot, a), was.PendingNonce(a), a, b.all, cur);
  }

  lemma BackIsNew(p: TxMap, q: TxMap, lo: nat, pn: nat, a: Address, all: set<Tx>, cur: ChainState)
    requires AcctOk(p, q, lo, pn, false, a, all)
    ensures NewTo(Back(p, a, cur), q, a)
  {
    forall n | n in Back(p, a, cur)
      ensures n in p && Back(p, a, cur)[n] == p[n]
    {
      PartsOf(p, a, cur, n);
    }
  }

  lemma ResetInOrder(b: Book, was: Book, cur: ChainState, c: Book)
    requires Resetting(b, was, cur, {}) && NoEmptyList(b.pending)
    requires c == b.(managed := NextNonces(b.pending)) && b.snapshot == cur.nonces
    ensures InOrder(c, c.queue.Keys)
  {
    forall a
      ensures AcctAt(c, a in c.queue.Keys, a)
    {
      ResetOrder(b, was, cur, c, {}, a);
    }
  }

  lemma InvIsOrder(b: Book, todo: set<Address>)
    requires Inv(b)
    ensures InOrder(b, todo)
  {
    forall a
      ensures AcctAt(b, a in todo, a)
    {
      assert AcctAt(b, false, a);
    }
  }

  datatype Event =
    | AddBatch(txs: seq<Tx>, local: bool, cur: ChainState, wellFormed: set<Tx>)
    | RemoveTxs(txs: seq<Tx>)
    | NewHead(cur: ChainState)

  /** No chain state in the run has a nonce below the one at the last reset before it. */
  ghost predicate Forward(snapshot: map<Address, nat>, events: seq<Event>)
    decreases |events|
  {
    events == [] ||
    match events[0]
    case AddBatch(_, _, cur, _) => NotBehind(snapshot, cur) && Forward(snapshot, events[1..])
    case RemoveTxs(_) => Forward(snapshot, events[1..])
    case NewHead(cur) => NotBehind(snapshot, cur) && Forward(cur.nonces, events[1..])
  }

  lemma QueuedTidy(b: Book, a: Address, tx: Tx)
    requires Inv(b) && tx.nonce in ListOf(b.queue, a) && ListOf(b.queue, a)[tx.nonce] == tx
    ensures Tidy(Books.RemoveTx(b, tx), b)
  {
    assert AcctAt(b, false, a);
    assert AcctAt(b, false, tx.sender);
    DropQueuedTidy(b, tx);
  }

  /** The final lists keep the global limits: pending is cut to the water level, and the queues are trimmed. */
  ghost predicate Limited(now: Book, promoted: Book, locals: set<Address>, config: Config, level: nat, order: seq<Address>) {
    && IsWaterLevel(now.pending, promoted.pending, locals, config.accountSlots, config.globalSlots, level)
    && Elems(order) == promoted.queue.Keys - locals
    && Trimmed(now.queue, promoted.queue, Elems(order), Overflow(promoted.queue, config.globalQueue))
  }

  /** A full pool makes room for one transaction, as far as there are remote ones to evict. */
  ghost predicate EvictsFor(evicted: seq<Tx>, all: set<Tx>, locals: set<Address>, config: Config) {
    var room := config.globalSlots + config.globalQueue;
    && (|all| >= room ==> |evicted| <= |all| - (room - 1))
    && (|all| >= room && |evicted| < |all| - (room - 1) ==> forall t :: t in all && t.sender !in locals ==> t in evicted)
  }

  /** The checks of a new transaction against the chain state; `wellFormed` stands for its size, its
      signature and its intrinsic gas. */
  predicate Admissible(tx: Tx, local: bool, cur: ChainState, wellFormed: bool, locals: set<Address>, gasPrice: nat) {
    && wellFormed && tx.gas <= cur.gasLimit
    && (local || tx.sender in locals || gasPrice <= tx.price)
    && cur.Nonce(tx.sender) <= tx.nonce
    && tx.Cost() <= cur.Balance(tx.sender)
  }

  /** Only remote transactions are evicted, and none dearer than a remote one that stays. */
  ghost predicate CheapRemote(evicted: seq<Tx>, all: set<Tx>, locals: set<Address>) {
    && (forall d :: d in evicted ==> d in all && d.sender !in locals)
    && (forall d, t :: d in evicted && t in all && t.sender !in locals && t !in evicted ==> d.price <= t.price)
  }

  /** The circumstances of an addition. */
  datatype Offer = Offer(tx: Tx, local: bool, cur: ChainState, wellFormed: bool, gasPrice: nat, config: Config)

  ghost predicate TooCheap(b: Book, locals: set<Address>, o: Offer) {
    && |b.all| >= o.config.globalSlots + o.config.globalQueue && o.tx.sender !in locals
    && b.all != {} && forall t :: t in b.all ==> o.tx.price <= t.price
  }

  /** What an addition does to the books and the local accounts, and what it reports. */
  ghost predicate AddStep(b: Book, locals: set<Address>, o: Offer, c: Book, locals1: set<Address>,
                          err: AddError, replaced: bool, evicted: seq<Tx>) {
    var rest, bump := RemoveAll(b, evicted), o.config.priceBump;
    var admissible := Admissible(o.tx, o.local, o.cur, o.wellFormed, locals, o.gasPrice);
    && (err == KnownTransaction <==> o.tx in b.all)
    && (err == InvalidTransaction <==> o.tx !in b.all && !admissible)
    && (err == Underpriced <==> o.tx !in b.all && admissible && TooCheap(b, locals, o))
    && (err == NoError || err == ReplaceUnderpriced ==> (err == NoError <==> Placeable(rest, o.tx, bump)))
    && (err == NoError || err == ReplaceUnderpriced ==> EvictsFor(evicted, b.all, locals, o.config) && CheapRemote(evicted, b.all, locals))
    && (|b.all| < o.config.globalSlots + o.config.globalQueue || (err != NoError && err != ReplaceUnderpriced) ==> evicted == [])
    && c == (if err == NoError then Placed(rest, o.tx, bump) else rest)
    && replaced == (err == NoError && Occupied(rest, o.tx))
    && locals1 == if err == NoError && o.local && o.tx.nonce !in ListOf(rest.pending, o.tx.sender) then locals + {o.tx.sender} else locals
  }

  lemma NothingEvicted(b: Book, locals: set<Address>, config: Config)
    ensures RemoveAll(b, []) == b && CheapRemote([], b.all, locals)
    ensures |b.all| < config.globalSlots + config.globalQueue ==> EvictsFor([], b.all, locals, config)
  {
  }

  lemma TooCheapMeans(b: Book, locals: set<Address>, o: Offer)
    ensures TooCheap(b, locals, o) <==>
            && |b.all| >= o.config.globalSlots + o.config.globalQueue
            && o.tx.sender !in locals && b.all != {} && forall t :: t in b.all ==> t.price >= o.tx.price
  {
  }

  lemma RefusedStep(b: Book, locals: set<Address>, o: Offer, err: AddError)
    requires var admissible := Admissible(o.tx, o.local, o.cur, o.wellFormed, locals, o.gasPrice);
             || (err == KnownTransaction && o.tx in b.all)
             || (err == InvalidTransaction && o.tx !in b.all && !admissible)
             || (err == Underpriced && o.tx !in b.all && admissible && TooCheap(b, locals, o))
    ensures AddStep(b, locals, o, b, locals, err, false, [])
  {
    hide Admissible, TooCheap, Placed, Placeable, Occupied;
    assert RemoveAll(b, []) == b;
  }

  lemma PlacedStep(b: Book, locals: set<Address>, o: Offer, c: Book, locals1: set<Address>, err: AddError, replaced: bool, evicted: seq<Tx>)
    requires var rest, bump := RemoveAll(b, evicted), o.config.priceBump;
             && o.tx !in b.all && Admissible(o.tx, o.local, o.cur, o.wellFormed, locals, o.gasPrice) && !TooCheap(b, locals, o)
             && err == (if Placeable(rest, o.tx, bump) then NoError else ReplaceUnderpriced)
             && c == (if err == NoError then Placed(rest, o.tx, bump) else rest)
             && replaced == (err == NoError && Occupied(rest, o.tx))
             && locals1 == if err == NoError && o.local && o.tx.nonce !in ListOf(rest.pending, o.tx.sender) then locals + {o.tx.sender} else locals
    requires EvictsFor(evicted, b.all, locals, o.config) && CheapRemote(evicted, b.all, locals)
    requires |b.all| < o.config.globalSlots + o.config.globalQueue ==> evicted == []
    ensures AddStep(b, locals, o, c, locals1, err, replaced, evicted)
  {
    hide Admissible, TooCheap, Placed, Placeable, Occupied, EvictsFor, CheapRemote, RemoveAll;
  }

  /** However an addition ends, the transaction is the only one that can have become known. */
  lemma AddedOne(b: Book, locals: set<Address>, o: Offer, c: Book, locals1: set<Address>, err: AddError, replaced: bool, evicted: seq<Tx>)
    requires AddStep(b, locals, o, c, locals1, err, replaced, evicted)
    ensures c.all <= b.all + {o.tx}
  {
    RemoveAllForgets(b, evicted);
  }

  /** The state before one addition of a batch, and what that addition evicted and replaced. */
  datatype Addition = Addition(before: Book, locals: set<Address>, evicted: seq<Tx>, replaced: bool)

  function BookAfter(log: seq<Addition>, i: nat, b: Book): Book {
    if i < |log| then log[i].before else b
  }

  function LocalsAfter(log: seq<Addition>, i: nat, locals: set<Address>): set<Address> {
    if i < |log| then log[i].locals else locals
  }

  /** A batch is one addition after another, ending in the given books and local accounts. */
  ghost predicate Batch(log: seq<Addition>, offers: seq<Offer>, errs: seq<AddError>, b: Book, locals: set<Address>) {
    && |log| == |offers| == |errs|
    && forall i :: 0 <= i < |log| ==> StepAt(log, offers, errs, b, locals, i)
  }

  ghost predicate StepAt(log: seq<Addition>, offers: seq<Offer>, errs: seq<AddError>, b: Book, locals: set<Address>, i: nat)
    requires i < |log| == |offers| == |errs|
  {
    AddStep(log[i].before, log[i].locals, offers[i], BookAfter(log, i + 1, b), LocalsAfter(log, i + 1, locals),
            errs[i], log[i].replaced, log[i].evicted)
  }

  lemma BatchGrows(log: seq<Addition>, offers: seq<Offer>, errs: seq<AddError>, b: Book, locals: set<Address>,
                   o: Offer, c: Book, locals1: set<Address>, err: AddError, replaced: bool, evicted: seq<Tx>)
    requires Batch(log, offers, errs, b, locals) && AddStep(b, locals, o, c, locals1, err, replaced, evicted)
    ensures Batch(log + [Addition(b, locals, evicted, replaced)], offers + [o], errs + [err], c, locals1)
  {
    hide AddStep;
    var log1, offers1, errs1 := log + [Addition(b, locals, evicted, replaced)], offers + [o], errs + [err];
    forall i | 0 <= i < |log1|
      ensures StepAt(log1, offers1, errs1, c, locals1, i)
    {
      if i < |log| {
        assert StepAt(log, offers, errs, b, locals, i);
        assert log1[i] == log[i] && offers1[i] == offers[i] && errs1[i] == errs[i];
        assert BookAfter(log1, i + 1, c) == BookAfter(log, i + 1, b) && LocalsAfter(log1, i + 1, locals1) == LocalsAfter(log, i + 1, locals);
      }
    }
  }

  /** The accounts with a new transaction. */
  ghost predicate Touched(dirty: set<Address>, log: seq<Addition>, offers: seq<Offer>, errs: seq<AddError>)
    requires |log| == |offers| == |errs|
  {
    forall a :: a in dirty <==> exists i :: 0 <= i < |log| && offers[i].tx.sender == a && errs[i] == NoError && !log[i].replaced
  }

  lemma TouchedGrows(dirty: set<Address>, log: seq<Addition>, offers: seq<Offer>, errs: seq<AddError>, x: Addition, o: Offer, err: AddError)
    requires |log| == |offers| == |errs| && Touched(dirty, log, offers, errs)
    ensures Touched(if err == NoError && !x.replaced then dirty + {o.tx.sender} else dirty, log + [x], offers + [o], errs + [err])
  {
    var n := |log|;
    var log1, offers1, errs1 := log + [x], offers + [o], errs + [err];
    assert log1[n] == x && offers1[n] == o && errs1[n] == err;
    assert forall i :: 0 <= i < n ==> log1[i] == log[i] && offers1[i] == offers[i] && errs1[i] == errs[i];
  }

  function OffersOf(txs: seq<Tx>, local: bool, cur: ChainState, wellFormed: set<Tx>, gasPrice: nat, config: Config): (r: seq<Offer>)
    ensures |r| == |txs|
  {
    seq(|txs|, i requires 0 <= i < |txs| => Offer(txs[i], local, cur, txs[i] in wellFormed, gasPrice, config))
  }

  /** Room for one more transaction, or nothing left to evict. */
  ghost predicate MakesRoom(rest: set<Tx>, locals: set<Address>, config: Config) {
    |rest| == config.globalSlots + config.globalQueue - 1 || forall t :: t in rest ==> t.sender in locals
  }

  /** The number of entries a full pool discards. */
  function Excess(all: set<Tx>, config: Config): int {
    |all| - (config.globalSlots + config.globalQueue - 1)
  }

  /** An eviction makes room if and only if it names no transaction twice or leaves no remote one. */
  lemma EvictionMakesRoom(evicted: seq<Tx>, all: set<Tx>, locals: set<Address>, config: Config)
    requires EvictsFor(evicted, all, locals, config) && |all| >= config.globalSlots + config.globalQueue
    requires forall d :: d in evicted ==> d in all && d.sender !in locals
    ensures MakesRoom(all - Dropped(evicted), locals, config) <==>
            NoneTwice(evicted) || forall t :: t in all && t.sender !in locals ==> t in evicted
  {
    hide NoneTwice;
    DroppedSize(evicted);
    assert Dropped(evicted) <= all;
    SizeOfRest(all, Dropped(evicted));
  }

  lemma NoAddition(b: Book, locals: set<Address>, local: bool, cur: ChainState, wellFormed: set<Tx>, gasPrice: nat, config: Config)
    ensures Batch([], OffersOf([], local, cur, wellFormed, gasPrice, config), [], b, locals)
    ensures Touched({}, [], OffersOf([], local, cur, wellFormed, gasPrice, config), [])
  {
  }

  lemma OffersGrow(txs: seq<Tx>, i: nat, local: bool, cur: ChainState, wellFormed: set<Tx>, gasPrice: nat, config: Config)
    requires i < |txs|
    ensures OffersOf(txs[..i + 1], local, cur, wellFormed, gasPrice, config) ==
            OffersOf(txs[..i], local, cur, wellFormed, gasPrice, config) + [Offer(txs[i], local, cur, txs[i] in wellFormed, gasPrice, config)]
  {
  }

  /** What an eviction from a full pool amounts to, by the price entries before it: it discards as many entries as
      asked, and makes room unless it names a transaction twice while a remote one is left.  It names none twice if
      no pair of entries is due, and it makes room if one entry is asked for. */
  ghost predicate Evicts(evicted: seq<Tx>, items: multiset<Tx>, all: set<Tx>, locals: set<Address>, config: Config) {
    && IsDiscard(evicted, items, all, locals, Excess(all, config))
    && (MakesRoom(all - Dropped(evicted), locals, config) <==>
        NoneTwice(evicted) || forall t :: t in all && t.sender !in locals ==> t in evicted)
    && (NoPairDue(items, all, locals, Excess(all, config)) ==> NoneTwice(evicted) && MakesRoom(all - Dropped(evicted), locals, config))
    && (|all| == config.globalSlots + config.globalQueue ==> MakesRoom(all - Dropped(evicted), locals, config))
  }

  lemma AdmissibleNonce(tx: Tx, local: bool, cur: ChainState, wellFormed: bool, locals: set<Address>, gasPrice: nat)
    requires Admissible(tx, local, cur, wellFormed, locals, gasPrice)
    ensures cur.Nonce(tx.sender) <= tx.nonce
  {
  }

  lemma NoPairs(evicted: seq<Tx>, items: multiset<Tx>, all: set<Tx>, locals: set<Address>, config: Config)
    requires IsDiscard(evicted, items, all, locals, Excess(all, config))
    ensures NoPairDue(items, all, locals, Excess(all, config)) ==> NoneTwice(evicted)
    ensures |all| == config.globalSlots + config.globalQueue ==> NoneTwice(evicted)
  {
    if NoPairDue(items, all, locals, Excess(all, config)) {
      NoPairTaken(evicted, items, all, locals, Excess(all, config));
    }
  }

  lemma SizeOfRest<T>(s: set<T>, part: set<T>)
    requires part <= s
    ensures |s - part| == |s| - |part|
  {
    assert s == (s - part) + part;
  }

  /** The books and the local accounts. */
  datatype PoolState = PoolState(book: Book, locals: set<Address>)

  /** After the promotion of some accounts and with the limits applied. */
  ghost predicate PromotedTo(c: Book, added: Book, dirty: set<Address>, cur: ChainState, locals: set<Address>, config: Config) {
    exists promoted, level, order :: PromotedAs(c, added, dirty, cur, locals, config, promoted, level, order)
  }

  ghost predicate PromotedAs(c: Book, added: Book, dirty: set<Address>, cur: ChainState, locals: set<Address>, config: Config,
                             promoted: Book, level: nat, order: seq<Address>) {
    PromotedFrom(promoted, added, dirty, cur, locals, config.accountQueue) && Limited(c, promoted, locals, config, level, order) && Tidy(c, added)
  }

  ghost predicate ResetTo(c: Book, b: Book, cur: ChainState, locals: set<Address>, config: Config) {
    exists promoted, level, order :: ResetAs(c, b, cur, locals, config, promoted, level, order)
  }

  ghost predicate ResetAs(c: Book, b: Book, cur: ChainState, locals: set<Address>, config: Config,
                          promoted: Book, level: nat, order: seq<Address>) {
    && c.snapshot == cur.nonces && ResetFrom(promoted, b, cur, locals, config.accountQueue)
    && Limited(c, promoted, locals, config, level, order) && Tidy(c, b)
  }

  ghost predicate BatchAs(s: PoolState, offers: seq<Offer>, cur: ChainState, t: PoolState, config: Config,
                          log: seq<Addition>, errs: seq<AddError>, dirty: set<Address>, added: Book) {
    && BookAfter(log, 0, added) == s.book && LocalsAfter(log, 0, t.locals) == s.locals
    && Batch(log, offers, errs, added, t.locals) && Touched(dirty, log, offers, errs)
    && (if dirty == {} then t.book == added else PromotedTo(t.book, added, dirty, cur, t.locals, config))
  }

  /** One event: a batch is added and the accounts it touches are promoted, transactions are removed, or the pool is
      reset to a new chain state. */
  ghost predicate Happens(s: PoolState, e: Event, t: PoolState, config: Config, gasPrice: nat) {
    match e
    case AddBatch(txs, local, cur, wellFormed) =>
      exists log, errs, dirty, added :: BatchAs(s, OffersOf(txs, local, cur, wellFormed, gasPrice, config), cur, t, config, log, errs, dirty, added)
    case RemoveTxs(txs) => t == PoolState(RemoveAll(s.book, txs), s.locals)
    case NewHead(cur) => t.locals == s.locals && ResetTo(t.book, s.book, cur, s.locals, config)
  }

  lemma BatchHappens(s: PoolState, e: Event, t: PoolState, config: Config, gasPrice: nat, log: seq<Addition>, errs: seq<AddError>,
                     dirty: set<Address>, added: Book, promoted: Book, level: nat, order: seq<Address>)
    requires e.AddBatch?
    requires var offers := OffersOf(e.txs, e.local, e.cur, e.wellFormed, gasPrice, config);
             && BookAfter(log, 0, added) == s.book && LocalsAfter(log, 0, t.locals) == s.locals
             && Batch(log, offers, errs, added, t.locals) && Touched(dirty, log, offers, errs)
    requires dirty == {} ==> t.book == added
    requires dirty != {} ==> PromotedFrom(promoted, added, dirty, e.cur, t.locals, config.accountQueue) && Limited(t.book, promoted, t.locals, config, level, order) && Tidy(t.book, added)
    ensures Happens(s, e, t, config, gasPrice)
  {
    hide PromotedFrom, Limited, Tidy, Batch, Touched, OffersOf;
    if dirty != {} {
      assert PromotedAs(t.book, added, dirty, e.cur, t.locals, config, promoted, level, order);
    }
    assert BatchAs(s, OffersOf(e.txs, e.local, e.cur, e.wellFormed, gasPrice, config), e.cur, t, config, log, errs, dirty, added);
  }

  lemma ResetHappens(s: PoolState, e: Event, t: PoolState, config: Config, gasPrice: nat, promoted: Book, level: nat, order: seq<Address>)
    requires e.NewHead? && t.locals == s.locals && t.book.snapshot == e.cur.nonces && Tidy(t.book, s.book)
    requires ResetFrom(promoted, s.book, e.cur, s.locals, config.accountQueue) && Limited(t.book, promoted, s.locals, config, level, order)
    ensures Happens(s, e, t, config, gasPrice)
  {
    hide ResetFrom, Limited, Tidy;
    assert ResetAs(t.book, s.book, e.cur, s.locals, config, promoted, level, order);
  }

  lemma RemovalHappens(s: PoolState, e: Event, t: PoolState, config: Config, gasPrice: nat)
    requires e.RemoveTxs? && t == PoolState(RemoveAll(s.book, e.txs), s.locals)
    ensures Happens(s, e, t, config, gasPrice)
  {
  }

  class TxPool {
    const config: Config
    const priced: PricedList
    var pending: Lists
    var queue: Lists
    var managed: map<Address, nat>
    var snapshot: map<Address, nat>
    var all: set<Tx>
    var locals: set<Address>
    var gasPrice: nat

    function Contents(): Book
      reads this
    {
      Book(pending, queue, managed, snapshot, all)
    }

    /** The books are in order and every known transaction has an entry in the price heap. */
    ghost predicate Valid()
      reads this, priced
    {
      Inv(Contents()) && Covers(priced.items, all)
    }

    constructor (config: Config, cur: ChainState, gasPrice: nat)
      ensures Valid() && fresh(priced) && Contents() == Book(map[], map[], map[], cur.nonces, {})
      ensures this.config == config && locals == {} && this.gasPrice == gasPrice
    {
      this.config := config;
      priced := new PricedList();
      pending, queue, managed, snapshot, all := map[], map[], map[], cur.nonces, {};
      locals, this.gasPrice := {}, gasPrice;
      new;
      assert forall a :: AcctAt(Contents(), false, a);
    }

    /** Deletes a batch of transactions from the known ones, in an arbitrary order. */
    method Forget(gone: set<Tx>)
      requires Covers(priced.items, all)
      modifies this`all, priced
      ensures all == old(all) - gone && Covers(priced.items, all)
    {
      hide Covers;
      var todo := gone;
      while todo != {}
        invariant all == old(all) - (gone - todo) && todo <= gone && Covers(priced.items, all)
        decreases todo
      {
        var tx :| tx in todo;
        FewerCovers(priced.items, all, tx);
        assert all - {tx} == old(all) - (gone - (todo - {tx}));
        all := all - {tx};
        priced.Removed(all);
        todo := todo - {tx};
      }
    }

    /** Inserts a transaction into its sender's queue. */
    method EnqueueTx(tx: Tx, ghost except: set<Tx>) returns (ok: bool, replaced: bool)
      requires NoEmpty(pending) && NoEmpty(queue) && Covers(priced.items, all - except)
      modifies this`queue, this`all, priced
      ensures Contents() == Enqueue(old(Contents()), tx, config.priceBump)
      ensures ok == Accepts(ListOf(old(queue), tx.sender), tx, config.priceBump)
      ensures replaced == (ok && tx.nonce in ListOf(old(queue), tx.sender))
      ensures Covers(priced.items, all - except)
    {
      hide Outbids, Covers;
      var from := tx.sender;
      ghost var b := Contents();
      if from !in queue {
        queue := queue[from := map[]];
      }
      var list: TxMap := queue[from];
      if !Accepts(list, tx, config.priceBump) {
        return false, false;
      }
      EnqueueShape(b, tx, config.priceBump);
      queue := queue[from := list[tx.nonce := tx]];
      assert queue == b.queue[from := list[tx.nonce := tx]];
      Replace(list, tx, except);
      return true, tx.nonce in list;
    }

    /** Forgets the transaction that `tx` replaces in a list, if any, and makes `tx` known. */
    method Replace(list: TxMap, tx: Tx, ghost except: set<Tx>)
      requires Covers(priced.items, all - except)
      modifies this`all, priced
      ensures all == Swap(old(all), list, tx) && Covers(priced.items, all - except)
    {
      hide Covers;
      if tx.nonce in list {
        PutCovers(priced.items, all, list[tx.nonce], tx, except);
        all := all - {list[tx.nonce]};
        priced.Removed(all);
      }
      PutCovers(priced.items, all, tx, tx, except);
      all := all + {tx};
      priced.Put(tx);
    }

    /** Sends a batch of transactions of one account to its queue, in an arbitrary order. */
    method EnqueueAll(a: Address, m: TxMap, ghost except: set<Tx>)
      requires NoEmpty(pending) && NoEmpty(queue) && Covers(priced.items, all - except)
      requires NewTo(m, ListOf(queue, a), a)
      modifies this`queue, this`all, priced
      ensures Contents() == WithQueued(old(Contents()), a, m) && NoEmpty(queue)
      ensures Covers(priced.items, all - except)
    {
      ghost var b := Contents();
      var todo := m.Keys;
      QueueNone(b, a, m);
      while todo != {}
        invariant todo <= m.Keys && Contents() == WithQueued(b, a, m - todo) && NoEmpty(queue)
        invariant Covers(priced.items, all - except)
        decreases todo
      {
        var n :| n in todo;
        QueueOneMore(b, a, m, todo, n, config.priceBump);
        FileNoEmpty(b.queue, a, ListOf(b.queue, a) + (m - (todo - {n})));
        var _, _ := EnqueueTx(m[n], except);
        todo := todo - {n};
      }
      assert m - todo == m;
    }

    /** Removes one transaction, sending the later pending ones of its sender back to the queue. */
    method RemoveTx(tx: Tx, ghost except: set<Tx>)
      requires Inv(Contents()) && Covers(priced.items, all - except)
      modifies this`pending, this`queue, this`managed, this`all, priced
      ensures Contents() == Books.RemoveTx(old(Contents()), tx) && Inv(Contents())
      ensures Covers(priced.items, all - except)
    {
      hide AcctAt, Below, AtLeast, Txs, NewTo, CutPending, DropQueued;
      if tx !in all {
        return;
      }
      ghost var b := Contents();
      RemoveTxKeepsInv(b, tx);
      all := all - {tx};
      priced.Removed(all);
      if tx.sender in pending && tx.nonce in pending[tx.sender] {
        SentBackIsNew(b, tx.sender, tx.nonce + 1);
        CutPendingParts(b, tx);
        CutList(tx, except);
        LowerNonce(tx.sender, tx.nonce);
      } else {
        DropQueuedShape(b, tx);
        if tx.sender in queue {
          queue := File(queue, tx.sender, queue[tx.sender] - {tx.nonce});
        }
      }
    }

    method CutList(tx: Tx, ghost except: set<Tx>)
      requires NoEmpty(pending) && NoEmpty(queue) && Covers(priced.items, all - except)
      requires tx.nonce in ListOf(pending, tx.sender)
      requires NewTo(AtLeast(ListOf(pending, tx.sender), tx.nonce + 1), ListOf(queue, tx.sender), tx.sender)
      modifies this`pending, this`queue, this`all, priced
      ensures var a, p := tx.sender, ListOf(old(pending), tx.sender);
              var kept, back := Below(p, tx.nonce), AtLeast(p, tx.nonce + 1);
              && pending == File(old(pending), a, kept)
              && queue == (if kept == map[] then old(queue) else File(old(queue), a, ListOf(old(queue), a) + back))
              && all == (if kept == map[] then old(all) else old(all) + Txs(back))
      ensures Covers(priced.items, all - except)
    {
      var list: TxMap := pending[tx.sender];
      var kept := Below(list, tx.nonce);
      FileNoEmpty(pending, tx.sender, kept);
      Postpone(tx.sender, kept, AtLeast(list, tx.nonce + 1), except);
    }

    /** Keeps a part of an account's pending list and queues the invalidated rest, unless nothing is kept. */
    method Postpone(a: Address, kept: TxMap, invalids: TxMap, ghost except: set<Tx>)
      requires NoEmpty(File(pending, a, kept)) && NoEmpty(queue) && Covers(priced.items, all - except)
      requires NewTo(invalids, ListOf(queue, a), a)
      modifies this`pending, this`queue, this`all, priced
      ensures pending == File(old(pending), a, kept)
      ensures queue == if kept == map[] then old(queue) else File(old(queue), a, ListOf(old(queue), a) + invalids)
      ensures all == if kept == map[] then old(all) else old(all) + Txs(invalids)
      ensures Covers(priced.items, all - except)
    {
      hide File, NoEmpty, Covers, NewTo, ListOf, Txs;
      pending := File(pending, a, kept);
      if kept != map[] {
        EnqueueAll(a, invalids, except);
      }
    }

    method LowerNonce(a: Address, nonce: nat)
      modifies this`managed
      ensures managed == if old(Contents()).PendingNonce(a) > nonce then old(managed)[a := nonce] else old(managed)
    {
      if Contents().PendingNonce(a) > nonce {
        managed := managed[a := nonce];
      }
    }

    /** Removes a list of transactions, which need no longer be in the price heap. */
    method Evict(drop: seq<Tx>)
      requires Inv(Contents()) && Covers(priced.items, all - Dropped(drop))
      modifies this`pending, this`queue, this`managed, this`all, priced
      ensures Contents() == RemoveAll(old(Contents()), drop) && Valid()
    {
      for i := 0 to |drop|
        invariant Inv(Contents()) && Covers(priced.items, all - Dropped(drop[i..]))
        invariant RemoveAll(Contents(), drop[i..]) == RemoveAll(old(Contents()), drop)
      {
        assert drop[i..][1..] == drop[i + 1..] && drop[i..][0] == drop[i];
        RemoveTx(drop[i], Dropped(drop[i..]));
      }
    }

    function OfferOf(tx: Tx, local: bool, cur: ChainState, wellFormed: bool): Offer
      reads this
    {
      Offer(tx, local, cur, wellFormed, gasPrice, config)
    }

    /** Adds a valid transaction, evicting cheaper remote ones if the pool is full. */
    method Add(tx: Tx, local: bool, cur: ChainState, wellFormed: bool)
      returns (replaced: bool, err: AddError, ghost evicted: seq<Tx>)
      requires Valid() && NonceOf(snapshot, tx.sender) <= cur.Nonce(tx.sender)
      modifies this, priced
      ensures Valid() && snapshot == old(snapshot) && old(locals) <= locals && gasPrice == old(gasPrice)
      ensures AddStep(old(Contents()), old(locals), old(OfferOf(tx, local, cur, wellFormed)), Contents(), locals, err, replaced, evicted)
      ensures (err == NoError || err == ReplaceUnderpriced) && |old(all)| >= config.globalSlots + config.globalQueue ==>
                Evicts(evicted, old(priced.items), old(all), old(locals), config)
      ensures err == NoError ==> Took(Contents(), RemoveAll(old(Contents()), evicted), tx, replaced)
    {
      hide Inv, Covers, Admissible, AddStep, Evicts, Took;
      replaced, evicted := false, [];
      ghost var b, locals0, o := Contents(), locals, OfferOf(tx, local, cur, wellFormed);
      if tx in all {
        err := KnownTransaction;
        RefusedStep(b, locals0, o, err);
        return;
      }
      if !Admissible(tx, local, cur, wellFormed, locals, gasPrice) {
        err := InvalidTransaction;
        RefusedStep(b, locals0, o, err);
        return;
      }
      AdmissibleNonce(tx, local, cur, wellFormed, locals, gasPrice);
      replaced, err, evicted := Admit(tx, local, o);
    }

    /** Adds a transaction that has passed the checks. */
    method Admit(tx: Tx, local: bool, ghost o: Offer) returns (replaced: bool, err: AddError, ghost evicted: seq<Tx>)
      requires Valid() && tx !in all && tx.nonce >= NonceOf(snapshot, tx.sender)
      requires o.tx == tx && o.local == local && o.gasPrice == gasPrice && o.config == config
      requires Admissible(tx, local, o.cur, o.wellFormed, locals, gasPrice)
      modifies this, priced
      ensures Valid() && snapshot == old(snapshot) && old(locals) <= locals && gasPrice == old(gasPrice)
      ensures AddStep(old(Contents()), old(locals), o, Contents(), locals, err, replaced, evicted)
      ensures (err == NoError || err == ReplaceUnderpriced) && |old(all)| >= config.globalSlots + config.globalQueue ==>
                Evicts(evicted, old(priced.items), old(all), old(locals), config)
      ensures err == NoError ==> Took(Contents(), RemoveAll(old(Contents()), evicted), tx, replaced)
    {
      hide Inv, Covers, Placed, Placeable, Occupied, Admissible, AddStep, RemoveAll, EvictsFor, CheapRemote, TooCheap, Dropped,
           Evicts, Took;
      replaced, evicted := false, [];
      ghost var b, locals0 := Contents(), locals;
      NothingEvicted(b, locals, config);
      TooCheapMeans(b, locals, o);
      if |all| >= config.globalSlots + config.globalQueue {
        var low := priced.Underpriced(tx, locals, all);
        if low {
          err := Underpriced;
          RefusedStep(b, locals0, o, err);
          return;
        }
        var drop := MakeRoom(old(priced.items));
        evicted := drop;
      }
      RemoveAllForgets(b, evicted);
      err, replaced := Place(tx, local);
      PlacedStep(b, locals0, o, Contents(), locals, err, replaced, evicted);
    }

    /** Evicts as many remote transactions as the pool exceeds its limit by, and one more. */
    method MakeRoom(ghost items: multiset<Tx>) returns (drop: seq<Tx>)
      requires Valid() && |all| >= config.globalSlots + config.globalQueue && forall t :: t in all ==> priced.items[t] == items[t]
      modifies this`pending, this`queue, this`managed, this`all, priced
      ensures Valid() && Contents() == RemoveAll(old(Contents()), drop)
      ensures EvictsFor(drop, old(all), locals, config) && CheapRemote(drop, old(all), locals)
      ensures Evicts(drop, items, old(all), locals, config)
    {
      hide Inv, Covers, NoneTwice, MakesRoom, NoPairDue;
      ghost var now := priced.items;
      drop := priced.Discard(|all| - (config.globalSlots + config.globalQueue - 1), locals, all);
      SameEntries(drop, now, items, all, locals, Excess(all, config));
      NoPairs(drop, items, all, locals, config);
      EvictionMakesRoom(drop, all, locals, config);
      hide IsDiscard;
      Evict(drop);
    }

    method Place(tx: Tx, local: bool) returns (err: AddError, replaced: bool)
      requires Valid() && tx !in all && tx.nonce >= NonceOf(snapshot, tx.sender)
      modifies this`pending, this`queue, this`all, this`locals, priced
      ensures Valid()
      ensures err == if Placeable(old(Contents()), tx, config.priceBump) then NoError else ReplaceUnderpriced
      ensures Contents() == if err == NoError then Placed(old(Contents()), tx, config.priceBump) else old(Contents())
      ensures replaced == (err == NoError && Occupied(old(Contents()), tx))
      ensures err == NoError ==> Took(Contents(), old(Contents()), tx, replaced)
      ensures locals == if err == NoError && local && tx.nonce !in ListOf(old(pending), tx.sender) then old(locals) + {tx.sender} else old(locals)
    {
      hide AcctAt, Outbids, ReplacePending, Tidy, Listed, Took;
      var from := tx.sender;
      PlacedKeepsInv(Contents(), tx, config.priceBump);
      PlacedResult(Contents(), tx, config.priceBump);
      if from in pending && tx.nonce in pending[from] {
        ReplacePendingParts(Contents(), tx);
        var list: TxMap := pending[from];
        if !Accepts(list, tx, config.priceBump) {
          return ReplaceUnderpriced, false;
        }
        pending := pending[from := list[tx.nonce := tx]];
        Replace(list, tx, {});
        return NoError, true;
      }
      var ok;
      ok, replaced := EnqueueTx(tx, {});
      if !ok {
        return ReplaceUnderpriced, false;
      }
      if local {
        locals := locals + {from};
      }
      return NoError, replaced;
    }

    /** Adds a transaction to the pending list of its account. */
    method PromoteTx(addr: Address, tx: Tx)
      requires Covers(priced.items, all)
      modifies this`pending, this`managed, this`all, priced
      ensures Covers(priced.items, all)
      ensures var list := ListOf(old(pending), addr);
              if !Accepts(list, tx, config.priceBump)
              then pending == old(pending) && managed == old(managed) && all == old(all) - {tx}
              else pending == old(pending)[addr := list[tx.nonce := tx]] && managed == old(managed)[addr := tx.nonce + 1]
                   && all == Swap(old(all), list, tx)
    {
      var list: TxMap := ListOf(pending, addr);
      if !Accepts(list, tx, config.priceBump) {
        all := all - {tx};
        priced.Removed(all);
        return;
      }
      pending := pending[addr := list[tx.nonce := tx]];
      SwapKnown(list, tx);
      managed := managed[addr := tx.nonce + 1];
    }

    /** Promotes a transaction that replaces nothing. */
    method PromoteNext(addr: Address, tx: Tx, ghost pending0: Lists, ghost list: TxMap, ghost more: TxMap)
      requires Covers(priced.items, all) && pending == File(pending0, addr, list)
      requires Accepts(list, tx, config.priceBump) && Swap(all, list, tx) == all
      requires pending[addr := list[tx.nonce := tx]] == File(pending0, addr, more)
      modifies this`pending, this`managed, this`all, priced
      ensures Covers(priced.items, all) && all == old(all)
      ensures pending == File(pending0, addr, more) && managed == old(managed)[addr := tx.nonce + 1]
    {
      PromoteTx(addr, tx);
    }

    /** Deletes the transaction that `tx` replaces, and makes sure `tx` itself is known. */
    method SwapKnown(list: TxMap, tx: Tx)
      requires Covers(priced.items, all)
      modifies this`all, priced
      ensures Covers(priced.items, all) && all == Swap(old(all), list, tx)
    {
      if tx.nonce in list {
        all := all - {list[tx.nonce]};
        priced.Removed(all);
      }
      if tx !in all {
        all := all + {tx};
        priced.Put(tx);
      }
    }

    /** Promotes a run of transactions that continues the pending list. */
    method PromoteRunOf(addr: Address, ready: TxMap, ghost lo: nat, ghost hi: nat)
      requires NoEmpty(pending) && Covers(priced.items, all)
      requires Interval(ready, lo, hi) && Owned(ready, addr, all) && ready.Keys !! ListOf(pending, addr).Keys
      modifies this`pending, this`managed, this`all, priced
      ensures Covers(priced.items, all) && all == old(all)
      ensures pending == File(old(pending), addr, ListOf(old(pending), addr) + ready)
      ensures managed == if ready == map[] then old(managed) else old(managed)[addr := hi]
    {
      hide *;
      ghost var pending0, managed0, p := pending, managed, ListOf(pending, addr);
      var txs := Listing(ready);
      StartRun(pending, addr, ready, lo, hi);
      RunNonceNext(managed, addr, lo, lo);
      RunNonceEnd(managed, addr, lo, hi);
      ghost var n := lo;
      for i := 0 to |txs|
        invariant Covers(priced.items, all) && all == old(all) && n == lo + i
        invariant pending == File(pending0, addr, p + Below(ready, n))
        invariant managed == RunNonce(managed0, addr, lo, n)
      {
        NextInRun(p, addr, ready, lo, hi, n, config.priceBump, all);
        assert n - lo == i && txs[i] == ready[n];
        RunGrows(pending0, addr, p, ready, n);
        RunNonceNext(managed0, addr, lo, n);
        PromoteNext(addr, txs[i], pending0, p + Below(ready, n), p + Below(ready, n + 1));
        n := n + 1;
      }
      assert n == hi;
    }

    function QueueCap(a: Address): Option<nat>
      reads this
    {
      CapOf(locals, config.accountQueue, a)
    }

    /** Promotes one account's executable transactions and prunes its queue. */
    method PromoteOne(addr: Address, cur: ChainState)
      requires NoEmpty(pending) && NoEmpty(queue) && AcctAt(Contents(), true, addr) && Covers(priced.items, all)
      requires cur.Nonce(addr) >= NonceOf(snapshot, addr) && addr in queue
      modifies this`pending, this`queue, this`managed, this`all, priced
      ensures Contents() == PromoteAccount(old(Contents()), addr, cur, QueueCap(addr))
      ensures Covers(priced.items, all)
    {
      ghost var b := Contents();
      var e := ReadyEnd(PayableOf(queue[addr], addr, cur), Contents().PendingNonce(addr));
      PromoteAccountParts(b, addr, cur, QueueCap(addr), e);
      PromoteList(addr, cur, e, b.PendingNonce(addr), PromoteAccount(b, addr, cur, QueueCap(addr)).PendingNonce(addr));
    }

    method PromoteList(addr: Address, cur: ChainState, e: nat, ghost pn: nat, ghost hi: nat)
      requires NoEmpty(pending) && addr in queue && Covers(priced.items, all)
      requires Interval(Below(PayableOf(queue[addr], addr, cur), e), pn, hi)
      requires Below(PayableOf(queue[addr], addr, cur), e).Keys !! ListOf(pending, addr).Keys
      requires Owned(Below(PayableOf(queue[addr], addr, cur), e), addr, KnownAfter(all, queue[addr], addr, cur))
      modifies this`pending, this`queue, this`managed, this`all, priced
      ensures var payable := PayableOf(old(queue)[addr], addr, cur);
              var kept := KeptOf(AtLeast(payable, e), QueueCap(addr));
              && pending == File(old(pending), addr, ListOf(old(pending), addr) + Below(payable, e))
              && queue == File(old(queue), addr, kept)
              && managed == (if Below(payable, e) == map[] then old(managed) else old(managed)[addr := hi])
              && all == KnownAfter(old(all), old(queue)[addr], addr, cur) - Txs(AtLeast(payable, e) - kept.Keys)
      ensures Covers(priced.items, all)
    {
      var list: TxMap := queue[addr];
      Forget(Txs(Below(list, cur.Nonce(addr))));
      Forget(Txs(Costly(AtLeast(list, cur.Nonce(addr)), cur.Balance(addr), cur.gasLimit)));
      var payable := PayableOf(list, addr, cur);
      PromoteRunOf(addr, Below(payable, e), pn, hi);
      var rest := AtLeast(payable, e);
      var kept := KeptOf(rest, QueueCap(addr));
      Forget(Txs(rest - kept.Keys));
      queue := File(queue, addr, kept);
    }

    /** Visits one of the accounts to promote. */
    method VisitAccount(addr: Address, cur: ChainState, ghost todo: set<Address>, ghost was: Book, ghost done: set<Address>)
      requires InOrder(Contents(), todo) && addr in todo && Covers(priced.items, all) && NotBehind(snapshot, cur)
      requires PromotedFrom(Contents(), was, done, cur, locals, config.accountQueue) && addr !in done
      modifies this`pending, this`queue, this`managed, this`all, priced
      ensures InOrder(Contents(), todo - {addr}) && Covers(priced.items, all) && all <= old(all)
      ensures PromotedFrom(Contents(), was, done + {addr}, cur, locals, config.accountQueue) && Tidy(Contents(), old(Contents()))
    {
      hide AcctSame, PromoteAccount, AcctOk, Tidy;
      TidySelf(Contents());
      if addr in queue {
        PromoteKeepsOrder(Contents(), todo, addr, cur, QueueCap(addr));
        PromotedOneMore(Contents(), was, done, cur, locals, config.accountQueue, addr);
        assert AcctAt(Contents(), addr in todo, addr);
        assert NonceOf(snapshot, addr) <= cur.Nonce(addr);
        PromoteTidy(Contents(), addr, cur, QueueCap(addr));
        PromoteOne(addr, cur);
      } else {
        EmptyQueueIsFresh(Contents(), todo, addr);
        PromotedSkip(Contents(), was, done, cur, locals, config.accountQueue, addr);
      }
    }

    /** Promotes the executable transactions of a set of accounts, visited in an arbitrary order. */
    method PromoteAccounts(accounts: set<Address>, cur: ChainState)
      requires InOrder(Contents(), accounts) && Covers(priced.items, all) && NotBehind(snapshot, cur)
      modifies this`pending, this`queue, this`managed, this`all, priced
      ensures Valid() && all <= old(all)
      ensures PromotedFrom(Contents(), old(Contents()), accounts, cur, locals, config.accountQueue) && Tidy(Contents(), old(Contents()))
    {
      hide Tidy, AcctOk;
      ghost var was := Contents();
      TidySelf(was);
      var todo := accounts;
      while todo != {}
        invariant InOrder(Contents(), todo) && Covers(priced.items, all) && all <= old(all) && todo <= accounts
        invariant PromotedFrom(Contents(), was, accounts - todo, cur, locals, config.accountQueue) && Tidy(Contents(), was)
        decreases todo
      {
        var addr :| addr in todo;
        assert accounts - (todo - {addr}) == accounts - todo + {addr};
        ghost var before := Contents();
        VisitAccount(addr, cur, todo, was, accounts - todo);
        TidyTrans(Contents(), before, was);
        todo := todo - {addr};
      }
      assert accounts - todo == accounts;
      OrderIsInv(Contents());
    }

    /** Drops the highest nonce of one account. */
    method CapOne(addr: Address)
      requires Valid() && addr in pending && |pending[addr]| >= 2
      modifies this`pending, this`managed, this`all, priced
      ensures Valid() && all <= old(all) && old(pending)[addr].Keys != {}
      ensures pending == old(pending)[addr := DropTop(old(pending)[addr])] && Tidy(Contents(), old(Contents()))
    {
      CapOneParts(Contents(), addr);
      CapOneTidy(Contents(), addr);
      hide Tidy;
      ghost var next := Books.CapOne(Contents(), addr);
      var list := pending[addr];
      var nonce := Greatest(list.Keys);
      pending := pending[addr := list - {nonce}];
      Forget({list[nonce]});
      LowerNonce(addr, nonce);
      assert Contents() == next;
    }

    /** One round: drops the highest nonce of every listed account. */
    method CapEach(offenders: seq<Address>, ghost cut: set<Address>)
      requires Valid() && Distinct(offenders) && cut == Elems(offenders) && AllNonEmpty(pending, cut)
      requires forall x {:trigger pending[x]} :: x in cut ==> |pending[x]| >= 2
      modifies this`pending, this`managed, this`all, priced
      ensures Valid() && all <= old(all)
      ensures pending == Shaved(old(pending), cut) && Total(pending) == Total(old(pending)) - |offenders|
      ensures Tidy(Contents(), old(Contents()))
    {
      hide Tidy, Inv;
      TidySelf(Contents());
      ghost var was, start := pending, Contents();
      ghost var done: set<Address> := {};
      assert Elems(offenders[..0]) == done && Shaved(was, done) == was;
      for i := 0 to |offenders|
        invariant Valid() && all <= old(all) && Tidy(Contents(), start)
        invariant done == Elems(offenders[..i]) && done <= cut
        invariant pending == Shaved(was, done) && Total(pending) == Total(was) - i
      {
        var addr := offenders[i];
        ElemsNext(offenders, i);
        ShaveNext(was, cut, done, addr);
        ghost var before := Contents();
        CapOne(addr);
        TidyTrans(Contents(), before, start);
        done := done + {addr};
      }
      assert offenders[..|offenders|] == offenders;
    }

    /** One round lowers the level by one. */
    method Round(offenders: seq<Address>, ghost cut: set<Address>, ghost threshold: nat, ghost was: Lists, ghost level: nat)
      requires Valid() && 0 < threshold < level && Distinct(offenders) && cut == Elems(offenders)
      requires Levelled(pending, was, locals, level) && Tops(was, locals, cut, threshold, level)
      modifies this`pending, this`managed, this`all, priced
      ensures Valid() && all <= old(all) && Total(pending) == Total(old(pending)) - |offenders|
      ensures Levelled(pending, was, locals, level - 1) && Tops(was, locals, cut, threshold, level - 1)
      ensures Tidy(Contents(), old(Contents()))
    {
      hide Tidy, Inv;
      ghost var now := pending;
      RoundReady(now, was, locals, cut, threshold, level);
      ghost var next := Shaved(now, cut);
      CapEach(offenders, cut);
      assert pending == next;
    }

    /** Rounds over the offenders until the total fits or they are down to the threshold. */
    method LowerTo(offenders: seq<Address>, threshold: nat, total: nat,
                   ghost cut: set<Address>, ghost was: Lists, ghost from: nat)
      returns (count: nat, ghost level: nat)
      requires Valid() && offenders != [] && 0 < threshold <= from && total == Total(pending)
      requires Distinct(offenders) && cut == Elems(offenders)
      requires Levelled(pending, was, locals, from) && Tops(was, locals, cut, threshold, from)
      modifies this`pending, this`managed, this`all, priced
      ensures Valid() && all <= old(all) && count == Total(pending) && threshold <= level <= from
      ensures Levelled(pending, was, locals, level) && Tops(was, locals, cut, threshold, level)
      ensures level == from ==> pending == old(pending)
      ensures level < from ==> TotalAt(was, locals, level + 1) > config.globalSlots
      ensures count <= config.globalSlots || level == threshold
      ensures Tidy(Contents(), old(Contents()))
    {
      hide *;
      ghost var start := Contents();
      TidySelf(start);
      count, level := total, from;
      var last := offenders[|offenders| - 1];
      InElems(offenders, |offenders| - 1);
      OffenderAtLevel(pending, was, locals, cut, threshold, level, last);
      while count > config.globalSlots && |pending[last]| > threshold
        invariant Valid() && all <= old(all) && count == Total(pending) && threshold <= level <= from
        invariant Levelled(pending, was, locals, level) && Tops(was, locals, cut, threshold, level)
        invariant last in pending && |pending[last]| == level && Tidy(Contents(), start)
        invariant level == from ==> pending == old(pending)
        invariant level < from ==> TotalAt(was, locals, level + 1) > config.globalSlots
        decreases level
      {
        LevelledTotal(pending, was, locals, level);
        ghost var before := Contents();
        Round(offenders, cut, threshold, was, level);
        TidyTrans(Contents(), before, start);
        count := count - |offenders|;
        level := level - 1;
        OffenderAtLevel(pending, was, locals, cut, threshold, level, last);
      }
    }

    /** Takes on the next offender and lowers the earlier ones to its length. */
    method NextOffender(start: Lists, spam: set<Address>, offenders: seq<Address>, total: nat, ghost cut: set<Address>, ghost from: nat)
      returns (offender: Address, count: nat, ghost level: nat)
      requires Valid() && config.accountSlots > 0 && spam != {} && spam <= start.Keys && total == Total(pending)
      requires Levelled(pending, start, locals, from) && Needed(pending, start, locals, config.globalSlots, from)
      requires Distinct(offenders) && cut == Elems(offenders) && (offenders == [] ==> pending == start)
      requires Split(start, locals, config.accountSlots, spam, cut, from)
      modifies this`pending, this`managed, this`all, priced
      ensures Valid() && all <= old(all) && Tidy(Contents(), old(Contents())) && count == Total(pending)
      ensures offender in spam && Distinct(offenders + [offender]) && Elems(offenders + [offender]) == cut + {offender}
      ensures Levelled(pending, start, locals, level) && Needed(pending, start, locals, config.globalSlots, level)
      ensures level >= config.accountSlots
      ensures count > config.globalSlots ==> Split(start, locals, config.accountSlots, spam - {offender}, cut + {offender}, level)
    {
      hide *;
      TidySelf(Contents());
      offender := PopLargest(spam, start);
      PopSplits(start, locals, config.accountSlots, spam, cut, from, offender);
      BelowLevelUncut(pending, start, locals, from, offender);
      ElemsAppend(offenders, offender);
      ElemsNone(offenders);
      if offenders != [] {
        count, level := LowerTo(offenders, |pending[offender]|, total, cut, start, from);
        if level < from {
          NeededIf(pending, start, locals, config.globalSlots, level);
        }
      } else {
        count, level := total, |start[offender]|;
        NeededIf(pending, start, locals, config.globalSlots, level);
      }
    }

    /** Equalises the allowances when the pending total is over its limit: the largest remote lists are cut
        to one common water level. */
    method EqualizePending() returns (ghost level: nat)
      requires Valid() && config.accountSlots > 0
      modifies this`pending, this`managed, this`all, priced
      ensures Valid() && all <= old(all) && Tidy(Contents(), old(Contents()))
      ensures IsWaterLevel(pending, old(pending), locals, config.accountSlots, config.globalSlots, level)
    {
      hide *;
      ghost var b := Contents();
      TidySelf(b);
      var start, slots := pending, config.accountSlots;
      var count := CountTxs(pending);
      var spam, offenders := Spammers(start, locals, slots), [];
      ghost var cut: set<Address> := {};
      level := Total(start) + slots;
      StartSplit(start, locals, slots);
      NeededIf(pending, start, locals, config.globalSlots, level);
      ElemsNone(offenders);
      while count > config.globalSlots && spam != {}
        invariant Valid() && all <= old(all) && count == Total(pending) && slots <= level
        invariant Levelled(pending, start, locals, level) && Tidy(Contents(), b)
        invariant Distinct(offenders) && cut == Elems(offenders) && spam <= start.Keys
        invariant count > config.globalSlots ==> Split(start, locals, slots, spam, cut, level)
        invariant offenders == [] ==> pending == start
        invariant Needed(pending, start, locals, config.globalSlots, level)
        decreases spam
      {
        ghost var before := Contents();
        var offender;
        offender, count, level := NextOffender(start, spam, offenders, count, cut, level);
        TidyTrans(Contents(), before, b);
        offenders := offenders + [offender];
        cut := cut + {offender};
        spam := spam - {offender};
      }
      if count > config.globalSlots {
        AllPopped(start, locals, slots, cut, level);
        ElemsNone(offenders);
        if offenders != [] {
          ghost var from, before := level, Contents();
          count, level := LowerTo(offenders, slots, count, cut, start, level);
          TidyTrans(Contents(), before, b);
          if level < from {
            NeededIf(pending, start, locals, config.globalSlots, level);
          }
        } else {
          level := slots;
          NeededIf(pending, start, locals, config.globalSlots, level);
        }
      }
      WaterLevelReached(pending, start, locals, slots, config.globalSlots, level);
    }

    /** Drops one queued transaction. */
    method DropQueuedTx(a: Address, tx: Tx)
      requires Valid() && tx.nonce in ListOf(queue, a) && ListOf(queue, a)[tx.nonce] == tx
      modifies this`pending, this`queue, this`managed, this`all, priced
      ensures Valid() && all <= old(all) && pending == old(pending) && managed == old(managed)
      ensures queue == File(old(queue), a, ListOf(old(queue), a) - {tx.nonce}) && Tidy(Contents(), old(Contents()))
    {
      QueuedRemoval(Contents(), a, tx);
      QueuedTidy(Contents(), a, tx);
      hide Tidy, In;
      RemoveTx(tx, {});
    }

    lemma QueueFiled(a: Address)
      requires Valid()
      ensures ByNonce(ListOf(queue, a)) && File(queue, a, ListOf(queue, a)) == queue
    {
      assert AcctAt(Contents(), false, a);
      FileBack(queue, a);
    }

    /** Drops a whole queue, lowest nonces first. */
    method DropQueue(a: Address)
      requires Valid()
      modifies this`pending, this`queue, this`managed, this`all, priced
      ensures Valid() && all <= old(all) && pending == old(pending) && managed == old(managed)
      ensures queue == File(old(queue), a, map[]) && Tidy(Contents(), old(Contents()))
    {
      hide *;
      ghost var start := Contents();
      TidySelf(start);
      QueueFiled(a);
      ghost var rest := ListOf(queue, a);
      var txs := Listing(ListOf(queue, a));
      ListingSize(rest);
      for i := 0 to |txs|
        invariant Valid() && all <= old(all) && pending == old(pending) && managed == old(managed)
        invariant ByNonce(rest) && Listing(rest) == txs[i..] && |rest| == |txs| - i
        invariant queue == File(old(queue), a, rest) && Tidy(Contents(), start)
      {
        ListingHead(rest, txs[i..]);
        ghost var before := Contents();
        DropQueuedTx(a, txs[i]);
        TidyTrans(Contents(), before, start);
        FileTwice(old(queue), a, rest, rest - {txs[i].nonce});
        rest := rest - {txs[i].nonce};
      }
    }

    /** Drops the `drop` highest nonces of a queue. */
    method DropHighest(a: Address, drop: nat)
      requires Valid() && drop <= |ListOf(queue, a)|
      modifies this`pending, this`queue, this`managed, this`all, priced
      ensures Valid() && all <= old(all) && pending == old(pending) && managed == old(managed)
      ensures queue == File(old(queue), a, Lowest(ListOf(old(queue), a), |ListOf(old(queue), a)| - drop))
      ensures Tidy(Contents(), old(Contents()))
    {
      hide *;
      ghost var start := Contents();
      TidySelf(start);
      QueueFiled(a);
      var list := ListOf(queue, a);
      var txs := Listing(list);
      ListingSize(list);
      KeepsAll(queue, a, list);
      for k := |txs| downto |txs| - drop
        invariant Valid() && all <= old(all) && pending == old(pending) && managed == old(managed)
        invariant KeepsLowest(queue, old(queue), a, list, k) && Tidy(Contents(), start)
      {
        KeepsOneLess(queue, old(queue), a, list, k, txs[k]);
        ghost var before := Contents();
        DropQueuedTx(a, txs[k]);
        TidyTrans(Contents(), before, start);
      }
      KeepsWhat(queue, old(queue), a, list, |txs| - drop);
    }

    /** Enforces the global queue limit: accounts are emptied from the end of `order`, the remote accounts
        sorted by their last activity. */
    method LimitQueue(order: seq<Address>)
      requires Valid() && Elems(order) == queue.Keys - locals
      modifies this`pending, this`queue, this`managed, this`all, priced
      ensures Valid() && all <= old(all) && pending == old(pending) && managed == old(managed)
      ensures var overflow := Overflow(old(queue), config.globalQueue);
              && queue == Trim(old(queue), order, overflow) && Trimmed(queue, old(queue), Elems(order), overflow)
      ensures Tidy(Contents(), old(Contents()))
    {
      hide *;
      ghost var start := Contents();
      TidySelf(start);
      var queued := CountTxs(queue);
      var drop: nat := if queued > config.globalQueue then queued - config.globalQueue else 0;
      OverflowIs(queue, config.globalQueue);
      TrimDrops(queue, order, drop);
      var i := |order|;
      assert order[..i] == order;
      while drop > 0 && i > 0
        invariant Valid() && all <= old(all) && pending == old(pending) && managed == old(managed) && i <= |order|
        invariant Tidy(Contents(), start)
        invariant Trim(queue, order[..i], drop) == Trim(old(queue), order, Overflow(old(queue), config.globalQueue))
        decreases i
      {
        var addr := order[i - 1];
        assert order[..i][i - 1] == addr && order[..i][..i - 1] == order[..i - 1];
        i := i - 1;
        var size := |ListOf(queue, addr)|;
        if size <= drop {
          TrimTakesAll(queue, order[..i + 1], drop, addr, order[..i]);
          ghost var before := Contents();
          DropQueue(addr);
          TidyTrans(Contents(), before, start);
          drop := drop - size;
        } else {
          TrimTakesPart(queue, order[..i + 1], drop, addr);
          ghost var before := Contents();
          DropHighest(addr, drop);
          TidyTrans(Contents(), before, start);
          drop := 0;
          TrimNone(queue, order[..i], drop);
        }
      }
      TrimNone(queue, order[..i], drop);
    }

    /** Promotes what has become executable, then enforces the two global limits. */
    method PromoteExecutables(accounts: set<Address>, cur: ChainState) returns (ghost promoted: Book, ghost level: nat, ghost order: seq<Address>)
      requires InOrder(Contents(), accounts) && Covers(priced.items, all) && NotBehind(snapshot, cur) && config.accountSlots > 0
      modifies this`pending, this`queue, this`managed, this`all, priced
      ensures Valid() && all <= old(all) && Tidy(Contents(), old(Contents()))
      ensures PromotedFrom(promoted, old(Contents()), accounts, cur, locals, config.accountQueue)
      ensures Limited(Contents(), promoted, locals, config, level, order)
    {
      hide *;
      ghost var start := Contents();
      PromoteAccounts(accounts, cur);
      promoted := Contents();
      QueueOf(promoted);
      level := EqualizePending();
      TidyTrans(Contents(), promoted, start);
      ghost var equalized := Contents();
      var byHeartbeat := Arrange(queue.Keys - locals);
      order := byHeartbeat;
      LimitQueue(byHeartbeat);
      TidyTrans(Contents(), equalized, start);
      WithinLimits(promoted, level, order);
    }

    lemma WithinLimits(promoted: Book, level: nat, order: seq<Address>)
      requires IsWaterLevel(pending, promoted.pending, locals, config.accountSlots, config.globalSlots, level)
      requires Elems(order) == promoted.queue.Keys - locals
      requires Trimmed(queue, promoted.queue, Elems(order), Overflow(promoted.queue, config.globalQueue))
      ensures Limited(Contents(), promoted, locals, config, level, order)
    {
      hide IsWaterLevel, Trimmed, Elems;
    }

    lemma QueueOf(b: Book)
      requires b == Contents()
      ensures b.queue == queue && b.pending == pending
    {
    }

    method DemoteOne(addr: Address, cur: ChainState, ghost was: Book)
      requires NoEmpty(pending) && NoEmpty(queue) && Covers(priced.items, all) && addr in pending
      requires ResetAt(Contents(), was, cur, true, addr)
      modifies this`pending, this`queue, this`all, priced
      ensures Contents() == DemoteAccount(old(Contents()), addr, cur) && Covers(priced.items, all)
    {
      ghost var b := Contents();
      var list: TxMap := pending[addr];
      DemoteReady(b, was, cur, addr, list);
      hide File, Kept, Back, Costly, Txs, Below, AtLeast, DemoteAccount, ResetAt, NoEmpty;
      DemoteList(addr, Txs(Below(list, cur.Nonce(addr))), Txs(Costly(AtLeast(list, cur.Nonce(addr)), cur.Balance(addr), cur.gasLimit)),
                 Kept(list, addr, cur), Back(list, addr, cur));
    }

    /** Forgets mined and unpayable transactions, keeps a prefix pending and queues the rest again. */
    method DemoteList(addr: Address, stale: set<Tx>, costly: set<Tx>, kept: TxMap, back: TxMap)
      requires NoEmpty(File(pending, addr, kept)) && NoEmpty(queue) && Covers(priced.items, all)
      requires NewTo(back, ListOf(queue, addr), addr)
      modifies this`pending, this`queue, this`all, priced
      ensures pending == File(old(pending), addr, kept)
      ensures queue == File(old(queue), addr, ListOf(old(queue), addr) + back)
      ensures all == old(all) - stale - costly + Txs(back) && Covers(priced.items, all)
    {
      hide File, Txs, NoEmpty, NewTo, ListOf;
      Forget(stale);
      Forget(costly);
      pending := File(pending, addr, kept);
      assert all - {} == all;
      EnqueueAll(addr, back, {});
      assert all - {} == all;
    }

    method DemoteVisit(addr: Address, cur: ChainState, ghost todo: set<Address>, ghost was: Book, ghost start: Book, ghost done: set<Address>)
      requires Resetting(Contents(), was, cur, todo) && Covers(priced.items, all) && addr in todo && todo <= pending.Keys
      requires NonceOf(was.snapshot, addr) <= cur.Nonce(addr) && DemotedFrom(Contents(), start, done, cur) && addr !in done
      modifies this`pending, this`queue, this`all, priced
      ensures Resetting(Contents(), was, cur, todo - {addr}) && Covers(priced.items, all) && all <= old(all)
      ensures DemotedFrom(Contents(), start, done + {addr}, cur) && todo - {addr} <= pending.Keys && Tidy(Contents(), old(Contents()))
    {
      hide Tidy;
      DemoteTidy(Contents(), was, addr, cur);
      DemotedOneMore(Contents(), start, done, cur, addr);
      DemoteStep(Contents(), was, cur, todo, addr);
      DemoteShrinks(Contents(), addr, cur);
      hide ResetAt, DemoteAccount, AcctSame;
      DemoteOne(addr, cur, was);
    }

    /** Demotes every account with pending transactions, in an arbitrary order. */
    method DemoteUnexecutables(cur: ChainState, ghost was: Book)
      requires Resetting(Contents(), was, cur, pending.Keys) && NotBehind(was.snapshot, cur) && Covers(priced.items, all)
      modifies this`pending, this`queue, this`all, priced
      ensures Resetting(Contents(), was, cur, {}) && Covers(priced.items, all) && all <= old(all)
      ensures DemotedFrom(Contents(), old(Contents()), old(pending).Keys, cur) && Tidy(Contents(), old(Contents()))
    {
      var todo := pending.Keys;
      ghost var start, accounts := Contents(), todo;
      hide ResetAt, DemoteAccount, AcctSame, Resetting, DemotedFrom, Tidy;
      TidySelf(start);
      StartDemotion(start, accounts - todo, cur);
      while todo != {}
        invariant Resetting(Contents(), was, cur, todo) && Covers(priced.items, all) && all <= old(all)
        invariant todo <= pending.Keys && todo <= accounts
        invariant DemotedFrom(Contents(), start, accounts - todo, cur) && Tidy(Contents(), start)
        decreases todo
      {
        var addr :| addr in todo;
        assert accounts - (todo - {addr}) == accounts - todo + {addr};
        ghost var before := Contents();
        DemoteVisit(addr, cur, todo, was, start, accounts - todo);
        TidyTrans(Contents(), before, start);
        todo := todo - {addr};
      }
      assert accounts - todo == accounts;
    }

    /** Sets the pending nonce of every account behind its last pending transaction. */
    method SetNonces()
      requires managed == map[] && NoEmptyList(pending)
      modifies this`managed
      ensures managed == NextNonces(pending)
    {
      var todo := pending.Keys;
      while todo != {}
        invariant todo <= pending.Keys && managed == NextNonces(pending) - todo
        decreases todo
      {
        var addr :| addr in todo;
        managed := managed[addr := Greatest(pending[addr].Keys) + 1];
        todo := todo - {addr};
      }
    }

    /** Brings the pool in line with a new chain state, unless that state is unavailable. */
    method Reset(cur: ChainState, available: bool)
      returns (ghost promoted: Book, ghost level: nat, ghost order: seq<Address>)
      requires Valid() && NotBehind(snapshot, cur) && config.accountSlots > 0
      modifies this`pending, this`queue, this`managed, this`snapshot, this`all, priced
      ensures Valid() && all <= old(all) && Tidy(Contents(), old(Contents()))
      ensures !available ==> Contents() == old(Contents())
      ensures available ==> snapshot == cur.nonces && ResetFrom(promoted, old(Contents()), cur, locals, config.accountQueue)
      ensures available ==> Limited(Contents(), promoted, locals, config, level, order)
    {
      hide Tidy;
      TidySelf(Contents());
      if !available {
        promoted, level, order := Contents(), 0, [];
        return;
      }
      ghost var was := Contents();
      snapshot, managed := cur.nonces, map[];
      ghost var start := Contents();
      StartReset(start, was, cur);
      TidySame(start, was);
      DemoteUnexecutables(cur, was);
      ghost var demoted := Contents();
      TidyTrans(demoted, start, was);
      NoneEmpty(pending);
      SetNonces();
      ghost var ready := Contents();
      TidySame(ready, demoted);
      TidyTrans(ready, demoted, was);
      ResetInOrder(demoted, was, cur, ready);
      promoted, level, order := PromoteExecutables(queue.Keys, cur);
      TidyTrans(Contents(), ready, was);
      ResetEach(demoted, ready, promoted, start, cur, locals, config.accountQueue);
      SameReset(promoted, start, was, cur, locals, config.accountQueue);
    }

    /** Adds one transaction and, if it fills a new slot, promotes what it makes executable. */
    method AddTx(tx: Tx, local: bool, cur: ChainState, wellFormed: bool, available: bool)
      returns (err: AddError, ghost replaced: bool, ghost evicted: seq<Tx>, ghost added: Book,
               ghost promoted: Book, ghost level: nat, ghost order: seq<Address>)
      requires Valid() && NotBehind(snapshot, cur) && config.accountSlots > 0
      modifies this, priced
      ensures Valid() && snapshot == old(snapshot) && old(locals) <= locals && all <= old(all) + {tx}
      ensures AddStep(old(Contents()), old(locals), old(OfferOf(tx, local, cur, wellFormed)), added, locals, err, replaced, evicted)
      ensures err != NoError || replaced || !available ==> Contents() == added
      ensures err == NoError && !replaced && available ==>
                && PromotedFrom(promoted, added, {tx.sender}, cur, locals, config.accountQueue)
                && Limited(Contents(), promoted, locals, config, level, order) && Tidy(Contents(), added)
    {
      hide AddStep, Evicts, Took, Inv, PromotedFrom, Limited, Tidy, Covers;
      assert NonceOf(snapshot, tx.sender) <= cur.Nonce(tx.sender);
      var swapped;
      swapped, err, evicted := Add(tx, local, cur, wellFormed);
      AddedOne(old(Contents()), old(locals), old(OfferOf(tx, local, cur, wellFormed)), Contents(), locals, err, swapped, evicted);
      replaced, added, promoted, level, order := swapped, Contents(), Contents(), 0, [];
      if err == NoError && !swapped && available {
        InvIsOrder(Contents(), {tx.sender});
        promoted, level, order := PromoteExecutables({tx.sender}, cur);
      }
    }

    /** Adds a batch of transactions and then promotes once for all the accounts they touch. */
    method AddTxs(txs: seq<Tx>, local: bool, cur: ChainState, wellFormed: set<Tx>, available: bool)
      returns (errs: seq<AddError>, dirty: set<Address>, ghost log: seq<Addition>, ghost added: Book,
               ghost promoted: Book, ghost level: nat, ghost order: seq<Address>)
      requires Valid() && NotBehind(snapshot, cur) && config.accountSlots > 0
      modifies this, priced
      ensures Valid() && snapshot == old(snapshot) && old(locals) <= locals && gasPrice == old(gasPrice)
      ensures BookAfter(log, 0, added) == old(Contents()) && LocalsAfter(log, 0, locals) == old(locals)
      ensures Batch(log, OffersOf(txs, local, cur, wellFormed, old(gasPrice), config), errs, added, locals)
      ensures forall t :: t in added.all ==> t in old(all) || t in txs
      ensures Touched(dirty, log, OffersOf(txs, local, cur, wellFormed, old(gasPrice), config), errs)
      ensures dirty == {} || !available ==> Contents() == added
      ensures dirty != {} && available ==>
                && PromotedFrom(promoted, added, dirty, cur, locals, config.accountQueue)
                && Limited(Contents(), promoted, locals, config, level, order) && Tidy(Contents(), added)
    {
      hide AddStep, Evicts, Took, Batch, Touched, OffersOf, Inv, PromotedFrom, Limited, Tidy, Covers;
      dirty, errs, log := {}, [], [];
      NoAddition(Contents(), locals, local, cur, wellFormed, gasPrice, config);
      for i := 0 to |txs|
        invariant Valid() && snapshot == old(snapshot) && old(locals) <= locals && gasPrice == old(gasPrice) && |log| == |errs| == i
        invariant BookAfter(log, 0, Contents()) == old(Contents()) && LocalsAfter(log, 0, locals) == old(locals)
        invariant Batch(log, OffersOf(txs[..i], local, cur, wellFormed, gasPrice, config), errs, Contents(), locals)
        invariant forall t :: t in all ==> t in old(all) || t in txs[..i]
        invariant Touched(dirty, log, OffersOf(txs[..i], local, cur, wellFormed, gasPrice, config), errs)
      {
        ghost var b, locals0, offers, o := Contents(), locals, OffersOf(txs[..i], local, cur, wellFormed, gasPrice, config), OfferOf(txs[i], local, cur, txs[i] in wellFormed);
        assert NonceOf(snapshot, txs[i].sender) <= cur.Nonce(txs[i].sender);
        var replaced, err;
        ghost var evicted;
        replaced, err, evicted := Add(txs[i], local, cur, txs[i] in wellFormed);
        OffersGrow(txs, i, local, cur, wellFormed, gasPrice, config);
        AddedOne(b, locals0, o, Contents(), locals, err, replaced, evicted);
        BatchGrows(log, offers, errs, b, locals0, o, Contents(), locals, err, replaced, evicted);
        TouchedGrows(dirty, log, offers, errs, Addition(b, locals0, evicted, replaced), o, err);
        log := log + [Addition(b, locals0, evicted, replaced)];
        errs := errs + [err];
        if err == NoError && !replaced {
          dirty := dirty + {txs[i].sender};
        }
      }
      assert txs[..|txs|] == txs;
      added, promoted, level, order := Contents(), Contents(), 0, [];
      if dirty != {} && available {
        InvIsOrder(Contents(), dirty);
        promoted, level, order := PromoteExecutables(dirty, cur);
      }
    }

    /** Removes a batch of transactions. */
    method RemoveBatch(txs: seq<Tx>)
      requires Valid()
      modifies this`pending, this`queue, this`managed, this`all, priced
      ensures Valid() && Contents() == RemoveAll(old(Contents()), txs)
    {
      for i := 0 to |txs|
        invariant Valid() && RemoveAll(Contents(), txs[i..]) == RemoveAll(old(Contents()), txs)
      {
        assert txs[i..][1..] == txs[i + 1..] && txs[i..][0] == txs[i];
        RemoveTx(txs[i], {});
      }
    }

    /** One event. */
    method Handle(e: Event)
      requires Valid() && config.accountSlots > 0 && Forward(snapshot, [e])
      modifies this, priced
      ensures Valid() && gasPrice == old(gasPrice) && snapshot == if e.NewHead? then e.cur.nonces else old(snapshot)
      ensures Happens(old(PoolState(Contents(), locals)), e, PoolState(Contents(), locals), config, gasPrice)
    {
      hide Happens, Batch, Touched, OffersOf, PromotedFrom, Limited, Tidy, ResetFrom, RemoveAll, Inv, Covers;
      assert [e][1..] == [] && [e][0] == e;
      ghost var s := PoolState(Contents(), locals);
      match e {
      case AddBatch(txs, local, cur, wellFormed) =>
        var errs, dirty;
        ghost var log, added, promoted, level, order;
        errs, dirty, log, added, promoted, level, order := AddTxs(txs, local, cur, wellFormed, true);
        BatchHappens(s, e, PoolState(Contents(), locals), config, gasPrice, log, errs, dirty, added, promoted, level, order);
      case RemoveTxs(txs) =>
        RemoveAllForgets(Contents(), txs);
        RemoveBatch(txs);
        RemovalHappens(s, e, PoolState(Contents(), locals), config, gasPrice);
      case NewHead(cur) =>
        ghost var promoted, level, order := Reset(cur, true);
        ResetHappens(s, e, PoolState(Contents(), locals), config, gasPrice, promoted, level, order);
      }
    }

    /** In any run of additions, removals and resets every event does what it should and the books stay in order, as
        long as no chain state the pool is shown falls behind the one of the last reset. */
    method Run(events: seq<Event>) returns (ghost trace: seq<PoolState>)
      requires Valid() && config.accountSlots > 0 && Forward(snapshot, events)
      modifies this, priced
      ensures Valid() && |trace| == |events| + 1
      ensures trace[0] == old(PoolState(Contents(), locals)) && trace[|events|] == PoolState(Contents(), locals)
      ensures forall i :: 0 <= i < |events| ==> Happens(trace[i], events[i], trace[i + 1], config, gasPrice)
      ensures forall i :: 0 <= i <= |events| ==> Inv(trace[i].book)
    {
      hide Happens, Forward, Inv, Covers;
      trace := [PoolState(Contents(), locals)];
      for i := 0 to |events|
        invariant Valid() && Forward(snapshot, events[i..]) && |trace| == i + 1 && gasPrice == old(gasPrice)
        invariant trace[0] == old(PoolState(Contents(), locals)) && trace[i] == PoolState(Contents(), locals)
        invariant forall j :: 0 <= j < i ==> Happens(trace[j], events[j], trace[j + 1], config, gasPrice)
        invariant forall j :: 0 <= j <= i ==> Inv(trace[j].book)
      {
        ForwardNext(snapshot, events, i);
        Handle(events[i]);
        trace := trace + [PoolState(Contents(), locals)];
      }
    }
  }

  lemma ForwardNext(snapshot: map<Address, nat>, events: seq<Event>, i: nat)
    requires i < |events| && Forward(snapshot, events[i..])
    ensures Forward(snapshot, [events[i]])
    ensures Forward(if events[i].NewHead? then events[i].cur.nonces else snapshot, events[i + 1..])
  {
    assert events[i..][1..] == events[i + 1..] && events[i..][0] == events[i];
    assert [events[i]][1..] == [] && [events[i]][0] == events[i];
  }

  /** Two pending transactions of different senders. */
  function TwoPending(cheap: Tx, dear: Tx): Book {
    Book(map[cheap.sender := map[0 := cheap], dear.sender := map[0 := dear]], map[],
         map[cheap.sender := 1, dear.sender := 1], map[], {cheap, dear})
  }

  lemma TwoPendingInv(cheap: Tx, dear: Tx)
    requires cheap.sender != dear.sender && cheap.nonce == dear.nonce == 0
    ensures Inv(TwoPending(cheap, dear))
  {
    var b := TwoPending(cheap, dear);
    forall a
      ensures AcctAt(b, false, a)
    {
      assert ListOf(b.pending, a) == if a == cheap.sender then map[0 := cheap] else if a == dear.sender then map[0 := dear] else map[];
    }
    assert 0 in map[0 := cheap] && 0 in map[0 := dear];
  }

  lemma OneLeft(cheap: Tx, dear: Tx, tx: Tx)
    requires cheap.sender != dear.sender && tx.sender != cheap.sender && tx.sender != dear.sender
    ensures var rest := RemoveAll(TwoPending(cheap, dear), [cheap, cheap]);
            rest.all == {dear} && ListOf(rest.pending, tx.sender) == map[] && ListOf(rest.queue, tx.sender) == map[]
  {
    hide CutPending, SentBack, Below, AtLeast;
    var b := TwoPending(cheap, dear);
    var c := Books.RemoveTx(b, cheap);
    RemoveAllForgets(b, [cheap, cheap]);
    assert [cheap, cheap][1..] == [cheap] && [cheap][1..] == [];
    assert RemoveAll(b, [cheap, cheap]) == RemoveAll(c, [cheap]);
    assert RemoveAll(c, [cheap]) == RemoveAll(Books.RemoveTx(c, cheap), []);
    OthersKept(b, cheap, tx.sender);
    OthersKept(c, cheap, tx.sender);
  }

  lemma OthersKept(b: Book, tx: Tx, a: Address)
    requires a != tx.sender
    ensures ListOf(Books.RemoveTx(b, tx).pending, a) == ListOf(b.pending, a) && ListOf(Books.RemoveTx(b, tx).queue, a) == ListOf(b.queue, a)
  {
  }

  lemma NewSlot(b: Book, tx: Tx, priceBump: nat)
    requires ListOf(b.pending, tx.sender) == map[] && ListOf(b.queue, tx.sender) == map[]
    ensures Placeable(b, tx, priceBump) && Placed(b, tx, priceBump).all == b.all + {tx}
  {
  }

  /** A pool that holds two transactions, and two price entries for the first. */
  method Crowded(cheap: Tx, dear: Tx, config: Config, cur: ChainState) returns (pool: TxPool)
    requires cheap.sender != dear.sender && cheap.nonce == dear.nonce == 0 && cur.nonces == map[]
    ensures fresh(pool) && fresh(pool.priced) && pool.Valid() && pool.Contents() == TwoPending(cheap, dear)
    ensures pool.config == config && pool.locals == {} && pool.gasPrice == 0 && pool.priced.items == multiset{cheap, dear, cheap}
  {
    pool := new TxPool(config, cur, 0);
    TwoPendingInv(cheap, dear);
    var b := TwoPending(cheap, dear);
    pool.pending, pool.queue, pool.managed, pool.snapshot, pool.all := b.pending, b.queue, b.managed, b.snapshot, b.all;
    pool.priced.items := multiset{cheap, dear, cheap};
  }

  /** Two transactions in a pool with room for one, two price entries for the cheaper one, and a third transaction. */
  ghost predicate Tight(cheap: Tx, dear: Tx, tx: Tx, o: Offer) {
    && cheap == Tx(1, 0, 1, 0, 0, 0) && dear == Tx(2, 0, 5, 0, 0, 0) && tx == Tx(3, 0, 9, 0, 0, 0)
    && o == Offer(tx, false, ChainState(map[], map[], 0), true, 0, Config(10, 1, 1, 1, 0))
  }

  lemma TightAdmits(cheap: Tx, dear: Tx, tx: Tx, o: Offer)
    requires Tight(cheap, dear, tx, o)
    ensures o.tx !in TwoPending(cheap, dear).all && !TooCheap(TwoPending(cheap, dear), {}, o)
    ensures Admissible(o.tx, o.local, o.cur, o.wellFormed, {}, o.gasPrice)
  {
    assert cheap in TwoPending(cheap, dear).all;
  }

  lemma TightTried(cheap: Tx, dear: Tx, tx: Tx, o: Offer, c: Book, locals: set<Address>, err: AddError, replaced: bool, evicted: seq<Tx>)
    requires Tight(cheap, dear, tx, o) && AddStep(TwoPending(cheap, dear), {}, o, c, locals, err, replaced, evicted)
    ensures err == NoError || err == ReplaceUnderpriced
  {
    hide RemoveAll, Placed, Placeable, Occupied, EvictsFor, CheapRemote, Admissible, TooCheap, TwoPending;
    TightAdmits(cheap, dear, tx, o);
  }

  lemma TightEvicts(cheap: Tx, dear: Tx, tx: Tx, o: Offer, evicted: seq<Tx>)
    requires Tight(cheap, dear, tx, o) && Evicts(evicted, multiset{cheap, dear, cheap}, {cheap, dear}, {}, o.config)
    ensures evicted == [cheap, cheap] && {cheap, dear} - Dropped(evicted) == {dear} && !MakesRoom({dear}, {}, o.config)
  {
    hide IsDiscard, NoPairDue, NoneTwice;
    assert Excess({cheap, dear}, o.config) == 2;
    DroppedTwice(evicted, cheap, dear);
    assert dear in {dear};
  }

  lemma TightAfter(cheap: Tx, dear: Tx, tx: Tx, o: Offer, c: Book, locals: set<Address>, err: AddError, replaced: bool, evicted: seq<Tx>)
    requires Tight(cheap, dear, tx, o) && AddStep(TwoPending(cheap, dear), {}, o, c, locals, err, replaced, evicted)
    requires (err == NoError || err == ReplaceUnderpriced) && evicted == [cheap, cheap]
    ensures c.all == {dear, tx}
  {
    hide RemoveAll, Placed, Placeable, Occupied, EvictsFor, CheapRemote, Admissible, TooCheap;
    OneLeft(cheap, dear, tx);
    NewSlot(RemoveAll(TwoPending(cheap, dear), evicted), tx, o.config.priceBump);
  }

  /** A pool with room for one transaction holds two, and two price entries for the cheaper one.  Adding a third
      evicts the cheaper one twice: the dearer one stays, and the pool is over its limit again. */
  method FallsShort(cheap: Tx, dear: Tx, tx: Tx, o: Offer) returns (ghost evicted: seq<Tx>, all: set<Tx>)
    requires Tight(cheap, dear, tx, o)
    ensures evicted == [cheap, cheap] && all == {dear, tx} && !MakesRoom({cheap, dear} - Dropped(evicted), {}, o.config)
  {
    hide Inv, Covers, AddStep, Evicts, Took, IsDiscard, MakesRoom, Dropped;
    var pool := Crowded(cheap, dear, o.config, o.cur);
    var replaced, err;
    replaced, err, evicted := pool.Add(tx, false, o.cur, true);
    TightTried(cheap, dear, tx, o, pool.Contents(), pool.locals, err, replaced, evicted);
    TightEvicts(cheap, dear, tx, o, evicted);
    TightAfter(cheap, dear, tx, o, pool.Contents(), pool.locals, err, replaced, evicted);
    all := pool.all;
  }
}
