/** The transaction pool's books as a value: who has what pending and queued, and the nonces the pool
    hands out.  Every pool operation is specified as a function on these books. */
module Books {
  import opened Options
  import opened Transactions
  import opened SortedMaps
  import opened TxLists

  type Lists = map<Address, TxMap>

  /** An account's list; an absent one is empty. */
  function ListOf(m: Lists, a: Address): TxMap {
    if a in m then m[a] else map[]
  }

  /** Files a list, leaving no entry for an empty one. */
  function File(m: Lists, a: Address, l: TxMap): (r: Lists)
    ensures ListOf(r, a) == l && forall b :: b != a ==> ListOf(r, b) == ListOf(m, b)
  {
    if l == map[] then m - {a} else m[a := l]
  }

  function NonceOf(nonces: map<Address, nat>, a: Address): nat {
    if a in nonces then nonces[a] else 0
  }

  /** The chain state the pool looks at: account nonces, balances and the block gas limit. */
  datatype ChainState = ChainState(nonces: map<Address, nat>, balances: map<Address, nat>, gasLimit: nat) {
    function Nonce(a: Address): nat {
      NonceOf(nonces, a)
    }

    function Balance(a: Address): nat {
      NonceOf(balances, a)
    }
  }

  /** `snapshot` holds the chain nonces at the last reset; `managed` overrides them where set. */
  datatype Book = Book(pending: Lists, queue: Lists, managed: map<Address, nat>, snapshot: map<Address, nat>, all: set<Tx>) {
    function PendingNonce(a: Address): nat {
      if a in managed then managed[a] else NonceOf(snapshot, a)
    }
  }

  /** Each transaction is filed under its nonce, belongs to the account and is known to the pool. */
  ghost predicate Owned(m: TxMap, a: Address, all: set<Tx>) {
    forall n :: n in m ==> m[n].nonce == n && m[n].sender == a && m[n] in all
  }

  /** Pending nonces are the interval `[lo, pn)`; queued nonces lie beyond it, except that while the
      queue is `stale` some may lie below it. */
  ghost predicate AcctOk(pend: TxMap, que: TxMap, lo: nat, pn: nat, stale: bool, a: Address, all: set<Tx>) {
    && Interval(pend, lo, pn)
    && (forall n :: n in que ==> n >= pn || (stale && n < lo))
    && Owned(pend, a, all) && Owned(que, a, all)
  }

  ghost predicate AcctAt(b: Book, stale: bool, a: Address) {
    AcctOk(ListOf(b.pending, a), ListOf(b.queue, a), NonceOf(b.snapshot, a), b.PendingNonce(a), stale, a, b.all)
  }

  ghost predicate NoEmpty(m: Lists) {
    forall a :: a in m ==> m[a] != map[]
  }

  /** The pool invariant: for every account the pending nonces are exactly the interval from the chain
      nonce at the last reset to the pending nonce, the queued ones lie beyond, everything listed is
      known, and no list is empty. */
  ghost predicate Inv(b: Book) {
    NoEmpty(b.pending) && NoEmpty(b.queue) && forall a :: AcctAt(b, false, a)
  }

  /** Rewrites one account: its two lists, its pending nonce, and the set of known transactions. */
  function SetAcct(b: Book, a: Address, pend: TxMap, que: TxMap, pn: nat, all: set<Tx>): (c: Book)
    ensures ListOf(c.pending, a) == pend && ListOf(c.queue, a) == que && c.PendingNonce(a) == pn
    ensures c.snapshot == b.snapshot && c.all == all
    ensures forall x :: x != a ==>
              && ListOf(c.pending, x) == ListOf(b.pending, x) && ListOf(c.queue, x) == ListOf(b.queue, x)
              && c.PendingNonce(x) == b.PendingNonce(x)
  {
    Book(File(b.pending, a, pend), File(b.queue, a, que),
         if b.PendingNonce(a) == pn then b.managed else b.managed[a := pn], b.snapshot, all)
  }

  ghost predicate KeepsOthers(was: set<Tx>, all: set<Tx>, a: Address) {
    forall t :: t in was && t.sender != a ==> t in all
  }

  /** An operation on one account keeps every account in order if it leaves that one in order. */
  lemma SetAcctKeepsOrder(b: Book, a: Address, pend: TxMap, que: TxMap, pn: nat, all: set<Tx>, stale: bool, x: Address)
    requires AcctAt(b, stale, x) && KeepsOthers(b.all, all, a)
    requires x == a ==> AcctOk(pend, que, NonceOf(b.snapshot, a), pn, stale, a, all)
    ensures AcctAt(SetAcct(b, a, pend, que, pn, all), stale, x)
  {
  }

  lemma FileNoEmpty(m: Lists, a: Address, l: TxMap)
    requires NoEmpty(m)
    ensures NoEmpty(File(m, a, l))
  {
  }

  lemma SetAcctKeepsInv(b: Book, a: Address, pend: TxMap, que: TxMap, pn: nat, all: set<Tx>)
    requires Inv(b) && KeepsOthers(b.all, all, a)
    requires AcctOk(pend, que, NonceOf(b.snapshot, a), pn, false, a, all)
    ensures Inv(SetAcct(b, a, pend, que, pn, all))
  {
    FileNoEmpty(b.pending, a, pend);
    FileNoEmpty(b.queue, a, que);
    forall x
      ensures AcctAt(SetAcct(b, a, pend, que, pn, all), false, x)
    {
      assert AcctAt(b, false, x);
      SetAcctKeepsOrder(b, a, pend, que, pn, all, false, x);
    }
  }

  // ------------------------------------------------------------------ enqueue

  /** The known transactions after `tx` has taken the place of whatever `m` held under its nonce. */
  function Swap(all: set<Tx>, m: TxMap, tx: Tx): set<Tx> {
    (if tx.nonce in m then all - {m[tx.nonce]} else all) + {tx}
  }

  /** Puts a transaction into its sender's queue, replacing one it outbids. */
  function Enqueue(b: Book, tx: Tx, priceBump: nat): Book {
    var a := tx.sender;
    var q := ListOf(b.queue, a);
    if !Accepts(q, tx, priceBump) then b
    else SetAcct(b, a, ListOf(b.pending, a), q[tx.nonce := tx], b.PendingNonce(a), Swap(b.all, q, tx))
  }

  lemma EnqueueKeepsInv(b: Book, tx: Tx, priceBump: nat)
    requires Inv(b) && tx.nonce >= b.PendingNonce(tx.sender)
    ensures Inv(Enqueue(b, tx, priceBump))
  {
    var a := tx.sender;
    var p, q := ListOf(b.pending, a), ListOf(b.queue, a);
    assert AcctAt(b, false, a);
    if Accepts(q, tx, priceBump) {
      SetAcctKeepsInv(b, a, p, q[tx.nonce := tx], b.PendingNonce(a), Swap(b.all, q, tx));
    }
  }

  /** Replaces a pending transaction by one that outbids it. */
  function ReplacePending(b: Book, tx: Tx): Book {
    var a := tx.sender;
    var p := ListOf(b.pending, a);
    SetAcct(b, a, p[tx.nonce := tx], ListOf(b.queue, a), b.PendingNonce(a), Swap(b.all, p, tx))
  }

  lemma ReplacePendingKeepsInv(b: Book, tx: Tx)
    requires Inv(b) && tx.nonce in ListOf(b.pending, tx.sender) && tx !in b.all
    ensures Inv(ReplacePending(b, tx))
  {
    var a := tx.sender;
    var p, q := ListOf(b.pending, a), ListOf(b.queue, a);
    assert AcctAt(b, false, a);
    SetAcctKeepsInv(b, a, p[tx.nonce := tx], q, b.PendingNonce(a), Swap(b.all, p, tx));
  }

  // ------------------------------------------------------------------ remove

  /** Forgets a transaction whose nonce is pending: the later ones go back to the queue, unless nothing
      stays pending: then they are dropped from the lists but stay known. */
  function CutPending(b: Book, tx: Tx): Book {
    var a, n := tx.sender, tx.nonce;
    var p, q := ListOf(b.pending, a), ListOf(b.queue, a);
    SetAcct(b, a, Below(p, n), q + SentBack(p, n), if b.PendingNonce(a) > n then n else b.PendingNonce(a), b.all - {tx})
  }

  function SentBack(p: TxMap, n: nat): TxMap {
    if Below(p, n) == map[] then map[] else AtLeast(p, n + 1)
  }

  function DropQueued(b: Book, tx: Tx): Book {
    var a := tx.sender;
    SetAcct(b, a, ListOf(b.pending, a), ListOf(b.queue, a) - {tx.nonce}, b.PendingNonce(a), b.all - {tx})
  }

  /** Forgets a transaction. */
  function RemoveTx(b: Book, tx: Tx): Book {
    if tx !in b.all then b
    else if tx.nonce in ListOf(b.pending, tx.sender) then CutPending(b, tx)
    else DropQueued(b, tx)
  }

  lemma CutPendingOk(p: TxMap, q: TxMap, lo: nat, pn: nat, a: Address, all: set<Tx>, tx: Tx)
    requires AcctOk(p, q, lo, pn, false, a, all) && tx.nonce in p
    ensures tx.nonce < pn && AcctOk(Below(p, tx.nonce), q + SentBack(p, tx.nonce), lo, tx.nonce, false, a, all - {tx})
  {
  }

  lemma CutPendingKeepsInv(b: Book, tx: Tx)
    requires Inv(b) && tx.nonce in ListOf(b.pending, tx.sender)
    ensures Inv(CutPending(b, tx))
  {
    var a, n := tx.sender, tx.nonce;
    var p, q := ListOf(b.pending, a), ListOf(b.queue, a);
    assert AcctAt(b, false, a);
    CutPendingOk(p, q, NonceOf(b.snapshot, a), b.PendingNonce(a), a, b.all, tx);
    assert CutPending(b, tx) == SetAcct(b, a, Below(p, n), q + SentBack(p, n), n, b.all - {tx});
    SetAcctKeepsInv(b, a, Below(p, n), q + SentBack(p, n), n, b.all - {tx});
  }

  lemma DropQueuedKeepsInv(b: Book, tx: Tx)
    requires Inv(b) && tx.nonce !in ListOf(b.pending, tx.sender)
    ensures Inv(DropQueued(b, tx))
  {
    var a := tx.sender;
    var p, q := ListOf(b.pending, a), ListOf(b.queue, a);
    assert AcctAt(b, false, a);
    SetAcctKeepsInv(b, a, p, q - {tx.nonce}, b.PendingNonce(a), b.all - {tx});
  }

  lemma RemoveTxKeepsInv(b: Book, tx: Tx)
    requires Inv(b)
    ensures Inv(RemoveTx(b, tx))
  {
    if tx in b.all {
      if tx.nonce in ListOf(b.pending, tx.sender) {
        CutPendingKeepsInv(b, tx);
      } else {
        DropQueuedKeepsInv(b, tx);
      }
    }
  }

  // ------------------------------------------------------------------ promote

  /** The `k` lowest nonces of a list. */
  function Lowest(m: TxMap, k: nat): (r: TxMap)
    ensures r.Keys <= m.Keys && forall n :: n in r ==> r[n] == m[n]
    decreases k
  {
    if k == 0 || m == map[] then map[]
    else
      var n := Least(m.Keys);
      Lowest(m - {n}, k - 1)[n := m[n]]
  }

  /** What a look at an account's queue yields: the transactions to promote and those to keep queued. */
  datatype Promotion = Promotion(ready: TxMap, kept: TxMap, pn: nat)

  function Promote(q: TxMap, pn: nat, nonce: nat, balance: nat, gasLimit: nat, cap: Option<nat>): Promotion {
    var payable := Affordable(AtLeast(q, nonce), balance, gasLimit);
    var e := ReadyEnd(payable, pn);
    var ready, rest := Below(payable, e), AtLeast(payable, e);
    Promotion(ready, if cap == None then rest else Lowest(rest, cap.value), if ready == map[] then pn else e)
  }

  /** Moves an account's executable transactions from the queue to the pending list and forgets the
      stale, the unpayable and those over the account's queue limit. */
  function PromoteAccount(b: Book, a: Address, cur: ChainState, cap: Option<nat>): Book {
    var p, q := ListOf(b.pending, a), ListOf(b.queue, a);
    var r := Promote(q, b.PendingNonce(a), cur.Nonce(a), cur.Balance(a), cur.gasLimit, cap);
    SetAcct(b, a, p + r.ready, r.kept, r.pn, b.all - Txs(q - (r.ready.Keys + r.kept.Keys)))
  }

  /** The promoted transactions continue the pending interval without a gap. */
  lemma PromoteRun(q: TxMap, pn: nat, nonce: nat, balance: nat, gasLimit: nat, cap: Option<nat>)
    requires forall n :: n in q && n >= nonce ==> n >= pn
    ensures var r := Promote(q, pn, nonce, balance, gasLimit, cap);
            && Interval(r.ready, pn, r.pn)
            && (forall n :: n in r.kept ==> n >= r.pn)
            && (forall n :: n in r.ready ==> n in q && r.ready[n] == q[n])
            && (forall n :: n in r.kept ==> n in q && r.kept[n] == q[n])
  {
    var payable := Affordable(AtLeast(q, nonce), balance, gasLimit);
    var e := ReadyEnd(payable, pn);
    if payable.Keys != {} && Least(payable.Keys) <= pn {
      assert Least(payable.Keys) == pn;
      assert pn in Below(payable, e);
    } else {
      assert Below(payable, e) == map[];
    }
  }

  lemma TxsMember(m: TxMap, t: Tx)
    requires ByNonce(m)
    ensures t in Txs(m) <==> t.nonce in m && m[t.nonce] == t
  {
  }

  /** Forgetting what is neither promoted nor kept leaves the promoted and the kept known. */
  lemma ForgetRest(q: TxMap, a: Address, all: set<Tx>, m: TxMap, stay: set<nat>)
    requires Owned(q, a, all) && Owned(m, a, all)
    requires forall n :: n in m && n in q ==> n in stay
    ensures Owned(m, a, all - Txs(q - stay))
  {
    forall n | n in m
      ensures m[n] !in Txs(q - stay)
    {
      TxsMember(q - stay, m[n]);
    }
  }

  lemma PromoteAcctOk(p: TxMap, q: TxMap, lo: nat, pn: nat, a: Address, all: set<Tx>, r: Promotion)
    requires AcctOk(p, q, lo, pn, true, a, all)
    requires Interval(r.ready, pn, r.pn) && forall n :: n in r.kept ==> n >= r.pn
    requires forall n :: n in r.ready ==> n in q && r.ready[n] == q[n]
    requires forall n :: n in r.kept ==> n in q && r.kept[n] == q[n]
    ensures AcctOk(p + r.ready, r.kept, lo, r.pn, false, a, all - Txs(q - (r.ready.Keys + r.kept.Keys)))
  {
    var stay := r.ready.Keys + r.kept.Keys;
    assert Interval(p + r.ready, lo, r.pn);
    ForgetRest(q, a, all, p + r.ready, stay);
    ForgetRest(q, a, all, r.kept, stay);
  }

  /** Promoting an account's queue puts the account in order even if the queue was stale. */
  lemma PromoteAccountOk(b: Book, a: Address, cur: ChainState, cap: Option<nat>, stale: bool, x: Address)
    requires AcctAt(b, true, a) && cur.Nonce(a) >= NonceOf(b.snapshot, a)
    requires x != a ==> AcctAt(b, stale, x)
    ensures AcctAt(PromoteAccount(b, a, cur, cap), if x == a then false else stale, x)
  {
    var p, q, pn := ListOf(b.pending, a), ListOf(b.queue, a), b.PendingNonce(a);
    var r := Promote(q, pn, cur.Nonce(a), cur.Balance(a), cur.gasLimit, cap);
    PromoteRun(q, pn, cur.Nonce(a), cur.Balance(a), cur.gasLimit, cap);
    PromoteAcctOk(p, q, NonceOf(b.snapshot, a), pn, a, b.all, r);
    ForgottenAreOwn(q - (r.ready.Keys + r.kept.Keys), a, b.all);
    if x != a {
      SetAcctKeepsOrder(b, a, p + r.ready, r.kept, r.pn, PromoteAccount(b, a, cur, cap).all, stale, x);
    }
  }

  lemma ForgottenAreOwn(m: TxMap, a: Address, all: set<Tx>)
    requires Owned(m, a, all)
    ensures KeepsOthers(all, all - Txs(m), a)
  {
  }

  // ------------------------------------------------------------------ demote

  /** Drops an account's pending transactions that are mined or unpayable, and sends those left behind
      a gap back to the queue. */
  function DemoteAccount(b: Book, a: Address, cur: ChainState): Book {
    var p, q := ListOf(b.pending, a), ListOf(b.queue, a);
    var left := AtLeast(p, cur.Nonce(a));
    var kept := FilterKeeps(left, true, cur.Balance(a), cur.gasLimit);
    var back := FilterInvalidates(left, true, cur.Balance(a), cur.gasLimit);
    SetAcct(b, a, kept, q + back, b.PendingNonce(a), b.all - Txs(p - (kept.Keys + back.Keys)))
  }

  lemma AtLeastInterval(p: TxMap, lo: nat, pn: nat, s: nat)
    requires Interval(p, lo, pn) && lo <= s
    ensures Interval(AtLeast(p, s), s, if s <= pn then pn else s)
  {
  }

  /** `m` is part of `p`. */
  ghost predicate PartOf(m: TxMap, p: TxMap) {
    forall n :: n in m ==> n in p && m[n] == p[n]
  }

  lemma FilterFacts(left: TxMap, lo: nat, hi: nat, balance: nat, gasLimit: nat)
    requires Interval(left, lo, hi)
    ensures var kept, back := FilterKeeps(left, true, balance, gasLimit), FilterInvalidates(left, true, balance, gasLimit);
            && Interval(kept, lo, lo + |kept|) && lo + |kept| <= hi
            && PartOf(kept, left) && PartOf(back, left)
            && (forall n :: n in back ==> n >= lo + |kept|)
  {
    FilterKeepsPrefix(left, lo, hi, balance, gasLimit);
    IntervalSize(FilterKeeps(left, true, balance, gasLimit), lo, FilterEnd(left, hi, balance, gasLimit));
  }

  lemma SplitPendingOk(p: TxMap, q: TxMap, lo: nat, pn: nat, a: Address, all: set<Tx>, s: nat, e: nat, kept: TxMap, back: TxMap)
    requires AcctOk(p, q, lo, pn, false, a, all) && lo <= s && Interval(kept, s, e) && (e <= pn || e == s)
    requires PartOf(kept, p) && PartOf(back, p) && forall n :: n in back ==> n >= e
    ensures AcctOk(kept, q + back, s, e, true, a, all - Txs(p - (kept.Keys + back.Keys)))
  {
    var stay := kept.Keys + back.Keys;
    ForgetRest(p, a, all, kept, stay);
    ForgetRest(p, a, all, q + back, stay);
  }

  /** What stays pending is again an interval, starting at the new chain nonce. */
  lemma DemoteAcctOk(p: TxMap, q: TxMap, lo: nat, pn: nat, a: Address, all: set<Tx>, s: nat, balance: nat, gasLimit: nat)
    requires AcctOk(p, q, lo, pn, false, a, all) && lo <= s
    ensures var left := AtLeast(p, s);
            var kept, back := FilterKeeps(left, true, balance, gasLimit), FilterInvalidates(left, true, balance, gasLimit);
            AcctOk(kept, q + back, s, s + |kept|, true, a, all - Txs(p - (kept.Keys + back.Keys)))
  {
    hide FilterKeeps, FilterInvalidates, Txs;
    var left := AtLeast(p, s);
    var kept, back := FilterKeeps(left, true, balance, gasLimit), FilterInvalidates(left, true, balance, gasLimit);
    AtLeastInterval(p, lo, pn, s);
    FilterFacts(left, s, if s <= pn then pn else s, balance, gasLimit);
    SplitPendingOk(p, q, lo, pn, a, all, s, s + |kept|, kept, back);
  }

  /** An account untouched by a change to another keeps its order. */
  lemma OthersKeepOrder(p: TxMap, q: TxMap, lo: nat, pn: nat, stale: bool, x: Address, was: set<Tx>, all: set<Tx>, a: Address)
    requires AcctOk(p, q, lo, pn, stale, x, was) && KeepsOthers(was, all, a) && x != a
    ensures AcctOk(p, q, lo, pn, stale, x, all)
  {
  }

  // ------------------------------------------------------------------ cap

  /** Drops an account's highest pending nonce. */
  function CapOne(b: Book, a: Address): Book
    requires ListOf(b.pending, a).Keys != {}
  {
    var p := ListOf(b.pending, a);
    var n := Greatest(p.Keys);
    SetAcct(b, a, p - {n}, ListOf(b.queue, a), if b.PendingNonce(a) > n then n else b.PendingNonce(a), b.all - {p[n]})
  }

  lemma CapOneAcctOk(p: TxMap, q: TxMap, lo: nat, pn: nat, a: Address, all: set<Tx>)
    requires AcctOk(p, q, lo, pn, false, a, all) && p.Keys != {}
    ensures var n := Greatest(p.Keys);
            && n == pn - 1 && n >= lo && p - {n} == Below(p, n) && |p - {n}| == |p| - 1
            && AcctOk(p - {n}, q, lo, n, false, a, all - {p[n]})
  {
    var n := Greatest(p.Keys);
    assert n in p && lo < pn;
    assert pn - 1 in p;
    assert (p - {n}).Keys == p.Keys - {n};
  }

  lemma CapOneKeepsInv(b: Book, a: Address)
    requires Inv(b) && ListOf(b.pending, a).Keys != {}
    ensures Inv(CapOne(b, a))
    ensures |ListOf(CapOne(b, a).pending, a)| == |ListOf(b.pending, a)| - 1
  {
    var p, q := ListOf(b.pending, a), ListOf(b.queue, a);
    var n := Greatest(p.Keys);
    assert AcctAt(b, false, a);
    CapOneAcctOk(p, q, NonceOf(b.snapshot, a), b.PendingNonce(a), a, b.all);
    assert CapOne(b, a) == SetAcct(b, a, p - {n}, q, n, b.all - {p[n]});
    SetAcctKeepsInv(b, a, p - {n}, q, n, b.all - {p[n]});
  }
}
