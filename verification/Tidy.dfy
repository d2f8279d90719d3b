/** Orphans: transactions the pool knows but lists neither as pending nor as queued. */
module Tidiness {
  import opened Options
  import opened Transactions
  import opened SortedMaps
  import opened TxLists
  import opened Books
  import opened Resets

  ghost predicate In(m: TxMap, t: Tx) {
    t.nonce in m && m[t.nonce] == t
  }

  ghost predicate Listed(b: Book, t: Tx) {
    In(ListOf(b.pending, t.sender), t) || In(ListOf(b.queue, t.sender), t)
  }

  /** A step is tidy if it forgets whatever it takes off the lists: every orphan afterwards was one before. */
  ghost predicate Tidy(now: Book, was: Book) {
    forall t {:trigger t in now.all} :: t in now.all && !Listed(now, t) ==> t in was.all && !Listed(was, t)
  }

  lemma TidySelf(b: Book)
    ensures Tidy(b, b)
  {
  }

  lemma TidySame(now: Book, was: Book)
    requires now.pending == was.pending && now.queue == was.queue && now.all == was.all
    ensures Tidy(now, was)
  {
    forall t
      ensures Listed(now, t) == Listed(was, t)
    {
    }
  }

  lemma TidyTrans(c: Book, b: Book, a: Book)
    requires Tidy(c, b) && Tidy(b, a)
    ensures Tidy(c, a)
  {
    hide Listed;
    forall t | t in c.all && !Listed(c, t)
      ensures t in a.all && !Listed(a, t)
    {
      assert t in b.all && !Listed(b, t);
    }
  }

  /** The same for one account's lists. */
  ghost predicate AcctTidy(p: TxMap, q: TxMap, all: set<Tx>, p0: TxMap, q0: TxMap, all0: set<Tx>, a: Address) {
    forall t {:trigger t in all} :: t in all && t.sender == a && !In(p, t) && !In(q, t) ==> t in all0 && !In(p0, t) && !In(q0, t)
  }

  lemma SetAcctTidy(b: Book, a: Address, pend: TxMap, que: TxMap, pn: nat, all: set<Tx>)
    requires all <= b.all && AcctTidy(pend, que, all, ListOf(b.pending, a), ListOf(b.queue, a), b.all, a)
    ensures Tidy(SetAcct(b, a, pend, que, pn, all), b)
  {
    hide File, In;
  }

  lemma CapOneTidy(b: Book, a: Address)
    requires ListOf(b.pending, a).Keys != {}
    ensures Tidy(CapOne(b, a), b)
  {
    var p, q := ListOf(b.pending, a), ListOf(b.queue, a);
    var n := Greatest(p.Keys);
    var pn := if b.PendingNonce(a) > n then n else b.PendingNonce(a);
    SetAcctTidy(b, a, p - {n}, q, pn, b.all - {p[n]});
  }

  lemma DropQueuedTidy(b: Book, tx: Tx)
    requires In(ListOf(b.queue, tx.sender), tx)
    ensures Tidy(DropQueued(b, tx), b)
  {
    var a := tx.sender;
    SetAcctTidy(b, a, ListOf(b.pending, a), ListOf(b.queue, a) - {tx.nonce}, b.PendingNonce(a), b.all - {tx});
  }

  lemma PromoteTidy(b: Book, a: Address, cur: ChainState, cap: Option<nat>)
    requires AcctAt(b, true, a) && NonceOf(b.snapshot, a) <= cur.Nonce(a)
    ensures Tidy(PromoteAccount(b, a, cur, cap), b)
  {
    var p, q, pn := ListOf(b.pending, a), ListOf(b.queue, a), b.PendingNonce(a);
    var r := Promote(q, pn, cur.Nonce(a), cur.Balance(a), cur.gasLimit, cap);
    PromoteRun(q, pn, cur.Nonce(a), cur.Balance(a), cur.gasLimit, cap);
    PromotedListTidy(p, q, pn, a, b.all, r, NonceOf(b.snapshot, a));
    hide Promote, AcctOk, Txs, AcctTidy;
    SetAcctTidy(b, a, p + r.ready, r.kept, r.pn, b.all - Txs(q - (r.ready.Keys + r.kept.Keys)));
  }

  lemma PromotedListTidy(p: TxMap, q: TxMap, pn: nat, a: Address, all: set<Tx>, r: Promotion, lo: nat)
    requires AcctOk(p, q, lo, pn, true, a, all) && Interval(r.ready, pn, r.pn)
    requires PartOf(r.ready, q) && PartOf(r.kept, q)
    ensures AcctTidy(p + r.ready, r.kept, all - Txs(q - (r.ready.Keys + r.kept.Keys)), p, q, all, a)
  {
    var gone := q - (r.ready.Keys + r.kept.Keys);
    forall t | t in all - Txs(gone) && t.sender == a && !In(p + r.ready, t) && !In(r.kept, t)
      ensures !In(p, t) && !In(q, t)
    {
      TxsMember(gone, t);
    }
  }

  lemma DemoteTidy(b: Book, was: Book, a: Address, cur: ChainState)
    requires ResetAt(b, was, cur, true, a)
    ensures Tidy(DemoteAccount(b, a, cur), b)
  {
    var p, q := ListOf(b.pending, a), ListOf(b.queue, a);
    DemotedListTidy(p, q, NonceOf(was.snapshot, a), was.PendingNonce(a), a, b.all, cur);
    hide AcctTidy, Txs, FilterKeeps, FilterInvalidates, AtLeast;
    SetAcctTidy(b, a, Kept(p, a, cur), q + Back(p, a, cur), b.PendingNonce(a), b.all - Txs(p - (Kept(p, a, cur).Keys + Back(p, a, cur).Keys)));
  }

  lemma DemotedListTidy(p: TxMap, q: TxMap, lo: nat, pn: nat, a: Address, all: set<Tx>, cur: ChainState)
    requires AcctOk(p, q, lo, pn, false, a, all)
    ensures var kept, back := Kept(p, a, cur), Back(p, a, cur);
            AcctTidy(kept, q + back, all - Txs(p - (kept.Keys + back.Keys)), p, q, all, a)
  {
    var kept, back := Kept(p, a, cur), Back(p, a, cur);
    var gone := p - (kept.Keys + back.Keys);
    forall t | t in all - Txs(gone) && t.sender == a && !In(kept, t) && !In(q + back, t)
      ensures !In(p, t) && !In(q, t)
    {
      TxsMember(gone, t);
      PartsOf(p, a, cur, t.nonce);
      KeptPart(p, a, cur, t.nonce);
    }
  }

  lemma KeptPart(p: TxMap, a: Address, cur: ChainState, n: nat)
    ensures n in Kept(p, a, cur) ==> n in p && Kept(p, a, cur)[n] == p[n]
  {
  }

  lemma CutTidy(p: TxMap, q: TxMap, lo: nat, pn: nat, a: Address, all: set<Tx>, tx: Tx)
    requires AcctOk(p, q, lo, pn, false, a, all) && In(p, tx) && tx.sender == a
    requires Below(p, tx.nonce) != map[] || AtLeast(p, tx.nonce + 1) == map[]
    ensures AcctTidy(Below(p, tx.nonce), q + SentBack(p, tx.nonce), all - {tx}, p, q, all, a)
  {
    var back := SentBack(p, tx.nonce);
    forall t | t in all - {tx} && t.sender == a && !In(Below(p, tx.nonce), t) && !In(q + back, t)
      ensures !In(p, t) && !In(q, t)
    {
      assert t.nonce in p && t.nonce > tx.nonce ==> t.nonce in AtLeast(p, tx.nonce + 1);
    }
  }

  lemma CutLeavesOrphan(b: Book, tx: Tx, n: nat)
    requires Inv(b) && In(ListOf(b.pending, tx.sender), tx) && Below(ListOf(b.pending, tx.sender), tx.nonce) == map[]
    requires n in AtLeast(ListOf(b.pending, tx.sender), tx.nonce + 1)
    ensures !Tidy(CutPending(b, tx), b)
  {
    var a, c := tx.sender, CutPending(b, tx);
    var p, q := ListOf(b.pending, a), ListOf(b.queue, a);
    assert AcctAt(b, false, a);
    var t := p[n];
    assert n in p && t.sender == a && t.nonce == n && t in b.all && t != tx;
    assert ListOf(c.pending, a) == map[] && ListOf(c.queue, a) == q + map[];
    assert t in c.all && !Listed(c, t) && Listed(b, t);
  }

  /** Removing an unlisted transaction takes off the pending one that has its nonce. */
  lemma StrangerCuts(b: Book, tx: Tx)
    requires Inv(b) && tx.nonce in ListOf(b.pending, tx.sender) && ListOf(b.pending, tx.sender)[tx.nonce] != tx
    ensures !Tidy(CutPending(b, tx), b)
  {
    var a, n, c := tx.sender, tx.nonce, CutPending(b, tx);
    var p, q := ListOf(b.pending, a), ListOf(b.queue, a);
    assert AcctAt(b, false, a);
    var t := p[n];
    assert t.sender == a && t.nonce == n && t in b.all && n !in q;
    assert ListOf(c.pending, a) == Below(p, n) && ListOf(c.queue, a) == q + SentBack(p, n);
    assert t in c.all && !Listed(c, t) && Listed(b, t);
  }

  /** The same for a queued one. */
  lemma StrangerDrops(b: Book, tx: Tx)
    requires Inv(b) && tx.nonce !in ListOf(b.pending, tx.sender)
    requires tx.nonce in ListOf(b.queue, tx.sender) && ListOf(b.queue, tx.sender)[tx.nonce] != tx
    ensures !Tidy(DropQueued(b, tx), b)
  {
    var a, n, c := tx.sender, tx.nonce, DropQueued(b, tx);
    var p, q := ListOf(b.pending, a), ListOf(b.queue, a);
    assert AcctAt(b, false, a);
    var t := q[n];
    assert t.sender == a && t.nonce == n && t in b.all;
    assert ListOf(c.pending, a) == p && ListOf(c.queue, a) == q - {n};
    assert t in c.all && !Listed(c, t) && Listed(b, t);
  }

  /** A known transaction can be removed without leaving an orphan: no other one is listed under its nonce, and
      if it is pending, it is not the first of several. */
  ghost predicate Removable(p: TxMap, q: TxMap, tx: Tx) {
    if tx.nonce in p then p[tx.nonce] == tx && (Below(p, tx.nonce) != map[] || AtLeast(p, tx.nonce + 1) == map[])
    else tx.nonce in q ==> q[tx.nonce] == tx
  }

  /** The exact condition for a removal to leave no orphan. */
  lemma RemoveTidy(b: Book, tx: Tx)
    requires Inv(b)
    ensures Tidy(RemoveTx(b, tx), b) <==> tx in b.all ==> Removable(ListOf(b.pending, tx.sender), ListOf(b.queue, tx.sender), tx)
  {
    hide Tidy, Inv, AcctTidy;
    var a, n := tx.sender, tx.nonce;
    var p, q := ListOf(b.pending, a), ListOf(b.queue, a);
    if tx !in b.all {
      TidySelf(b);
    } else if n in p {
      if p[n] != tx {
        StrangerCuts(b, tx);
      } else {
        RemovePending(b, tx);
      }
    } else if n in q && q[n] != tx {
      StrangerDrops(b, tx);
    } else {
      DropTidy(p, q, b.all, tx);
      SetAcctTidy(b, a, p, q - {n}, b.PendingNonce(a), b.all - {tx});
    }
  }

  lemma DropTidy(p: TxMap, q: TxMap, all: set<Tx>, tx: Tx)
    requires tx.nonce in q ==> q[tx.nonce] == tx
    ensures AcctTidy(p, q - {tx.nonce}, all - {tx}, p, q, all, tx.sender)
  {
  }

  lemma RemovePending(b: Book, tx: Tx)
    requires Inv(b) && In(ListOf(b.pending, tx.sender), tx)
    ensures var p := ListOf(b.pending, tx.sender);
            Tidy(CutPending(b, tx), b) <==> Below(p, tx.nonce) != map[] || AtLeast(p, tx.nonce + 1) == map[]
  {
    var a, n := tx.sender, tx.nonce;
    var p, q := ListOf(b.pending, a), ListOf(b.queue, a);
    assert AcctAt(b, false, a);
    if Below(p, n) != map[] || AtLeast(p, n + 1) == map[] {
      CutTidy(p, q, NonceOf(b.snapshot, a), b.PendingNonce(a), a, b.all, tx);
      SetAcctTidy(b, a, Below(p, n), q + SentBack(p, n), if b.PendingNonce(a) > n then n else b.PendingNonce(a), b.all - {tx});
    } else {
      var m :| m in AtLeast(p, n + 1);
      CutLeavesOrphan(b, tx, m);
    }
  }

  /** With an orphan of nonce 1 known, removing it takes the pending transaction of that nonce off its list. */
  lemma OrphanMakesOrphan()
    ensures var zero, one, stranger := Tx(0, 0, 1, 1, 1, 0), Tx(0, 1, 1, 1, 1, 0), Tx(0, 1, 1, 1, 1, 9);
            var b := Book(map[0 := map[0 := zero, 1 := one]], map[], map[0 := 2], map[], {zero, one, stranger});
            var c := RemoveTx(b, stranger);
            Inv(b) && !Listed(b, stranger) && one in c.all && !Listed(c, one) && !Tidy(c, b)
  {
    var zero, one, stranger := Tx(0, 0, 1, 1, 1, 0), Tx(0, 1, 1, 1, 1, 0), Tx(0, 1, 1, 1, 1, 9);
    var p := map[0 := zero, 1 := one];
    var b := Book(map[0 := p], map[], map[0 := 2], map[], {zero, one, stranger});
    forall a
      ensures AcctAt(b, false, a)
    {
    }
    assert ListOf(b.pending, 0) == p && ListOf(b.queue, 0) == map[];
    RemoveTidy(b, stranger);
    var c := CutPending(b, stranger);
    assert ListOf(c.pending, 0) == Below(p, 1) && ListOf(c.queue, 0) == map[] + SentBack(p, 1);
  }

  /** With two transactions of one sender pending, removing the first orphans the second. */
  lemma SecondOrphaned()
    ensures var first, second := Tx(0, 0, 1, 1, 1, 0), Tx(0, 1, 1, 1, 1, 0);
            var b := Book(map[0 := map[0 := first, 1 := second]], map[], map[0 := 2], map[], {first, second});
            var c := RemoveTx(b, first);
            Inv(b) && second in c.all && !Listed(c, second) && !Tidy(c, b)
  {
    var first, second := Tx(0, 0, 1, 1, 1, 0), Tx(0, 1, 1, 1, 1, 0);
    var p := map[0 := first, 1 := second];
    var b := Book(map[0 := p], map[], map[0 := 2], map[], {first, second});
    forall a
      ensures AcctAt(b, false, a)
    {
    }
    assert Below(p, 0) == map[] && 1 in AtLeast(p, 1) && ListOf(b.pending, 0) == p;
    RemoveTidy(b, first);
    var c := CutPending(b, first);
    assert ListOf(c.pending, 0) == map[] && ListOf(c.queue, 0) == map[] + map[];
  }
}
