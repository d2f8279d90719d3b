/** Resetting the pool to a new chain state, account by account. */
module Resets {
  import opened Options
  import opened Transactions
  import opened SortedMaps
  import opened TxLists
  import opened Books

  /** Half-way through a reset from `was` to `cur`: an account still to be demoted is in order with respect
      to the old chain state; any other account's pending list starts at its new chain nonce. */
  ghost predicate ResetAt(b: Book, was: Book, cur: ChainState, waiting: bool, a: Address) {
    if waiting
    then AcctOk(ListOf(b.pending, a), ListOf(b.queue, a), NonceOf(was.snapshot, a), was.PendingNonce(a), false, a, b.all)
    else AcctOk(ListOf(b.pending, a), ListOf(b.queue, a), cur.Nonce(a), cur.Nonce(a) + |ListOf(b.pending, a)|, true, a, b.all)
  }

  ghost predicate Resetting(b: Book, was: Book, cur: ChainState, todo: set<Address>) {
    && NoEmpty(b.pending) && NoEmpty(b.queue)
    && (forall a :: a in todo ==> ResetAt(b, was, cur, true, a))
    && (forall a :: a !in todo ==> ResetAt(b, was, cur, false, a))
  }

  function Kept(p: TxMap, a: Address, cur: ChainState): TxMap {
    FilterKeeps(AtLeast(p, cur.Nonce(a)), true, cur.Balance(a), cur.gasLimit)
  }

  function Back(p: TxMap, a: Address, cur: ChainState): TxMap {
    FilterInvalidates(AtLeast(p, cur.Nonce(a)), true, cur.Balance(a), cur.gasLimit)
  }

  lemma DemoteShape(b: Book, a: Address, cur: ChainState)
    ensures var p, q := ListOf(b.pending, a), ListOf(b.queue, a);
            DemoteAccount(b, a, cur) == b.(pending := File(b.pending, a, Kept(p, a, cur)), queue := File(b.queue, a, q + Back(p, a, cur)),
                                           all := b.all - Txs(p - (Kept(p, a, cur).Keys + Back(p, a, cur).Keys)))
  {
  }

  lemma DemotedLists(b: Book, a: Address, cur: ChainState, p: TxMap, q: TxMap)
    requires p == ListOf(b.pending, a) && q == ListOf(b.queue, a)
    ensures var c := DemoteAccount(b, a, cur);
            && ListOf(c.pending, a) == Kept(p, a, cur) && ListOf(c.queue, a) == q + Back(p, a, cur)
            && c.all == b.all - Txs(p - (Kept(p, a, cur).Keys + Back(p, a, cur).Keys))
  {
  }

  lemma StartReset(b: Book, was: Book, cur: ChainState)
    requires Inv(was) && b.pending == was.pending && b.queue == was.queue && b.all == was.all
    ensures Resetting(b, was, cur, b.pending.Keys)
  {
    forall a
      ensures a in b.pending.Keys ==> ResetAt(b, was, cur, true, a)
      ensures a !in b.pending.Keys ==> ResetAt(b, was, cur, false, a)
    {
      assert AcctAt(was, false, a);
    }
  }

  lemma ForgetsOnlyOwn(p: TxMap, a: Address, all: set<Tx>, stay: set<nat>)
    requires Owned(p, a, all)
    ensures KeepsOthers(all, all - Txs(p - stay), a)
  {
    forall t | t in all && t.sender != a
      ensures t in all - Txs(p - stay)
    {
      TxsMember(p - stay, t);
    }
  }

  lemma UntouchedOther(b: Book, c: Book, was: Book, cur: ChainState, waiting: bool, a: Address, x: Address)
    requires ResetAt(b, was, cur, waiting, x) && x != a && KeepsOthers(b.all, c.all, a)
    requires ListOf(c.pending, x) == ListOf(b.pending, x) && ListOf(c.queue, x) == ListOf(b.queue, x)
    ensures ResetAt(c, was, cur, waiting, x)
  {
    hide AcctOk, ListOf, NonceOf, KeepsOthers;
    var p, q := ListOf(b.pending, x), ListOf(b.queue, x);
    if waiting {
      OthersKeepOrder(p, q, NonceOf(was.snapshot, x), was.PendingNonce(x), false, x, b.all, c.all, a);
    } else {
      OthersKeepOrder(p, q, cur.Nonce(x), cur.Nonce(x) + |p|, true, x, b.all, c.all, a);
    }
  }

  lemma DemoteOther(b: Book, was: Book, cur: ChainState, waiting: bool, a: Address, x: Address)
    requires ResetAt(b, was, cur, true, a) && ResetAt(b, was, cur, waiting, x) && x != a
    ensures ResetAt(DemoteAccount(b, a, cur), was, cur, waiting, x)
  {
    hide *;
    var p, c := ListOf(b.pending, a), DemoteAccount(b, a, cur);
    DemoteShape(b, a, cur);
    OwnedOf(b, was, cur, a);
    ForgetsOnlyOwn(p, a, b.all, Kept(p, a, cur).Keys + Back(p, a, cur).Keys);
    UntouchedOther(b, c, was, cur, waiting, a, x);
  }

  lemma OwnedOf(b: Book, was: Book, cur: ChainState, a: Address)
    requires ResetAt(b, was, cur, true, a)
    ensures Owned(ListOf(b.pending, a), a, b.all)
  {
  }

  lemma ResetDone(c: Book, was: Book, cur: ChainState, a: Address, p: TxMap, q: TxMap)
    requires ListOf(c.pending, a) == p && ListOf(c.queue, a) == q
    requires AcctOk(p, q, cur.Nonce(a), cur.Nonce(a) + |p|, true, a, c.all)
    ensures ResetAt(c, was, cur, false, a)
  {
  }

  lemma DemoteList(b: Book, was: Book, cur: ChainState, a: Address, p: TxMap, q: TxMap)
    requires ResetAt(b, was, cur, true, a) && NonceOf(was.snapshot, a) <= cur.Nonce(a)
    requires p == ListOf(b.pending, a) && q == ListOf(b.queue, a)
    ensures AcctOk(Kept(p, a, cur), q + Back(p, a, cur), cur.Nonce(a), cur.Nonce(a) + |Kept(p, a, cur)|, true, a,
                   b.all - Txs(p - (Kept(p, a, cur).Keys + Back(p, a, cur).Keys)))
  {
    hide AcctOk, FilterKeeps, FilterInvalidates, AtLeast;
    DemoteAcctOk(p, q, NonceOf(was.snapshot, a), was.PendingNonce(a), a, b.all, cur.Nonce(a), cur.Balance(a), cur.gasLimit);
  }

  lemma DemoteSelf(b: Book, was: Book, cur: ChainState, a: Address)
    requires ResetAt(b, was, cur, true, a) && NonceOf(was.snapshot, a) <= cur.Nonce(a)
    ensures ResetAt(DemoteAccount(b, a, cur), was, cur, false, a)
  {
    hide *;
    var p, q := ListOf(b.pending, a), ListOf(b.queue, a);
    DemotedLists(b, a, cur, p, q);
    DemoteList(b, was, cur, a, p, q);
    ResetDone(DemoteAccount(b, a, cur), was, cur, a, Kept(p, a, cur), q + Back(p, a, cur));
  }

  /** Demoting one account moves it over. */
  lemma DemoteStep(b: Book, was: Book, cur: ChainState, todo: set<Address>, a: Address)
    requires Resetting(b, was, cur, todo) && a in todo && NonceOf(was.snapshot, a) <= cur.Nonce(a)
    ensures Resetting(DemoteAccount(b, a, cur), was, cur, todo - {a})
  {
    var c := DemoteAccount(b, a, cur);
    DemoteNoEmpty(b, a, cur);
    hide ResetAt, DemoteAccount;
    forall x | x in todo - {a}
      ensures ResetAt(c, was, cur, true, x)
    {
      DemoteOther(b, was, cur, true, a, x);
    }
    forall x | x !in todo - {a}
      ensures ResetAt(c, was, cur, false, x)
    {
      if x == a {
        DemoteSelf(b, was, cur, a);
      } else {
        DemoteOther(b, was, cur, false, a, x);
      }
    }
  }

  lemma DemoteNoEmpty(b: Book, a: Address, cur: ChainState)
    requires NoEmpty(b.pending) && NoEmpty(b.queue)
    ensures NoEmpty(DemoteAccount(b, a, cur).pending) && NoEmpty(DemoteAccount(b, a, cur).queue)
  {
    var p, q := ListOf(b.pending, a), ListOf(b.queue, a);
    DemoteShape(b, a, cur);
    FileNoEmpty(b.pending, a, Kept(p, a, cur));
    FileNoEmpty(b.queue, a, q + Back(p, a, cur));
  }

  lemma DemoteShrinks(b: Book, a: Address, cur: ChainState)
    ensures DemoteAccount(b, a, cur).all <= b.all
    ensures forall x :: x in b.pending && x != a ==> x in DemoteAccount(b, a, cur).pending
  {
    hide Kept, Back, Txs;
    DemoteShape(b, a, cur);
  }

  lemma NoneEmpty(m: Lists)
    requires NoEmpty(m)
    ensures NoEmptyList(m)
  {
    forall a {:trigger m[a]} | a in m
      ensures m[a].Keys != {}
    {
      assert m[a] != map[];
    }
  }

  /** The pending nonces a reset installs. */
  function NextNonces(pending: Lists): map<Address, nat>
    requires NoEmptyList(pending)
  {
    map a | a in pending :: Greatest(pending[a].Keys) + 1
  }

  ghost predicate NoEmptyList(m: Lists) {
    forall a {:trigger m[a]} :: a in m ==> m[a].Keys != {}
  }

  lemma EndOfInterval(p: TxMap, lo: nat)
    requires Interval(p, lo, lo + |p|) && p.Keys != {}
    ensures Greatest(p.Keys) + 1 == lo + |p|
  {
    assert |p| == |p.Keys|;
    assert lo + |p| - 1 in p.Keys;
  }

  /** Whether a demoted pending list starts at the chain nonce. */
  ghost predicate StartsAt(p: TxMap, s: nat) {
    Interval(p, s, s + |p|)
  }

  /** A reset leaves an account's pending list starting at the chain nonce exactly when that nonce has not
      fallen behind the list, or nothing of the list survives because its first transaction is unpayable. */
  lemma DemoteExact(p: TxMap, lo: nat, pn: nat, a: Address, cur: ChainState)
    requires Interval(p, lo, pn)
    ensures StartsAt(Kept(p, a, cur), cur.Nonce(a)) <==>
              lo <= cur.Nonce(a) || lo == pn || Unpayable(p[lo], cur.Balance(a), cur.gasLimit)
  {
    var s := cur.Nonce(a);
    if lo <= s {
      AtLeastInterval(p, lo, pn, s);
      FilterFacts(AtLeast(p, s), s, if s <= pn then pn else s, cur.Balance(a), cur.gasLimit);
    } else {
      assert AtLeast(p, s) == p;
      FilterFacts(p, lo, pn, cur.Balance(a), cur.gasLimit);
      var kept := Kept(p, a, cur);
      if lo < pn {
        FirstKept(p, lo, pn, cur.Balance(a), cur.gasLimit);
        if lo in kept {
          assert |kept.Keys| == |kept|;
          assert s !in kept && kept.Keys != {};
          assert !StartsAt(kept, s);
        } else {
          assert kept.Keys == {};
          assert StartsAt(kept, s);
        }
      }
    }
  }

  /** A pending nonce of 5 stays in place although the chain has fallen back to nonce 3. */
  lemma FellBehind()
    ensures var tx, cur := Tx(0, 5, 1, 1, 1, 0), ChainState(map[0 := 3], map[0 := 100], 100);
            Interval(map[5 := tx], 5, 6) && !StartsAt(Kept(map[5 := tx], 0, cur), cur.Nonce(0))
  {
    var tx, cur := Tx(0, 5, 1, 1, 1, 0), ChainState(map[0 := 3], map[0 := 100], 100);
    DemoteExact(map[5 := tx], 5, 6, 0, cur);
  }

  lemma FirstKept(p: TxMap, lo: nat, pn: nat, balance: nat, gasLimit: nat)
    requires Interval(p, lo, pn) && lo < pn
    ensures lo in FilterKeeps(p, true, balance, gasLimit) <==> !Unpayable(p[lo], balance, gasLimit)
  {
    assert lo in p;
    var costly := Costly(p, balance, gasLimit);
    if lo in costly {
      assert Least(costly.Keys) == lo;
    }
  }

  /** What a demotion forgets, step by step: the mined, then the unpayable transactions. */
  lemma DemoteForgets(p: TxMap, a: Address, cur: ChainState, all: set<Tx>)
    requires Owned(p, a, all)
    ensures var left := AtLeast(p, cur.Nonce(a));
            all - Txs(Below(p, cur.Nonce(a))) - Txs(Costly(left, cur.Balance(a), cur.gasLimit)) + Txs(Back(p, a, cur))
            == all - Txs(p - (Kept(p, a, cur).Keys + Back(p, a, cur).Keys))
  {
    var left := AtLeast(p, cur.Nonce(a));
    var kept, costly, back := Kept(p, a, cur), Costly(left, cur.Balance(a), cur.gasLimit), Back(p, a, cur);
    FilterPartitions(left, true, cur.Balance(a), cur.gasLimit);
    forall t
      ensures t in Txs(p - (kept.Keys + back.Keys)) <==> t in Txs(Below(p, cur.Nonce(a))) || t in Txs(costly)
      ensures t in Txs(back) ==> t in all && t !in Txs(p - (kept.Keys + back.Keys))
    {
      TxsMember(p - (kept.Keys + back.Keys), t);
      TxsMember(Below(p, cur.Nonce(a)), t);
      TxsMember(costly, t);
      TxsMember(back, t);
      PartsOf(p, a, cur, t.nonce);
    }
  }

  lemma PartsOf(p: TxMap, a: Address, cur: ChainState, n: nat)
    ensures var left := AtLeast(p, cur.Nonce(a));
            var kept, costly, back := Kept(p, a, cur), Costly(left, cur.Balance(a), cur.gasLimit), Back(p, a, cur);
            && (n in p && n !in kept && n !in back <==> n in Below(p, cur.Nonce(a)) || n in costly)
            && (n in back ==> n in p && back[n] == p[n])
            && (n in costly ==> n in p && costly[n] == p[n])
  {
    var left := AtLeast(p, cur.Nonce(a));
    FilterPartitions(left, true, cur.Balance(a), cur.gasLimit);
    var kept, costly, back := Kept(p, a, cur), Costly(left, cur.Balance(a), cur.gasLimit), Back(p, a, cur);
    assert (kept + costly + back).Keys == kept.Keys + costly.Keys + back.Keys;
    assert n in left <==> n in kept || n in costly || n in back;
  }

  /** After the demotions and with the pending nonces set, only the queues may be stale. */
  lemma ResetOrder(b: Book, was: Book, cur: ChainState, c: Book, todo: set<Address>, a: Address)
    requires Resetting(b, was, cur, todo) && todo == {} && NoEmptyList(b.pending)
    requires c == b.(managed := NextNonces(b.pending), snapshot := cur.nonces)
    ensures AcctAt(c, a in c.queue.Keys, a)
  {
    assert ResetAt(b, was, cur, false, a);
    NextNonceOf(b, was, c, cur, a);
    hide AcctOk, NextNonces, NoEmptyList, Resetting;
    var p, q := ListOf(b.pending, a), ListOf(b.queue, a);
    FreshIfEmpty(p, q, cur.Nonce(a), cur.Nonce(a) + |p|, a, b.all, a in c.queue.Keys);
  }

  lemma NextNonceOf(b: Book, was: Book, c: Book, cur: ChainState, a: Address)
    requires ResetAt(b, was, cur, false, a) && NoEmptyList(b.pending)
    requires c == b.(managed := NextNonces(b.pending), snapshot := cur.nonces)
    ensures c.PendingNonce(a) == cur.Nonce(a) + |ListOf(b.pending, a)|
  {
    if a in b.pending {
      EndOfInterval(b.pending[a], cur.Nonce(a));
    }
  }

  lemma FreshIfEmpty(p: TxMap, q: TxMap, lo: nat, pn: nat, a: Address, all: set<Tx>, stale: bool)
    requires AcctOk(p, q, lo, pn, true, a, all) && (!stale ==> q == map[])
    ensures AcctOk(p, q, lo, pn, stale, a, all)
  {
  }

  /** The two books agree on account `a`. */
  ghost predicate AcctSame(b: Book, c: Book, a: Address) {
    && ListOf(b.pending, a) == ListOf(c.pending, a) && ListOf(b.queue, a) == ListOf(c.queue, a)
    && b.PendingNonce(a) == c.PendingNonce(a)
  }

  function CapOf(locals: set<Address>, cap: nat, a: Address): Option<nat> {
    if a in locals then None else Some(cap)
  }

  /** Promotion has been run on the accounts of `done`, each on its own, and on no other. */
  ghost predicate PromotedFrom(b: Book, was: Book, done: set<Address>, cur: ChainState, locals: set<Address>, cap: nat) {
    && (forall a :: a in done ==> AcctSame(b, PromoteAccount(was, a, cur, CapOf(locals, cap, a)), a))
    && (forall a :: a !in done ==> AcctSame(b, was, a))
  }

  lemma PromoteLocal(b: Book, was: Book, a: Address, cur: ChainState, cap: Option<nat>)
    requires AcctSame(b, was, a)
    ensures AcctSame(PromoteAccount(b, a, cur, cap), PromoteAccount(was, a, cur, cap), a)
  {
    hide Promote, File;
  }

  lemma PromoteOthers(b: Book, a: Address, cur: ChainState, cap: Option<nat>, x: Address)
    requires x != a
    ensures AcctSame(PromoteAccount(b, a, cur, cap), b, x)
  {
    hide Promote, File;
  }

  lemma SameTrans(b: Book, c: Book, d: Book, a: Address)
    requires AcctSame(b, c, a) && AcctSame(c, d, a)
    ensures AcctSame(b, d, a)
  {
  }

  lemma PromotedOneMore(b: Book, was: Book, done: set<Address>, cur: ChainState, locals: set<Address>, cap: nat, a: Address)
    requires PromotedFrom(b, was, done, cur, locals, cap) && a !in done
    ensures PromotedFrom(PromoteAccount(b, a, cur, CapOf(locals, cap, a)), was, done + {a}, cur, locals, cap)
  {
    hide AcctSame, PromoteAccount, CapOf;
    var c := PromoteAccount(b, a, cur, CapOf(locals, cap, a));
    PromoteLocal(b, was, a, cur, CapOf(locals, cap, a));
    forall x | x != a
      ensures x in done ==> AcctSame(c, PromoteAccount(was, x, cur, CapOf(locals, cap, x)), x)
      ensures x !in done ==> AcctSame(c, was, x)
    {
      PromoteOthers(b, a, cur, CapOf(locals, cap, a), x);
      if x in done {
        SameTrans(c, b, PromoteAccount(was, x, cur, CapOf(locals, cap, x)), x);
      } else {
        SameTrans(c, b, was, x);
      }
    }
  }

  lemma PromoteNothing(b: Book, a: Address, cur: ChainState, cap: Option<nat>)
    requires ListOf(b.queue, a) == map[]
    ensures AcctSame(PromoteAccount(b, a, cur, cap), b, a)
  {
    var r := Promote(map[], b.PendingNonce(a), cur.Nonce(a), cur.Balance(a), cur.gasLimit, cap);
    assert AtLeast(map[], cur.Nonce(a)) == map[];
    assert r.ready == map[] && r.kept == map[];
    assert ListOf(b.pending, a) + map[] == ListOf(b.pending, a);
  }

  lemma PromotedSkip(b: Book, was: Book, done: set<Address>, cur: ChainState, locals: set<Address>, cap: nat, a: Address)
    requires PromotedFrom(b, was, done, cur, locals, cap) && a !in done && ListOf(b.queue, a) == map[]
    ensures PromotedFrom(b, was, done + {a}, cur, locals, cap)
  {
    hide PromoteAccount, CapOf;
    PromoteNothing(was, a, cur, CapOf(locals, cap, a));
  }

  /** Demotion has been run on the accounts of `done`, each on its own, and on no other. */
  ghost predicate DemotedFrom(b: Book, was: Book, done: set<Address>, cur: ChainState) {
    && (forall a :: a in done ==> AcctSame(b, DemoteAccount(was, a, cur), a))
    && (forall a :: a !in done ==> AcctSame(b, was, a))
  }

  lemma DemoteLocal(b: Book, was: Book, a: Address, cur: ChainState)
    requires AcctSame(b, was, a)
    ensures AcctSame(DemoteAccount(b, a, cur), DemoteAccount(was, a, cur), a)
  {
    hide FilterKeeps, FilterInvalidates, File, AtLeast;
  }

  lemma DemoteOthers(b: Book, a: Address, cur: ChainState, x: Address)
    requires x != a
    ensures AcctSame(DemoteAccount(b, a, cur), b, x)
  {
    hide FilterKeeps, FilterInvalidates, File, AtLeast;
  }

  lemma DemotedOneMore(b: Book, was: Book, done: set<Address>, cur: ChainState, a: Address)
    requires DemotedFrom(b, was, done, cur) && a !in done
    ensures DemotedFrom(DemoteAccount(b, a, cur), was, done + {a}, cur)
  {
    hide AcctSame, DemoteAccount;
    var c := DemoteAccount(b, a, cur);
    DemoteLocal(b, was, a, cur);
    forall x | x != a
      ensures x in done ==> AcctSame(c, DemoteAccount(was, x, cur), x)
      ensures x !in done ==> AcctSame(c, was, x)
    {
      DemoteOthers(b, a, cur, x);
      if x in done {
        SameTrans(c, b, DemoteAccount(was, x, cur), x);
      } else {
        SameTrans(c, b, was, x);
      }
    }
  }

  lemma DemoteNothing(b: Book, a: Address, cur: ChainState)
    requires ListOf(b.pending, a) == map[]
    ensures AcctSame(DemoteAccount(b, a, cur), b, a)
  {
    assert AtLeast(map[], cur.Nonce(a)) == map[];
    assert Costly(map[], cur.Balance(a), cur.gasLimit) == map[];
    assert ListOf(b.queue, a) + map[] == ListOf(b.queue, a);
  }

  /** What a reset does to one account: demote, set the pending nonce, promote. */
  function Renonced(d: Book, a: Address, cur: ChainState): Book {
    var p := ListOf(d.pending, a);
    SetAcct(d, a, p, ListOf(d.queue, a), if p.Keys == {} then cur.Nonce(a) else Greatest(p.Keys) + 1, d.all)
  }

  function ResetAccount(b: Book, a: Address, cur: ChainState, cap: Option<nat>): Book {
    PromoteAccount(Renonced(DemoteAccount(b, a, cur), a, cur), a, cur, cap)
  }

  ghost predicate ResetFrom(b: Book, was: Book, cur: ChainState, locals: set<Address>, cap: nat) {
    forall a :: AcctSame(b, ResetAccount(was, a, cur, CapOf(locals, cap, a)), a)
  }

  lemma RenoncedSame(b: Book, c: Book, start: Book, cur: ChainState, a: Address)
    requires AcctSame(b, DemoteAccount(start, a, cur), a) && NoEmptyList(b.pending)
    requires c == b.(managed := NextNonces(b.pending)) && b.snapshot == cur.nonces
    ensures AcctSame(c, Renonced(DemoteAccount(start, a, cur), a, cur), a)
  {
    hide DemoteAccount;
  }

  /** The three passes over all accounts amount to resetting each account on its own. */
  lemma ResetEach(b: Book, c: Book, promoted: Book, start: Book, cur: ChainState, locals: set<Address>, cap: nat)
    requires DemotedFrom(b, start, start.pending.Keys, cur) && NoEmptyList(b.pending)
    requires c == b.(managed := NextNonces(b.pending)) && b.snapshot == cur.nonces
    requires PromotedFrom(promoted, c, c.queue.Keys, cur, locals, cap)
    ensures ResetFrom(promoted, start, cur, locals, cap)
  {
    hide AcctSame, DemoteAccount, PromoteAccount, Renonced, CapOf;
    forall a
      ensures AcctSame(promoted, ResetAccount(start, a, cur, CapOf(locals, cap, a)), a)
    {
      if a !in start.pending.Keys {
        DemoteNothing(start, a, cur);
        SameSym(DemoteAccount(start, a, cur), start, a);
        SameTrans(b, start, DemoteAccount(start, a, cur), a);
      }
      RenoncedSame(b, c, start, cur, a);
      var d := Renonced(DemoteAccount(start, a, cur), a, cur);
      PromoteLocal(c, d, a, cur, CapOf(locals, cap, a));
      if a !in c.queue.Keys {
        PromoteNothing(c, a, cur, CapOf(locals, cap, a));
        SameSym(PromoteAccount(c, a, cur, CapOf(locals, cap, a)), c, a);
        SameTrans(promoted, c, PromoteAccount(c, a, cur, CapOf(locals, cap, a)), a);
      }
      SameTrans(promoted, PromoteAccount(c, a, cur, CapOf(locals, cap, a)), PromoteAccount(d, a, cur, CapOf(locals, cap, a)), a);
    }
  }

  lemma StartDemotion(b: Book, done: set<Address>, cur: ChainState)
    requires done == {}
    ensures DemotedFrom(b, b, done, cur)
  {
  }

  /** Only the lists matter to a reset, not the old nonces. */
  lemma SameReset(b: Book, start: Book, was: Book, cur: ChainState, locals: set<Address>, cap: nat)
    requires start.pending == was.pending && start.queue == was.queue && start.all == was.all
    requires ResetFrom(b, start, cur, locals, cap)
    ensures ResetFrom(b, was, cur, locals, cap)
  {
    forall a
      ensures AcctSame(b, ResetAccount(was, a, cur, CapOf(locals, cap, a)), a)
    {
      hide CapOf;
      assert AcctSame(b, ResetAccount(start, a, cur, CapOf(locals, cap, a)), a);
      RenoncedAgree(start, was, cur, a);
      hide *;
      var d, e := Renonced(DemoteAccount(start, a, cur), a, cur), Renonced(DemoteAccount(was, a, cur), a, cur);
      PromoteLocal(d, e, a, cur, CapOf(locals, cap, a));
      IsReset(start, a, cur, CapOf(locals, cap, a));
      IsReset(was, a, cur, CapOf(locals, cap, a));
      SameTrans(b, PromoteAccount(d, a, cur, CapOf(locals, cap, a)), PromoteAccount(e, a, cur, CapOf(locals, cap, a)), a);
    }
  }

  lemma IsReset(b: Book, a: Address, cur: ChainState, cap: Option<nat>)
    ensures ResetAccount(b, a, cur, cap) == PromoteAccount(Renonced(DemoteAccount(b, a, cur), a, cur), a, cur, cap)
  {
  }

  lemma RenoncedAgree(start: Book, was: Book, cur: ChainState, a: Address)
    requires start.pending == was.pending && start.queue == was.queue && start.all == was.all
    ensures AcctSame(Renonced(DemoteAccount(start, a, cur), a, cur), Renonced(DemoteAccount(was, a, cur), a, cur), a)
  {
    hide FilterKeeps, FilterInvalidates, File, AtLeast, Greatest;
  }

  lemma SameSym(b: Book, c: Book, a: Address)
    requires AcctSame(b, c, a)
    ensures AcctSame(c, b, a)
  {
  }

  ghost predicate AllPayable(m: TxMap, balance: nat, gasLimit: nat) {
    forall n :: n in m ==> !Unpayable(m[n], balance, gasLimit)
  }

  lemma KeptPayable(left: TxMap, balance: nat, gasLimit: nat)
    ensures AllPayable(FilterKeeps(left, true, balance, gasLimit), balance, gasLimit)
  {
    var costly := Costly(left, balance, gasLimit);
    forall n | n in FilterKeeps(left, true, balance, gasLimit)
      ensures !Unpayable(FilterKeeps(left, true, balance, gasLimit)[n], balance, gasLimit)
    {
      assert n !in costly.Keys;
    }
  }

  lemma PromotedPayable(q: TxMap, pn: nat, nonce: nat, balance: nat, gasLimit: nat, cap: Option<nat>)
    ensures var r := Promote(q, pn, nonce, balance, gasLimit, cap);
            AllPayable(r.ready, balance, gasLimit) && AllPayable(r.kept, balance, gasLimit)
  {
    hide ReadyEnd;
  }

  /** Nothing executable stays queued. */
  lemma PromotedAll(q: TxMap, pn: nat, nonce: nat, balance: nat, gasLimit: nat, cap: Option<nat>)
    requires forall n :: n in q && n >= nonce ==> n >= pn
    ensures var r := Promote(q, pn, nonce, balance, gasLimit, cap);
            r.pn !in r.kept
  {
    var payable := Affordable(AtLeast(q, nonce), balance, gasLimit);
    var e := ReadyEnd(payable, pn);
    if payable.Keys != {} && Least(payable.Keys) <= pn {
      assert Least(payable.Keys) == pn;
      assert pn in Below(payable, e);
    } else {
      assert Below(payable, e) == map[];
    }
  }

  /** An account that is settled with respect to a chain state: its pending nonces run without a gap from
      the chain nonce, the next nonce is not queued, and every transaction can be paid for. */
  ghost predicate Settled(p: TxMap, q: TxMap, pn: nat, nonce: nat, balance: nat, gasLimit: nat) {
    Interval(p, nonce, pn) && pn !in q && AllPayable(p, balance, gasLimit) && AllPayable(q, balance, gasLimit)
  }

  lemma PromotionSettles(p: TxMap, q: TxMap, e: nat, s: nat, balance: nat, gasLimit: nat, cap: Option<nat>)
    requires Interval(p, s, e) && (forall n :: n in q && n >= s ==> n >= e) && AllPayable(p, balance, gasLimit)
    ensures var r := Promote(q, e, s, balance, gasLimit, cap);
            Settled(p + r.ready, r.kept, r.pn, s, balance, gasLimit)
  {
    PromoteRun(q, e, s, balance, gasLimit, cap);
    PromotedPayable(q, e, s, balance, gasLimit, cap);
    PromotedAll(q, e, s, balance, gasLimit, cap);
    hide Promote, Unpayable;
  }

  lemma RenoncedLists(d: Book, a: Address, cur: ChainState, p: TxMap, q: TxMap)
    requires ListOf(d.pending, a) == p && ListOf(d.queue, a) == q && Interval(p, cur.Nonce(a), cur.Nonce(a) + |p|)
    ensures var r := Renonced(d, a, cur);
            ListOf(r.pending, a) == p && ListOf(r.queue, a) == q && r.PendingNonce(a) == cur.Nonce(a) + |p|
  {
    if p.Keys != {} {
      EndOfInterval(p, cur.Nonce(a));
    } else {
      assert |p.Keys| == |p|;
    }
    hide Interval, File;
  }

  lemma PromotedLists(b: Book, a: Address, cur: ChainState, cap: Option<nat>, p: TxMap, q: TxMap, pn: nat, r: Promotion)
    requires ListOf(b.pending, a) == p && ListOf(b.queue, a) == q && b.PendingNonce(a) == pn
    requires r == Promote(q, pn, cur.Nonce(a), cur.Balance(a), cur.gasLimit, cap)
    ensures var c := PromoteAccount(b, a, cur, cap);
            ListOf(c.pending, a) == p + r.ready && ListOf(c.queue, a) == r.kept && c.PendingNonce(a) == r.pn
  {
    hide Promote, File;
  }

  lemma DemotionFacts(p: TxMap, q: TxMap, lo: nat, pn: nat, a: Address, all: set<Tx>, cur: ChainState)
    requires AcctOk(p, q, lo, pn, false, a, all) && lo <= cur.Nonce(a)
    ensures var s, kept, que := cur.Nonce(a), Kept(p, a, cur), q + Back(p, a, cur);
            && Interval(kept, s, s + |kept|) && (forall n :: n in que && n >= s ==> n >= s + |kept|)
            && AllPayable(kept, cur.Balance(a), cur.gasLimit)
  {
    DemoteAcctOk(p, q, lo, pn, a, all, cur.Nonce(a), cur.Balance(a), cur.gasLimit);
    KeptPayable(AtLeast(p, cur.Nonce(a)), cur.Balance(a), cur.gasLimit);
    hide FilterKeeps, FilterInvalidates, AtLeast, Unpayable, Owned;
  }

  lemma DemotionOf(was: Book, a: Address, cur: ChainState, p: TxMap, q: TxMap)
    requires AcctAt(was, false, a) && NonceOf(was.snapshot, a) <= cur.Nonce(a)
    requires p == ListOf(was.pending, a) && q == ListOf(was.queue, a)
    ensures var s, kept, que := cur.Nonce(a), Kept(p, a, cur), q + Back(p, a, cur);
            && Interval(kept, s, s + |kept|) && (forall n :: n in que && n >= s ==> n >= s + |kept|)
            && AllPayable(kept, cur.Balance(a), cur.gasLimit)
  {
    hide AcctOk, Kept, Back, AllPayable, Interval;
    DemotionFacts(p, q, NonceOf(was.snapshot, a), was.PendingNonce(a), a, was.all, cur);
  }

  /** A reset settles every account whose chain nonce has not fallen behind. */
  lemma ResetSettles(was: Book, a: Address, cur: ChainState, cap: Option<nat>)
    requires AcctAt(was, false, a) && NonceOf(was.snapshot, a) <= cur.Nonce(a)
    ensures var r := ResetAccount(was, a, cur, cap);
            Settled(ListOf(r.pending, a), ListOf(r.queue, a), r.PendingNonce(a), cur.Nonce(a), cur.Balance(a), cur.gasLimit)
  {
    hide *;
    var p, q := ListOf(was.pending, a), ListOf(was.queue, a);
    DemotionOf(was, a, cur, p, q);
    var d, kept, que := DemoteAccount(was, a, cur), Kept(p, a, cur), q + Back(p, a, cur);
    DemotedLists(was, a, cur, p, q);
    RenoncedLists(d, a, cur, kept, que);
    var e := cur.Nonce(a) + |kept|;
    PromotionSettles(kept, que, e, cur.Nonce(a), cur.Balance(a), cur.gasLimit, cap);
    PromotedLists(Renonced(d, a, cur), a, cur, cap, kept, que, e, Promote(que, e, cur.Nonce(a), cur.Balance(a), cur.gasLimit, cap));
    IsReset(was, a, cur, cap);
  }
}
