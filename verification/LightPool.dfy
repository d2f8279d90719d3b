/** The light client's transaction pool: pending and mined local transactions followed across
    reorganisations. */
module LightPools {
  import opened Chain
  import opened Forks

  /** Mined transactions this many blocks deep are considered permanent. */
  const TX_PERMANENT: nat := 500

  type Mined = map<Hash, seq<TxId>>

  ghost predicate NoDup(s: seq<TxId>) {
    forall i, j :: 0 <= i < j < |s| ==> s[i] != s[j]
  }

  // ------------------------------------------------------------------ reported changes

  /** Marks a transaction as mined or rolled back; opposite marks cancel out. */
  function SetState(txc: map<TxId, bool>, t: TxId, mined: bool): map<TxId, bool> {
    if t in txc && txc[t] != mined then txc - {t} else txc[t := mined]
  }

  /** The net change from one pending set to another: true for what left it, false for what entered it. */
  function Net(before: set<TxId>, now: set<TxId>): map<TxId, bool> {
    map t | t in (before - now) + (now - before) :: t in before
  }

  /** The net change, with the transactions of `again` marked as mined on top of it. */
  function Report(before: set<TxId>, now: set<TxId>, again: set<TxId>): map<TxId, bool> {
    Net(before, now) + map t | t in again :: true
  }

  lemma MarkMined(before: set<TxId>, now: set<TxId>, again: set<TxId>, t: TxId)
    requires t in now && again !! now
    ensures SetState(Report(before, now, again), t, true) == Report(before, now - {t}, again)
  {
  }

  lemma MarkRolledBack(before: set<TxId>, now: set<TxId>, t: TxId)
    requires t !in now
    ensures SetState(Net(before, now), t, false) == Net(before, now + {t})
  {
  }

  /** Marking a transaction as mined that was not pending makes the report differ from the net change. */
  lemma MarkAgain(before: set<TxId>, now: set<TxId>, again: set<TxId>, t: TxId)
    requires t !in before && t !in now
    ensures SetState(Report(before, now, again), t, true) == Report(before, now, again + {t})
  {
  }

  lemma ReportIsNet(before: set<TxId>, now: set<TxId>, again: set<TxId>)
    requires again !! before && again !! now
    ensures Report(before, now, again) == Net(before, now) <==> again == {}
  {
    if t :| t in again {
      assert t in Report(before, now, again) && t !in Net(before, now);
    }
  }

  // ------------------------------------------------------------------ the books

  ghost function MinedTxs(mined: Mined): set<TxId> {
    set h, t | h in mined && t in mined[h] :: t
  }

  ghost function Txs(s: seq<TxId>): set<TxId> {
    set t | t in s
  }

  /** A block's entry lists transactions of the block, each once, and none is pending. */
  ghost predicate EntryOk(h: Hash, list: seq<TxId>, pending: set<TxId>) {
    h.Of? && NoDup(list) && (forall t :: t in list ==> t in h.header.txs && t !in pending)
  }

  /** Pending and mined are disjoint, and no transaction is in two entries. */
  ghost predicate Books(pending: set<TxId>, mined: Mined) {
    && (forall h :: h in mined ==> EntryOk(h, mined[h], pending))
    && (forall h, g, t :: h in mined && g in mined && t in mined[h] && t in mined[g] ==> h == g)
  }

  function EntryOf(mined: Mined, h: Hash): seq<TxId> {
    if h in mined then mined[h] else []
  }

  ghost function Known(pending: set<TxId>, mined: Mined): set<TxId> {
    pending + MinedTxs(mined)
  }

  /** Every entry belongs to the head or one of its ancestors. */
  ghost predicate OnChain(mined: Mined, head: Hash) {
    Linked(head) && forall h :: h in mined ==> IsAncestor(h, head)
  }

  /** The local transactions of a block, in block order. */
  function Hits(txs: seq<TxId>, pending: set<TxId>): seq<TxId> {
    if txs == [] then [] else (if txs[0] in pending then [txs[0]] else []) + Hits(txs[1..], pending)
  }

  lemma {:induction false} HitsFacts(txs: seq<TxId>, pending: set<TxId>)
    requires NoDup(txs)
    ensures NoDup(Hits(txs, pending)) && forall t :: t in Hits(txs, pending) <==> t in txs && t in pending
  {
    if txs != [] {
      var rest := txs[1..];
      assert forall i, j :: 0 <= i < j < |rest| ==> rest[i] == txs[i + 1] && rest[j] == txs[j + 1];
      HitsFacts(rest, pending);
      assert txs == [txs[0]] + rest;
      assert txs[0] !in rest;
    }
  }

  lemma HitsAreAll(txs: seq<TxId>, pending: set<TxId>)
    requires NoDup(txs)
    ensures pending - Txs(Hits(txs, pending)) == pending - Txs(txs)
    ensures pending == {} || Hits(txs, pending) == [] ==> pending - Txs(txs) == pending
  {
    HitsFacts(txs, pending);
    if Hits(txs, pending) == [] {
      assert forall t :: t in pending ==> t !in txs;
    }
  }

  lemma SendBooks(pending: set<TxId>, mined: Mined, t: TxId)
    requires Books(pending, mined)
    ensures Books(pending + {t}, mined) <==> t !in MinedTxs(mined)
  {
    if t in MinedTxs(mined) {
      var h :| h in mined && t in mined[h];
      assert !EntryOk(h, mined[h], pending + {t});
    } else {
      forall h | h in mined
        ensures EntryOk(h, mined[h], pending + {t})
      {
        assert EntryOk(h, mined[h], pending);
      }
    }
  }

  lemma RollbackBooks(pending: set<TxId>, mined: Mined, h: Hash)
    requires Books(pending, mined) && h in mined
    ensures Books(pending + Txs(mined[h]), mined - {h})
    ensures Known(pending + Txs(mined[h]), mined - {h}) == Known(pending, mined)
  {
    forall g | g in mined - {h}
      ensures EntryOk(g, mined[g], pending + Txs(mined[h]))
    {
      assert EntryOk(g, mined[g], pending);
    }
    var after := mined - {h};
    forall t
      ensures t in MinedTxs(mined) <==> t in MinedTxs(after) || t in mined[h]
    {
      if t in MinedTxs(mined) && t !in mined[h] {
        var g :| g in mined && t in mined[g];
        assert g in after && t in after[g];
      }
    }
  }

  lemma MineBooks(pending: set<TxId>, mined: Mined, h: Hash, hits: seq<TxId>)
    requires Books(pending, mined) && h.Of? && NoDup(hits)
    requires forall t :: t in hits ==> t in h.header.txs && t in pending
    ensures Books(pending - Txs(hits), mined[h := EntryOf(mined, h) + hits])
    ensures Known(pending - Txs(hits), mined[h := EntryOf(mined, h) + hits]) == Known(pending, mined)
  {
    var list := EntryOf(mined, h) + hits;
    var after := mined[h := list];
    EntryGrows(pending, mined, h, hits);
    forall g | g in after
      ensures EntryOk(g, after[g], pending - Txs(hits))
    {
      if g != h {
        assert EntryOk(g, mined[g], pending);
      }
    }
    forall g, f, t | g in after && f in after && t in after[g] && t in after[f]
      ensures g == f
    {
      if g != h {
        assert EntryOk(g, mined[g], pending);
      }
      if f != h {
        assert EntryOk(f, mined[f], pending);
      }
    }
    KnownAfterMining(pending, mined, h, hits);
  }

  lemma EntryGrows(pending: set<TxId>, mined: Mined, h: Hash, hits: seq<TxId>)
    requires Books(pending, mined) && h.Of? && NoDup(hits)
    requires forall t :: t in hits ==> t in h.header.txs && t in pending
    ensures EntryOk(h, EntryOf(mined, h) + hits, pending - Txs(hits)) && NoDup(EntryOf(mined, h) + hits)
  {
    var was := EntryOf(mined, h);
    assert NoDup(was) && forall t :: t in was ==> t in h.header.txs && t !in pending by {
      assert h in mined ==> EntryOk(h, mined[h], pending);
    }
    var list := was + hits;
    forall i, j | 0 <= i < j < |list|
      ensures list[i] != list[j]
    {
      if i < |was| <= j {
        assert list[i] in was && list[j] in hits;
      }
    }
  }

  lemma KnownAfterMining(pending: set<TxId>, mined: Mined, h: Hash, hits: seq<TxId>)
    requires forall t :: t in hits ==> t in pending
    ensures Known(pending - Txs(hits), mined[h := EntryOf(mined, h) + hits]) == Known(pending, mined)
  {
    var after := mined[h := EntryOf(mined, h) + hits];
    forall t
      ensures t in MinedTxs(after) <==> t in MinedTxs(mined) || t in hits
    {
      if t in MinedTxs(mined) {
        var g :| g in mined && t in mined[g];
        assert g in after && t in after[g];
      }
      if t in hits {
        assert h in after && t in after[h];
      }
    }
  }

  lemma DropBooks(pending: set<TxId>, mined: Mined, h: Hash)
    requires Books(pending, mined) && h in mined
    ensures Books(pending, mined - {h}) && Known(pending, mined) == Known(pending, mined - {h}) + Txs(mined[h])
    ensures Known(pending, mined - {h}) !! Txs(mined[h])
  {
    var after := mined - {h};
    forall t
      ensures t in MinedTxs(mined) <==> t in MinedTxs(after) || t in mined[h]
    {
      if t in MinedTxs(mined) && t !in mined[h] {
        var g :| g in mined && t in mined[g];
        assert g in after && t in after[g];
      }
    }
    forall t | t in mined[h]
      ensures t !in pending && t !in MinedTxs(after)
    {
      assert EntryOk(h, mined[h], pending);
    }
  }

  lemma PendingIsRest(pending: set<TxId>, mined: Mined)
    requires Books(pending, mined)
    ensures pending !! MinedTxs(mined) && pending == Known(pending, mined) - MinedTxs(mined)
  {
    forall t | t in MinedTxs(mined)
      ensures t !in pending
    {
      var h :| h in mined && t in mined[h];
      assert EntryOk(h, mined[h], pending);
    }
  }

  // ------------------------------------------------------------------ the walk to the fork

  /** Both branches belong to one tree. */
  ghost predicate Related(a: Hash, b: Hash) {
    Linked(a) && Linked(b) && Genesis(a) == Genesis(b)
  }

  /** The blocks of a branch above a height, highest first. */
  ghost predicate Above(hashes: seq<Hash>, tip: Hash, height: nat) {
    && Linked(tip) && height <= tip.header.number && |hashes| == tip.header.number - height
    && (forall i :: 0 <= i < |hashes| ==> hashes[i] == Path(tip)[tip.header.number - i])
  }

  lemma AboveStep(hashes: seq<Hash>, tip: Hash, h: Hash)
    requires Linked(tip) && IsAncestor(h, tip) && Above(hashes, tip, h.header.number) && h.header.number > 0
    ensures h.header.parentHash.Of? && IsAncestor(h.header.parentHash, tip)
    ensures h.header.parentHash.header.number == h.header.number - 1
    ensures Above(hashes + [h], tip, h.header.number - 1)
  {
    PathStep(tip, h.header.number);
  }

  /** Where a walk down the branch `b` from height `m` ends: at height `k`, or at the first header
      that is missing. */
  ghost function StopFrom(b: Hash, available: set<Hash>, k: nat, m: nat): (s: nat)
    requires Linked(b) && k <= m <= b.header.number
    ensures k <= s <= m
    ensures forall n: nat :: s < n < m ==> Path(b)[n] in available
    ensures s > k ==> s < m && Path(b)[s] !in available
  {
    if m == k then m
    else if Path(b)[m - 1] !in available then m - 1
    else StopFrom(b, available, k, m - 1)
  }

  /** Where the walk down the new branch `b` ends. */
  ghost function StopHeight(a: Hash, b: Hash, available: set<Hash>): (s: nat)
    requires Related(a, b)
    ensures ForkHeight(a, b) <= s <= b.header.number
  {
    StopFrom(b, available, ForkHeight(a, b), b.header.number)
  }

  /** The walk ends above the fork if and only if a header strictly between fork and head is missing. */
  lemma StopsShort(a: Hash, b: Hash, available: set<Hash>)
    requires Related(a, b)
    ensures StopHeight(a, b, available) > ForkHeight(a, b) <==>
            exists n: nat :: ForkHeight(a, b) < n < b.header.number && Path(b)[n] !in available
    ensures forall n: nat :: StopHeight(a, b, available) < n < b.header.number ==> Path(b)[n] in available
  {
    hide Path, Linked, Genesis, MeetAt;
    var s := StopHeight(a, b, available);
    if s > ForkHeight(a, b) {
      assert Path(b)[s] !in available;
    }
  }

  /** The height down to which the old branch is rolled back. */
  ghost function KeptHeight(a: Hash, b: Hash, available: set<Hash>): (f: nat)
    requires Related(a, b)
    ensures f in Path(a) && f <= StopHeight(a, b, available)
  {
    var s := StopHeight(a, b, available);
    if a.header.number < s then a.header.number else s
  }

  /** The index from which entries are cleared, once the old branch has been rolled back. */
  ghost function ClearFrom(clearIdx: nat, a: Hash, b: Hash, available: set<Hash>): nat
    requires Related(a, b)
  {
    var k := KeptHeight(a, b, available);
    if k < clearIdx then k else clearIdx
  }

  /** Where both walks are before the new one has met a missing header. */
  ghost predicate Walking(a: Hash, b: Hash, available: set<Hash>, oldh: Hash, newh: Hash) {
    && Related(a, b) && IsAncestor(oldh, a) && IsAncestor(newh, b)
    && ForkHeight(a, b) <= oldh.header.number && ForkHeight(a, b) <= newh.header.number
    && (oldh.header.number > newh.header.number ==> newh == b)
    && (oldh.header.number < newh.header.number ==> oldh == a)
    && StopFrom(b, available, ForkHeight(a, b), newh.header.number) == StopHeight(a, b, available)
  }

  /** Before they meet, the side that is not below the other is above the fork. */
  lemma NotMet(a: Hash, b: Hash, available: set<Hash>, oldh: Hash, newh: Hash)
    requires Walking(a, b, available, oldh, newh) && oldh != newh
    ensures oldh.header.number >= newh.header.number ==> oldh.header.number > ForkHeight(a, b)
    ensures oldh.header.number <= newh.header.number ==> newh.header.number > ForkHeight(a, b)
  {
    hide Path, Linked, Genesis, ForkHeight;
  }

  lemma Met(a: Hash, b: Hash, available: set<Hash>, h: Hash)
    requires Walking(a, b, available, h, h)
    ensures h.header.number == StopHeight(a, b, available) == KeptHeight(a, b, available)
  {
    hide Path, Linked, Genesis, ForkHeight;
  }

  ghost predicate ParentOf(p: Hash, h: Hash) {
    h.Of? && p.Of? && p == h.header.parentHash && p.header.number + 1 == h.header.number
  }

  /** One turn of the walk, with the new side's header at hand. */
  lemma WalkOn(a: Hash, b: Hash, available: set<Hash>, oldWas: Hash, newWas: Hash, oldh: Hash, newh: Hash)
    requires Walking(a, b, available, oldWas, newWas) && oldWas != newWas && IsAncestor(oldh, a) && IsAncestor(newh, b)
    requires if oldWas.header.number >= newWas.header.number then ParentOf(oldh, oldWas) else oldh == oldWas
    requires if oldWas.header.number <= newWas.header.number then ParentOf(newh, newWas) && newh in available else newh == newWas
    ensures Walking(a, b, available, oldh, newh)
  {
    NotMet(a, b, available, oldWas, newWas);
    hide Path, Linked, Genesis, ForkHeight;
  }

  /** The last turn of the walk, with the new side's header missing. */
  lemma WalkEnds(a: Hash, b: Hash, available: set<Hash>, oldWas: Hash, newWas: Hash, oldh: Hash, missing: Hash)
    requires Walking(a, b, available, oldWas, newWas) && oldWas != newWas && oldWas.header.number <= newWas.header.number
    requires if oldWas.header.number == newWas.header.number then ParentOf(oldh, oldWas) else oldh == oldWas
    requires ParentOf(missing, newWas) && IsAncestor(missing, b) && IsAncestor(oldh, a) && missing !in available
    ensures missing.header.number == StopHeight(a, b, available) && oldh.header.number == KeptHeight(a, b, available)
  {
    NotMet(a, b, available, oldWas, newWas);
    hide Path, Linked, Genesis, ForkHeight;
  }

  /** Walks both branches down to where they meet.  If a header of the new branch is missing the walk
      stops there and takes the old side's block for the fork. */
  method WalkToFork(oldHead: Hash, newHead: Hash, available: set<Hash>)
    returns (fork: Hash, oldHashes: seq<Hash>, newHashes: seq<Hash>)
    requires Related(oldHead, newHead)
    ensures fork == Path(oldHead)[KeptHeight(oldHead, newHead, available)]
    ensures Above(oldHashes, oldHead, KeptHeight(oldHead, newHead, available))
    ensures Above(newHashes, newHead, StopHeight(oldHead, newHead, available))
  {
    var oldh, newh := oldHead, newHead;
    ghost var gap := false;
    oldHashes, newHashes := [], [];
    while oldh != newh
      invariant IsAncestor(oldh, oldHead) && Above(oldHashes, oldHead, oldh.header.number)
      invariant !gap ==> Walking(oldHead, newHead, available, oldh, newh) && Above(newHashes, newHead, newh.header.number)
      invariant gap ==> newh == oldh && Above(newHashes, newHead, StopHeight(oldHead, newHead, available))
      invariant gap ==> oldh.header.number == KeptHeight(oldHead, newHead, available)
      decreases if gap then 0 else 1, oldh.header.number + newh.header.number
    {
      hide Above, Path, Linked, Genesis, StopHeight, StopFrom, KeptHeight;
      ghost var oldWas, newWas := oldh, newh;
      NotMet(oldHead, newHead, available, oldh, newh);
      if oldh.header.number >= newh.header.number {
        AboveStep(oldHashes, oldHead, oldh);
        oldHashes := oldHashes + [oldh];
        oldh := oldh.header.parentHash;
      }
      if oldh.header.number < newh.header.number {
        AboveStep(newHashes, newHead, newh);
        newHashes := newHashes + [newh];
        if newh.header.parentHash in available {
          newh := newh.header.parentHash;
        } else {
          WalkEnds(oldHead, newHead, available, oldWas, newWas, oldh, newh.header.parentHash);
          gap := true;
          newh := oldh;
        }
      }
      if !gap {
        WalkOn(oldHead, newHead, available, oldWas, newWas, oldh, newh);
      }
    }
    if !gap {
      Met(oldHead, newHead, available, oldh);
    }
    fork := oldh;
  }

  // ------------------------------------------------------------------ rolling back and mining blocks

  /** The entries left when the blocks of a branch above height `k` are rolled back. */
  ghost function KeptEntries(mined: Mined, head: Hash, k: nat): Mined
    requires Linked(head)
  {
    map h | h in mined && !(IsAncestor(h, head) && h.header.number > k) :: mined[h]
  }

  lemma RollingBack(mined: Mined, head: Hash, k: nat, hashes: seq<Hash>)
    requires Above(hashes, head, k)
    ensures mined - (set h | h in hashes) == KeptEntries(mined, head, k)
  {
    forall h
      ensures h in hashes <==> IsAncestor(h, head) && h.header.number > k
    {
      if IsAncestor(h, head) && h.header.number > k {
        assert hashes[head.header.number - h.header.number] == h;
      }
    }
  }

  /** What is pending once the old branch has been rolled back down to height `k`. */
  ghost function Waiting(pending: set<TxId>, mined: Mined, head: Hash, k: nat): set<TxId>
    requires Linked(head)
  {
    Known(pending, mined) - MinedTxs(KeptEntries(mined, head, k))
  }

  /** What is left of a pending set by the blocks above height `lo` up to height `hi`. */
  ghost function Unmined(pending: set<TxId>, tip: Hash, lo: nat, hi: nat): (rest: set<TxId>)
    requires Linked(tip) && lo <= hi <= tip.header.number
    ensures rest <= pending
    decreases hi
  {
    if hi == lo then pending else Unmined(pending, tip, lo, hi - 1) - Txs(Path(tip)[hi].header.txs)
  }

  lemma {:induction false} UnminedMeans(pending: set<TxId>, tip: Hash, lo: nat, hi: nat, t: TxId)
    requires Linked(tip) && lo <= hi <= tip.header.number
    ensures t in Unmined(pending, tip, lo, hi) <==>
            t in pending && forall n: nat :: lo < n <= hi ==> t !in Path(tip)[n].header.txs
    decreases hi
  {
    hide Path, Linked;
    if hi > lo {
      UnminedMeans(pending, tip, lo, hi - 1, t);
      if t in Unmined(pending, tip, lo, hi) {
        forall n: nat | lo < n <= hi
          ensures t !in Path(tip)[n].header.txs
        {
          assert n == hi || n <= hi - 1;
        }
      } else if t in Unmined(pending, tip, lo, hi - 1) {
        assert t in Path(tip)[hi].header.txs;
      }
    }
  }

  /** The transactions that blocks above height `lo` up to height `hi` mark as mined once more: those of
      entries that exist already, of every block checked while something is pending. */
  ghost function Again(mined: Mined, pending: set<TxId>, tip: Hash, lo: nat, hi: nat): set<TxId>
    requires Linked(tip) && lo <= hi <= tip.header.number
    decreases hi
  {
    if hi == lo then {}
    else Again(mined, pending, tip, lo, hi - 1) +
         if Unmined(pending, tip, lo, hi - 1) == {} then {} else Txs(EntryOf(mined, Path(tip)[hi]))
  }

  /** The block at height `n` marks the transaction once more. */
  ghost predicate MarksAgain(mined: Mined, pending: set<TxId>, tip: Hash, lo: nat, n: nat, t: TxId)
    requires Linked(tip)
  {
    lo < n <= tip.header.number && t in EntryOf(mined, Path(tip)[n]) && Unmined(pending, tip, lo, n - 1) != {}
  }

  lemma {:induction false} AgainMeans(mined: Mined, pending: set<TxId>, tip: Hash, lo: nat, hi: nat, t: TxId)
    requires Linked(tip) && lo <= hi <= tip.header.number
    ensures t in Again(mined, pending, tip, lo, hi) <==> exists n: nat :: n <= hi && MarksAgain(mined, pending, tip, lo, n, t)
    decreases hi
  {
    if hi > lo {
      AgainMeans(mined, pending, tip, lo, hi - 1, t);
      hide Path, Linked, EntryOf, Unmined;
      if MarksAgain(mined, pending, tip, lo, hi, t) {
        assert t in Txs(EntryOf(mined, Path(tip)[hi]));
      } else {
        assert forall n: nat :: MarksAgain(mined, pending, tip, lo, n, t) ==> n != hi;
      }
    }
  }

  lemma AgainIsMined(mined: Mined, pending: set<TxId>, tip: Hash, lo: nat, hi: nat)
    requires Linked(tip) && lo <= hi <= tip.header.number
    ensures Again(mined, pending, tip, lo, hi) <= MinedTxs(mined)
  {
    forall t | t in Again(mined, pending, tip, lo, hi)
      ensures t in MinedTxs(mined)
    {
      AgainMeans(mined, pending, tip, lo, hi, t);
      var n: nat :| n <= hi && MarksAgain(mined, pending, tip, lo, n, t);
      assert Path(tip)[n] in mined && t in mined[Path(tip)[n]];
    }
  }

  /** Every block of the branch is in the set. */
  ghost predicate AllIn(head: Hash, available: set<Hash>)
    requires Linked(head)
  {
    forall n: nat :: n in Path(head) ==> Path(head)[n] in available
  }

  /** What can be retrieved from the network: the bodies and the receipts of these blocks. */
  datatype Odr = Odr(bodies: set<Hash>, receipts: set<Hash>)

  /** The check of the block at height `n` fails: something is pending, and the body cannot be had, or the block
      concerns the pool and its receipts cannot. */
  ghost predicate FailsAt(odr: Odr, mined: Mined, pending: set<TxId>, tip: Hash, lo: nat, n: nat)
    requires Linked(tip) && lo < n <= tip.header.number
  {
    var h, rest := Path(tip)[n], Unmined(pending, tip, lo, n - 1);
    rest != {} && (h !in odr.bodies || ((h in mined || Hits(h.header.txs, rest) != []) && h !in odr.receipts))
  }

  /** The blocks above height `lo` are checked up to the first failure. */
  ghost predicate Stopped(odr: Odr, mined: Mined, pending: set<TxId>, tip: Hash, lo: nat, hi: nat, failed: bool)
    requires Linked(tip) && lo <= hi <= tip.header.number
  {
    && (forall n: nat :: lo < n <= hi ==> !FailsAt(odr, mined, pending, tip, lo, n))
    && (if failed then hi < tip.header.number && FailsAt(odr, mined, pending, tip, lo, hi + 1) else hi == tip.header.number)
  }

  /** Nothing but blocks above height `lo` up to height `hi` got or changed an entry. */
  ghost predicate Grown(was: Mined, mined: Mined, tip: Hash, lo: nat, hi: nat) {
    && Linked(tip) && was.Keys <= mined.Keys
    && (forall h :: h in mined && !(IsAncestor(h, tip) && lo < h.header.number <= hi) ==> h in was && mined[h] == was[h])
  }

  lemma NextGrown(was: Mined, mined: Mined, tip: Hash, lo: nat, hi: nat, list: seq<TxId>)
    requires Grown(was, mined, tip, lo, hi) && lo <= hi < tip.header.number
    ensures var h := Path(tip)[hi + 1];
            && EntryOf(mined, h) == EntryOf(was, h) && (h in mined <==> h in was)
            && Grown(was, mined, tip, lo, hi + 1) && Grown(was, mined[h := list], tip, lo, hi + 1)
  {
    hide Path, Linked;
    var h := Path(tip)[hi + 1];
    assert h in mined ==> h in was && mined[h] == was[h];
  }

  ghost predicate DistinctTxs(head: Hash) {
    Linked(head) && forall n :: n in Path(head) ==> NoDup(Path(head)[n].header.txs)
  }

  /** `clearIdx` is a lower bound on the heights with entries. */
  ghost predicate Cleared(mined: Mined, clearIdx: nat) {
    forall h :: h in mined ==> h.Of? && clearIdx <= h.header.number
  }

  /** The canonical index agrees with the branch of the head. */
  ghost predicate Agrees(canonical: map<nat, Hash>, head: Hash) {
    Linked(head) && forall n :: n in Path(head) ==> n in canonical && canonical[n] == Path(head)[n]
  }

  lemma KeptCleared(mined: Mined, head: Hash, k: nat, clearIdx: nat)
    requires Linked(head) && Cleared(mined, clearIdx)
    ensures Cleared(KeptEntries(mined, head, k), if k < clearIdx then k else clearIdx)
  {
  }

  lemma GrownCleared(was: Mined, mined: Mined, tip: Hash, lo: nat, hi: nat, clearIdx: nat)
    requires Grown(was, mined, tip, lo, hi) && Cleared(was, clearIdx) && clearIdx <= lo
    ensures Cleared(mined, clearIdx)
  {
  }

  lemma ClearedAfter(mined: Mined, rest: Mined, head: Hash, canonical: map<nat, Hash>, clearIdx: nat, end: nat)
    requires OnChain(mined, head) && Agrees(canonical, head) && Cleared(mined, clearIdx) && rest.Keys <= mined.Keys
    requires forall h :: h in rest ==> !BecomesPermanent(h, canonical, clearIdx, end)
    ensures Cleared(rest, end)
  {
    forall h | h in rest
      ensures h.Of? && end <= h.header.number
    {
      assert h in mined && IsAncestor(h, head);
      assert canonical[h.header.number] == h;
    }
  }

  // ------------------------------------------------------------------ a whole reorganisation

  /** The entries, the pending set, the head and the repeated marks after a move from head `a` towards
      head `b` that checked the blocks up to height `reached`. */
  ghost function EntriesLeft(mined: Mined, a: Hash, b: Hash, available: set<Hash>): Mined
    requires Related(a, b)
  {
    KeptEntries(mined, a, KeptHeight(a, b, available))
  }

  ghost function PendingAfter(pending: set<TxId>, mined: Mined, a: Hash, b: Hash, available: set<Hash>, reached: nat): set<TxId>
    requires Related(a, b) && StopHeight(a, b, available) <= reached <= b.header.number
  {
    Unmined(Waiting(pending, mined, a, KeptHeight(a, b, available)), b, StopHeight(a, b, available), reached)
  }

  ghost predicate StoppedAfter(odr: Odr, pending: set<TxId>, mined: Mined, a: Hash, b: Hash, available: set<Hash>, reached: nat, failed: bool)
    requires Related(a, b) && StopHeight(a, b, available) <= reached <= b.header.number
  {
    var k := KeptHeight(a, b, available);
    Stopped(odr, KeptEntries(mined, a, k), Waiting(pending, mined, a, k), b, StopHeight(a, b, available), reached, failed)
  }

  ghost function HeadAfter(a: Hash, b: Hash, available: set<Hash>, reached: nat): Hash
    requires Related(a, b) && StopHeight(a, b, available) <= reached <= b.header.number
  {
    if reached == StopHeight(a, b, available) then Path(a)[KeptHeight(a, b, available)] else Path(b)[reached]
  }

  ghost function MarkedAgain(pending: set<TxId>, mined: Mined, a: Hash, b: Hash, available: set<Hash>, reached: nat): set<TxId>
    requires Related(a, b) && StopHeight(a, b, available) <= reached <= b.header.number
  {
    var k := KeptHeight(a, b, available);
    Again(KeptEntries(mined, a, k), Waiting(pending, mined, a, k), b, StopHeight(a, b, available), reached)
  }

  lemma HeadAfterRelated(a: Hash, b: Hash, available: set<Hash>, reached: nat)
    requires Related(a, b) && StopHeight(a, b, available) <= reached <= b.header.number
    ensures Related(HeadAfter(a, b, available, reached), b)
  {
    PathStep(a, KeptHeight(a, b, available));
    PathStep(b, reached);
    SameGenesis(a, KeptHeight(a, b, available));
    SameGenesis(b, reached);
  }

  lemma SameGenesis(h: Hash, n: nat)
    requires Linked(h) && n in Path(h)
    ensures Linked(Path(h)[n]) && Genesis(Path(h)[n]) == Genesis(h)
  {
    AncestorPath(h, n, 0);
    PathStartsAtGenesis(h);
    PathStartsAtGenesis(Path(h)[n]);
  }

  /** An entry on the old branch is not on the new branch above the fork. */
  lemma OnOneBranch(a: Hash, b: Hash, n: nat)
    requires Related(a, b) && n in Path(a) && n in Path(b)
    ensures Path(a)[n] == Path(b)[n] <==> n <= ForkHeight(a, b)
  {
    if n <= ForkHeight(a, b) {
      AgreeBelow(a, b, ForkHeight(a, b), n);
    }
  }

  /** From entries that all belong to the old head's branch, nothing is marked twice. */
  lemma NothingAgain(pending: set<TxId>, mined: Mined, a: Hash, b: Hash, available: set<Hash>, reached: nat)
    requires Related(a, b) && StopHeight(a, b, available) <= reached <= b.header.number && OnChain(mined, a)
    ensures MarkedAgain(pending, mined, a, b, available, reached) == {}
  {
    var k, s := KeptHeight(a, b, available), StopHeight(a, b, available);
    var kept, waiting := KeptEntries(mined, a, k), Waiting(pending, mined, a, k);
    forall n: nat, t | n <= reached
      ensures !MarksAgain(kept, waiting, b, s, n, t)
    {
      if s < n && Path(b)[n] in mined {
        OnOneBranch(a, b, n);
      }
    }
    forall t
      ensures t !in Again(kept, waiting, b, s, reached)
    {
      AgainMeans(kept, waiting, b, s, reached, t);
    }
  }

  /** All entries belong to the new head's branch exactly when the walk kept no entry between the fork
      and the block it took for the fork, or when no new block was checked at all. */
  lemma StaysOnChain(was: Mined, mined: Mined, dropped: set<Hash>, a: Hash, b: Hash, available: set<Hash>, reached: nat)
    requires Related(a, b) && StopHeight(a, b, available) <= reached <= b.header.number && OnChain(was, a)
    requires Grown(EntriesLeft(was, a, b, available), mined, b, StopHeight(a, b, available), reached)
    ensures OnChain(mined - dropped, HeadAfter(a, b, available, reached)) <==>
            || reached == StopHeight(a, b, available)
            || forall h :: h in was && h !in dropped && h.header.number <= KeptHeight(a, b, available) ==> h.header.number <= ForkHeight(a, b)
  {
    var k, s, head := KeptHeight(a, b, available), StopHeight(a, b, available), HeadAfter(a, b, available, reached);
    HeadAfterRelated(a, b, available, reached);
    forall h | h in was && h.header.number <= k
      ensures IsAncestor(h, head) <==> reached == s || h.header.number <= ForkHeight(a, b)
    {
      KeptOnChain(h, a, b, available, reached);
    }
    forall h | h in mined && h !in was
      ensures IsAncestor(h, head)
    {
      AncestorPath(b, reached, h.header.number);
    }
  }

  lemma KeptOnChain(h: Hash, a: Hash, b: Hash, available: set<Hash>, reached: nat)
    requires Related(a, b) && StopHeight(a, b, available) <= reached <= b.header.number
    requires IsAncestor(h, a) && h.header.number <= KeptHeight(a, b, available)
    ensures Linked(HeadAfter(a, b, available, reached))
    ensures IsAncestor(h, HeadAfter(a, b, available, reached)) <==> reached == StopHeight(a, b, available) || h.header.number <= ForkHeight(a, b)
  {
    var n := h.header.number;
    HeadAfterRelated(a, b, available, reached);
    if reached == StopHeight(a, b, available) {
      AncestorPath(a, KeptHeight(a, b, available), n);
    } else {
      AncestorPath(b, reached, n);
      OnOneBranch(a, b, n);
    }
  }

  /** A canonical block at a height from `from` up to but not including `end`. */
  ghost predicate BecomesPermanent(h: Hash, canonical: map<nat, Hash>, from: int, end: int) {
    h.Of? && from <= h.header.number < end && h.header.number in canonical && canonical[h.header.number] == h
  }

  lemma TxsAre(list: seq<TxId>)
    ensures forall t :: t in Txs(list) <==> t in list
  {
  }

  /** What has an entry after a move had one before or is on the new head's branch, above the fork. */
  lemma EntriesFrom(was: Mined, checked: Mined, a: Hash, b: Hash, available: set<Hash>, reached: nat, pending: set<TxId>)
    requires Related(a, b) && Books(pending, checked)
    requires Grown(EntriesLeft(was, a, b, available), checked, b, StopHeight(a, b, available), reached)
    ensures forall h :: h in checked ==> h.Of? && (h in was || IsAncestor(h, b))
    ensures forall h, t :: h in checked && t in checked[h] ==> t in h.header.txs
  {
    hide Genesis, StopHeight, ForkHeight, Path, KeptHeight;
    forall h | h in checked
      ensures h.Of? && forall t :: t in checked[h] ==> t in h.header.txs
    {
      assert EntryOk(h, checked[h], pending);
    }
  }

  lemma LinkedIsOf(h: Hash)
    requires Linked(h)
    ensures h.Of?
  {
  }

  lemma StoppedAt(odr: Odr, mined: Mined, pending: set<TxId>, tip: Hash, lo: nat, hi: nat, failed: bool)
    requires Linked(tip) && lo <= hi <= tip.header.number
    requires forall n: nat :: lo < n <= hi ==> !FailsAt(odr, mined, pending, tip, lo, n)
    requires if failed then hi < tip.header.number && FailsAt(odr, mined, pending, tip, lo, hi + 1) else hi == tip.header.number
    ensures Stopped(odr, mined, pending, tip, lo, hi, failed)
  {
  }

  lemma HashCount(hashes: seq<Hash>, tip: Hash, floor: nat)
    requires Above(hashes, tip, floor)
    ensures tip.Of? && |hashes| == tip.header.number - floor
  {
  }

  lemma HashAbove(hashes: seq<Hash>, tip: Hash, floor: nat, i: nat, n: nat)
    requires Above(hashes, tip, floor) && DistinctTxs(tip) && i < |hashes| && n + i == tip.header.number
    ensures n in Path(tip) && hashes[i] == Path(tip)[n] && hashes[i].Of? && NoDup(hashes[i].header.txs)
  {
  }

  /** The state once the blocks above height `lo` up to height `hi` have been checked. */
  ghost predicate Checked(pending0: set<TxId>, mined0: Mined, pending: set<TxId>, mined: Mined,
                          tip: Hash, lo: nat, hi: nat, before: set<TxId>, txc: map<TxId, bool>) {
    && Linked(tip) && lo <= hi <= tip.header.number
    && Books(pending, mined) && Known(pending, mined) == Known(pending0, mined0)
    && Grown(mined0, mined, tip, lo, hi)
    && pending == Unmined(pending0, tip, lo, hi)
    && txc == Report(before, pending, Again(mined0, pending0, tip, lo, hi))
  }

  lemma CheckedMeans(pending0: set<TxId>, mined0: Mined, pending: set<TxId>, mined: Mined,
                     tip: Hash, lo: nat, hi: nat, before: set<TxId>, txc: map<TxId, bool>)
    requires Checked(pending0, mined0, pending, mined, tip, lo, hi, before, txc)
    ensures Linked(tip) && lo <= hi <= tip.header.number
    ensures Books(pending, mined) && Known(pending, mined) == Known(pending0, mined0)
    ensures Grown(mined0, mined, tip, lo, hi) && pending == Unmined(pending0, tip, lo, hi)
    ensures txc == Report(before, pending, Again(mined0, pending0, tip, lo, hi))
  {
  }

  lemma CheckedIs(pending0: set<TxId>, mined0: Mined, pending: set<TxId>, mined: Mined,
                  tip: Hash, lo: nat, hi: nat, before: set<TxId>, txc: map<TxId, bool>)
    requires Linked(tip) && lo <= hi <= tip.header.number
    requires Books(pending, mined) && Known(pending, mined) == Known(pending0, mined0)
    requires Grown(mined0, mined, tip, lo, hi) && pending == Unmined(pending0, tip, lo, hi)
    requires txc == Report(before, pending, Again(mined0, pending0, tip, lo, hi))
    ensures Checked(pending0, mined0, pending, mined, tip, lo, hi, before, txc)
  {
  }

  lemma FailsMeans(odr: Odr, mined: Mined, pending: set<TxId>, tip: Hash, lo: nat, n: nat)
    requires Linked(tip) && lo < n <= tip.header.number
    ensures var h, rest := Path(tip)[n], Unmined(pending, tip, lo, n - 1);
            FailsAt(odr, mined, pending, tip, lo, n) <==>
            rest != {} && (h !in odr.bodies || ((h in mined || Hits(h.header.txs, rest) != []) && h !in odr.receipts))
  {
  }

  lemma StartChecking(pending: set<TxId>, mined: Mined, tip: Hash, lo: nat, before: set<TxId>)
    requires Linked(tip) && lo <= tip.header.number
    requires Books(pending, mined)
    ensures Checked(pending, mined, pending, mined, tip, lo, lo, before, Net(before, pending))
  {
    ReportIsNet(before, pending, {});
  }

  lemma CheckingNext(pending: set<TxId>, mined: Mined, tip: Hash, lo: nat, hi: nat, before: set<TxId>)
    requires Linked(tip) && lo <= hi < tip.header.number && Books(pending, mined) && MinedTxs(mined) !! before
    ensures var h := Path(tip)[hi + 1];
            var rest, again := Unmined(pending, tip, lo, hi), Again(mined, pending, tip, lo, hi);
            && again !! rest && Txs(EntryOf(mined, h)) !! before
            && Unmined(pending, tip, lo, hi + 1) == rest - Txs(h.header.txs)
            && Again(mined, pending, tip, lo, hi + 1) == again + if rest == {} then {} else Txs(EntryOf(mined, h))
  {
    PendingIsRest(pending, mined);
    AgainIsMined(mined, pending, tip, lo, hi);
    forall t | t in EntryOf(mined, Path(tip)[hi + 1])
      ensures t !in before
    {
      assert t in MinedTxs(mined);
    }
  }

  lemma KeptApart(pending: set<TxId>, mined: Mined, head: Hash, k: nat)
    requires Books(pending, mined) && Linked(head)
    ensures MinedTxs(KeptEntries(mined, head, k)) !! pending && MinedTxs(KeptEntries(mined, head, k)) <= MinedTxs(mined)
  {
    PendingIsRest(pending, mined);
  }

  lemma FailedIs(odr: Odr, pending: set<TxId>, mined: Mined, a: Hash, b: Hash, available: set<Hash>, reached: nat, failed: bool)
    requires Related(a, b) && StopHeight(a, b, available) <= reached <= b.header.number
    requires StoppedAfter(odr, pending, mined, a, b, available, reached, failed)
    ensures failed <==> reached < b.header.number
    ensures AllIn(b, odr.bodies) && AllIn(b, odr.receipts) ==> !failed
  {
    hide Path, Linked, Genesis, StopHeight, ForkHeight, KeptHeight, Unmined, Hits;
  }

  lemma HeadIs(a: Hash, b: Hash, available: set<Hash>, reached: nat)
    requires Related(a, b) && StopHeight(a, b, available) <= reached <= b.header.number
    ensures reached == b.header.number ==> HeadAfter(a, b, available, reached) == b
  {
    hide Genesis, StopFrom;
    StopsBelow(a, b, available);
  }

  lemma StopsBelow(a: Hash, b: Hash, available: set<Hash>)
    requires Related(a, b)
    ensures StopHeight(a, b, available) == b.header.number ==> ForkHeight(a, b) == b.header.number
  {
  }

  lemma RecentIs(mined: Mined, clearIdx: nat)
    ensures Cleared(mined, clearIdx) ==> forall h :: h in mined ==> h.Of? && h.header.number >= clearIdx
  {
  }

  lemma AgainApart(pending: set<TxId>, mined: Mined, a: Hash, b: Hash, available: set<Hash>, reached: nat)
    requires Books(pending, mined) && Related(a, b) && StopHeight(a, b, available) <= reached <= b.header.number
    ensures var again := MarkedAgain(pending, mined, a, b, available, reached);
            again !! pending && again !! PendingAfter(pending, mined, a, b, available, reached)
  {
    hide Linked, Genesis, Books, StopHeight, KeptHeight, KeptEntries, Unmined, Again, MinedTxs, Known;
    var k := KeptHeight(a, b, available);
    KeptApart(pending, mined, a, k);
    AgainIsMined(KeptEntries(mined, a, k), Waiting(pending, mined, a, k), b, StopHeight(a, b, available), reached);
  }

  lemma StaysCleared(was: Mined, checked: Mined, mined: Mined, a: Hash, b: Hash, available: set<Hash>,
                     canonical: map<nat, Hash>, reached: nat, from: nat, end: nat)
    requires Related(a, b) && StopHeight(a, b, available) <= reached <= b.header.number && OnChain(was, a)
    requires Grown(EntriesLeft(was, a, b, available), checked, b, StopHeight(a, b, available), reached)
    requires mined.Keys <= checked.Keys
    requires end == from || (reached == b.header.number && forall h :: h in mined ==> !BecomesPermanent(h, canonical, from, end))
    ensures StopHeight(a, b, available) == ForkHeight(a, b) && Cleared(checked, from) && (end == from || Agrees(canonical, b)) ==> Cleared(mined, end)
  {
    hide Genesis, OnChain, Grown, StopHeight, EntriesLeft, KeptEntries;
    var k := ForkHeight(a, b);
    if StopHeight(a, b, available) == k && Cleared(checked, from) && end != from && Agrees(canonical, b) {
      StaysOnChain(was, checked, {}, a, b, available, reached);
      assert checked - {} == checked && HeadAfter(a, b, available, reached) == b;
      ClearedAfter(checked, mined, b, canonical, from, end);
    }
  }

  lemma EntryApart(pending: set<TxId>, mined: Mined, h: Hash)
    requires Books(pending, mined)
    ensures Txs(EntryOf(mined, h)) !! pending && forall t :: t in EntryOf(mined, h) ==> t !in pending && t in Txs(EntryOf(mined, h))
    ensures h !in mined ==> EntryOf(mined, h) == [] && Txs(EntryOf(mined, h)) == {}
  {
    assert h in mined ==> EntryOk(h, mined[h], pending);
  }

  lemma TxsOfBoth(was: seq<TxId>, hits: seq<TxId>, pending: set<TxId>)
    requires (forall t :: t in was ==> t !in pending) && forall t :: t in hits ==> t in pending
    ensures Txs(was + hits) - pending == Txs(was) && pending - Txs(was + hits) == pending - Txs(hits)
  {
  }

  lemma MarkingIsNet(before: set<TxId>, now: set<TxId>, list: seq<TxId>, skipped: bool)
    requires Txs(list) !! before && Txs(list) !! now
    ensures Report(before, now, {} + if skipped then {} else Txs(list)) == Net(before, now) <==> skipped || list == []
  {
    ReportIsNet(before, now, if skipped then {} else Txs(list));
    assert list != [] ==> list[0] in Txs(list);
  }

  // ------------------------------------------------------------------ what a missing header leads to

  /** The block at height `n` of a branch over a common root; block 1 of branch 0 holds transaction 7. */
  function Sample(branch: nat, n: nat): (h: Hash)
    ensures Linked(h) && h.header.number == n && Genesis(h) == Of(Header(Zero, 0, 1, [], 0))
    ensures h.header.extra == if n == 0 then 0 else branch
  {
    if n == 0 then Of(Header(Zero, 0, 1, [], 0))
    else Of(Header(Sample(branch, n - 1), n, 1, if n == 1 && branch == 0 then [TxId(7)] else [], branch))
  }

  ghost function SampleHeaders(): set<Hash> {
    set n | 0 <= n <= 4 :: Sample(0, n)
  }

  lemma {:induction false} SamplePath(branch: nat, n: nat, m: nat)
    requires m <= n
    ensures Path(Sample(branch, n))[m] == Sample(branch, m)
    decreases n
  {
    if m < n {
      SamplePath(branch, n - 1, m);
    }
  }

  lemma SampleFork(x: nat, n: nat, y: nat, m: nat)
    requires x != y
    ensures ForkHeight(Sample(x, n), Sample(y, m)) == 0
  {
    var k := ForkHeight(Sample(x, n), Sample(y, m));
    SamplePath(x, n, k);
    SamplePath(y, m, k);
  }

  /** A missing header can leave an entry behind that is not on the new head's branch. */
  lemma EntryLeftBehind()
    ensures exists mined: Mined, a: Hash, b: Hash, available: set<Hash>, h: Hash ::
              && Books({}, mined) && OnChain(mined, a) && Related(a, b)
              && h in EntriesLeft(mined, a, b, available) && !IsAncestor(h, b)
  {
    var a, b, h := Sample(0, 2), Sample(1, 3), Sample(0, 1);
    var mined := map[h := [TxId(7)]];
    SampleFork(0, 2, 1, 3);
    SamplePath(0, 2, 1);
    SamplePath(1, 3, 1);
    StopsShort(a, b, {});
    assert StopHeight(a, b, {}) == 2 by {
      hide StopHeight, Sample;
      assert Path(b)[2] !in {};
    }
    assert h in EntriesLeft(mined, a, b, {}) && !IsAncestor(h, b);
    assert EntryOk(h, mined[h], {});
  }

  /** If the chain then returns to that entry's branch while another transaction is pending, the
      report is not the net change although every header is at hand. */
  lemma FalseReport()
    ensures exists pending: set<TxId>, mined: Mined, a: Hash, b: Hash, available: set<Hash> ::
              && Books(pending, mined) && Related(a, b) && (forall n :: n in Path(b) ==> Path(b)[n] in available)
              && StopHeight(a, b, available) <= b.header.number
              && var now := PendingAfter(pending, mined, a, b, available, b.header.number);
                 Report(pending, now, MarkedAgain(pending, mined, a, b, available, b.header.number)) != Net(pending, now)
  {
    hide *;
    var a, b, h := Sample(1, 3), Sample(0, 4), Sample(0, 1);
    var pending, mined, available := {TxId(8)}, map[h := [TxId(7)]], SampleHeaders();
    BackToBranch(pending, mined, a, b, available, h);
    var again := MarkedAgain(pending, mined, a, b, available, b.header.number);
    AgainApart(pending, mined, a, b, available, b.header.number);
    ReportIsNet(pending, PendingAfter(pending, mined, a, b, available, b.header.number), again);
  }

  lemma BackToBranch(pending: set<TxId>, mined: Mined, a: Hash, b: Hash, available: set<Hash>, h: Hash)
    requires a == Sample(1, 3) && b == Sample(0, 4) && h == Sample(0, 1)
    requires pending == {TxId(8)} && mined == map[h := [TxId(7)]] && available == SampleHeaders()
    ensures Books(pending, mined) && Related(a, b) && Linked(b) && b.Of? && (forall n :: n in Path(b) ==> Path(b)[n] in available)
    ensures MarkedAgain(pending, mined, a, b, available, b.header.number) != {}
  {
    hide ForkHeight, StopHeight, Again, Unmined, MarkedAgain, KeptEntries, Path;
    assert EntryOk(h, mined[h], pending);
    forall n | n in Path(b)
      ensures Path(b)[n] in available
    {
      SamplePath(0, 4, n);
    }
    SampleFork(1, 3, 0, 4);
    StopsShort(a, b, available);
    SamplePath(1, 3, 1);
    SamplePath(0, 4, 1);
    MarkedOnce(pending, mined, a, b, available, h);
  }

  lemma MarkedOnce(pending: set<TxId>, mined: Mined, a: Hash, b: Hash, available: set<Hash>, h: Hash)
    requires Related(a, b) && StopHeight(a, b, available) == 0 < b.header.number && Path(b)[1] == h && !IsAncestor(h, a)
    requires pending == {TxId(8)} && mined == map[h := [TxId(7)]]
    ensures MarkedAgain(pending, mined, a, b, available, b.header.number) != {}
  {
    hide Linked, Genesis, StopHeight, ForkHeight;
    var kept, waiting := KeptEntries(mined, a, 0), Waiting(pending, mined, a, 0);
    assert h in kept && TxId(7) in EntryOf(kept, Path(b)[1]);
    assert TxId(8) !in MinedTxs(kept);
    assert TxId(8) in waiting && Unmined(waiting, b, 0, 0) == waiting;
    assert MarksAgain(kept, waiting, b, 0, 1, TxId(7));
    AgainMeans(kept, waiting, b, 0, b.header.number, TxId(7));
  }

  datatype PoolEvent = Sent(tx: TxId) | NewHead(head: Hash, available: set<Hash>, odr: Odr, canonical: map<nat, Hash>)

  ghost predicate EventOk(e: PoolEvent, genesis: Hash) {
    e.NewHead? ==>
      && Linked(e.head) && Genesis(e.head) == genesis && DistinctTxs(e.head)
      && forall i :: i in e.canonical ==> e.canonical[i].Of? && e.canonical[i].header.number == i
  }

  /** The block had an entry at the start or belongs to the branch of one of the heads before `n`. */
  ghost predicate Seen(events: seq<PoolEvent>, n: nat, was: Mined, h: Hash) {
    h in was || exists i :: 0 <= i < n && i < |events| && events[i].NewHead? && Linked(events[i].head) && IsAncestor(h, events[i].head)
  }

  ghost predicate AllSeen(events: seq<PoolEvent>, n: nat, was: Mined, mined: Mined) {
    forall h :: h in mined ==> Seen(events, n, was, h)
  }

  lemma NoneSeenYet(events: seq<PoolEvent>, mined: Mined)
    ensures AllSeen(events, 0, mined, mined)
  {
  }

  lemma SeenNext(events: seq<PoolEvent>, i: nat, was: Mined, mined: Mined, now: Mined)
    requires i < |events| && AllSeen(events, i, was, mined)
    requires now == mined || (events[i].NewHead? && Linked(events[i].head) && forall h :: h in now ==> h in mined || IsAncestor(h, events[i].head))
    ensures AllSeen(events, i + 1, was, now)
  {
    forall h | h in now
      ensures Seen(events, i + 1, was, h)
    {
      SeenLater(events, i, was, mined, h);
    }
  }

  /** A new head made a block with this transaction permanent: a canonical block more than 500 deep that had
      an entry at the start or belongs to the branch of a head of the run. */
  ghost predicate MadePermanent(events: seq<PoolEvent>, was: Mined, t: TxId) {
    exists i, h :: 0 <= i < |events| && events[i].NewHead? && events[i].head.Of? && Seen(events, i + 1, was, h)
      && BecomesPermanent(h, events[i].canonical, 0, events[i].head.header.number - TX_PERMANENT) && t in h.header.txs
  }

  /** Every header of every new head's branch is at hand. */
  ghost predicate NoneMissing(events: seq<PoolEvent>) {
    forall i :: 0 <= i < |events| && events[i].NewHead? && Linked(events[i].head) ==> AllIn(events[i].head, events[i].available)
  }

  /** All headers, bodies and receipts of every new head's branch are at hand, and the canonical index is its. */
  ghost predicate Smooth(events: seq<PoolEvent>) {
    forall i :: 0 <= i < |events| && events[i].NewHead? && Linked(events[i].head) ==> SmoothAt(events[i])
  }

  ghost predicate SmoothAt(e: PoolEvent)
    requires e.NewHead? && Linked(e.head)
  {
    AllIn(e.head, e.available) && AllIn(e.head, e.odr.bodies) && AllIn(e.head, e.odr.receipts) && Agrees(e.canonical, e.head)
  }

  lemma SmoothMeans(events: seq<PoolEvent>, i: nat)
    requires Smooth(events)
    ensures NoneMissing(events)
    ensures i < |events| && events[i].NewHead? && Linked(events[i].head) ==> SmoothAt(events[i])
  {
  }

  lemma SmoothParts(e: PoolEvent)
    requires e.NewHead? && Linked(e.head) && SmoothAt(e)
    ensures AllIn(e.head, e.odr.bodies) && AllIn(e.head, e.odr.receipts) && Agrees(e.canonical, e.head)
  {
  }

  /** The head of the last event that brings one. */
  function LastHead(head: Hash, events: seq<PoolEvent>): Hash
    decreases |events|
  {
    if events == [] then head
    else
      var e := events[|events| - 1];
      if e.NewHead? then e.head else LastHead(head, events[..|events| - 1])
  }

  lemma LastHeadNext(head: Hash, events: seq<PoolEvent>, i: nat)
    requires i < |events|
    ensures LastHead(head, events[..i + 1]) == if events[i].NewHead? then events[i].head else LastHead(head, events[..i])
    ensures LastHead(head, []) == head
  {
    assert events[..i + 1][..i] == events[..i];
  }

  lemma LastHeadNone(head: Hash)
    ensures LastHead(head, []) == head
  {
  }

  /** No entry lies below the clearing index, and that index is at most 500 below the head. */
  ghost predicate Recent(mined: Mined, clearIdx: nat, head: Hash) {
    head.Of? && Cleared(mined, clearIdx) && clearIdx + TX_PERMANENT >= head.header.number
  }

  lemma RecentParts(mined: Mined, clearIdx: nat, head: Hash)
    ensures Recent(mined, clearIdx, head) <==> head.Of? && Cleared(mined, clearIdx) && clearIdx + TX_PERMANENT >= head.header.number
  {
  }

  lemma NoStop(events: seq<PoolEvent>, i: nat, head: Hash)
    requires i < |events| && events[i].NewHead? && Related(head, events[i].head)
    ensures NoneMissing(events) ==> StopHeight(head, events[i].head, events[i].available) == ForkHeight(head, events[i].head)
  {
    if NoneMissing(events) {
      hide Path, Linked, Genesis, StopHeight, ForkHeight;
      StopsShort(head, events[i].head, events[i].available);
      assert AllIn(events[i].head, events[i].available);
    }
  }

  lemma EventMeans(e: PoolEvent, genesis: Hash, head: Hash)
    requires EventOk(e, genesis) && e.NewHead? && Linked(head) && Genesis(head) == genesis
    ensures e.head.Of? && Related(head, e.head) && Linked(e.head) && Genesis(e.head) == genesis && DistinctTxs(e.head)
    ensures forall i :: i in e.canonical ==> e.canonical[i].Of? && e.canonical[i].header.number == i
  {
  }

  lemma RelatedHead(head: Hash, newHead: Hash)
    requires Related(head, newHead)
    ensures Linked(head) && Linked(newHead) && Genesis(head) == Genesis(newHead)
  {
  }

  lemma Permanent(events: seq<PoolEvent>, i: nat, was: Mined, mined: Mined, dropped: set<Hash>, discarded: set<TxId>)
    requires i < |events| && events[i].NewHead? && Linked(events[i].head)
    requires AllSeen(events, i, was, mined)
    requires forall h :: h in dropped ==>
               && (h in mined || IsAncestor(h, events[i].head))
               && BecomesPermanent(h, events[i].canonical, 0, events[i].head.header.number - TX_PERMANENT)
    requires forall t :: t in discarded ==> exists h :: h in dropped && h.Of? && t in h.header.txs
    ensures forall t :: t in discarded ==> MadePermanent(events, was, t)
  {
    forall h | h in dropped
      ensures Seen(events, i + 1, was, h)
    {
      SeenLater(events, i, was, mined, h);
    }
  }

  lemma SeenLater(events: seq<PoolEvent>, i: nat, was: Mined, mined: Mined, h: Hash)
    requires i < |events| && AllSeen(events, i, was, mined)
    requires h in mined || (events[i].NewHead? && Linked(events[i].head) && IsAncestor(h, events[i].head))
    ensures Seen(events, i + 1, was, h)
  {
    if h in mined {
      assert Seen(events, i, was, h);
    } else {
      assert IsAncestor(h, events[i].head);
    }
  }

  lemma KnownSent(pending: set<TxId>, mined: Mined, t: TxId)
    ensures Known(pending + {t}, mined) == Known(pending, mined) + {t}
    ensures t in MinedTxs(mined) <==> exists h :: h in mined && t in mined[h]
    ensures t in pending || t in MinedTxs(mined) ==> t in Known(pending, mined)
  {
  }

  class LightTxPool {
    var head: Hash
    var pending: set<TxId>
    var mined: Mined
    var clearIdx: nat

    ghost predicate Valid()
      reads this
    {
      Books(pending, mined) && OnChain(mined, head)
    }

    constructor (head: Hash)
      requires Linked(head)
      ensures Valid() && this.head == head && pending == {} && mined == map[] && clearIdx == head.header.number
      ensures Recent(mined, clearIdx, head)
    {
      this.head, pending, mined, clearIdx := head, {}, map[], head.header.number;
    }

    lemma ValidIs()
      ensures Valid() <==> Books(pending, mined) && OnChain(mined, head)
    {
    }

    /** Adds a local transaction.  The books stay in order if and only if it is not recorded as mined. */
    method Add(t: TxId)
      requires Books(pending, mined)
      modifies this`pending
      ensures pending == old(pending) + {t}
      ensures Books(pending, mined) <==> t !in MinedTxs(mined)
    {
      SendBooks(pending, mined, t);
      pending := pending + {t};
    }

    method ReturnTxs(list: seq<TxId>, changes: map<TxId, bool>, ghost before: set<TxId>) returns (txc: map<TxId, bool>)
      requires NoDup(list) && (forall t :: t in list ==> t !in pending) && changes == Net(before, pending)
      modifies this`pending
      ensures pending == old(pending) + Txs(list) && txc == Net(before, pending)
    {
      txc := changes;
      for i := 0 to |list|
        invariant pending == old(pending) + Txs(list[..i]) && txc == Net(before, pending)
      {
        assert list[i] in list && list[i] !in list[..i];
        MarkRolledBack(before, pending, list[i]);
        assert list[..i + 1] == list[..i] + [list[i]];
        txc := SetState(txc, list[i], false);
        pending := pending + {list[i]};
      }
      assert list[..|list|] == list;
    }

    /** Takes the transactions of a block's entry out of the pending set and marks them as mined, those
        included that were not pending. */
    method TakeTxs(list: seq<TxId>, changes: map<TxId, bool>, ghost before: set<TxId>, ghost again: set<TxId>)
      returns (txc: map<TxId, bool>)
      requires NoDup(list) && (forall t :: t in list ==> t in pending || t !in before)
      requires changes == Report(before, pending, again) && again !! pending
      modifies this`pending
      ensures pending == old(pending) - Txs(list)
      ensures txc == Report(before, pending, again + (Txs(list) - old(pending)))
    {
      hide Report;
      txc := changes;
      assert Txs(list[..0]) == {} && again + (Txs(list[..0]) - pending) == again;
      for i := 0 to |list|
        invariant pending == old(pending) - Txs(list[..i])
        invariant txc == Report(before, pending, again + (Txs(list[..i]) - old(pending)))
      {
        var t := list[i];
        ghost var marked := again + (Txs(list[..i]) - old(pending));
        assert t in list && t !in list[..i];
        assert Txs(list[..i + 1]) == Txs(list[..i]) + {t};
        if t in pending {
          MarkMined(before, pending, marked, t);
          assert again + (Txs(list[..i + 1]) - old(pending)) == marked;
        } else {
          MarkAgain(before, pending, marked, t);
          assert again + (Txs(list[..i + 1]) - old(pending)) == marked + {t} && pending - {t} == pending;
        }
        pending := pending - {t};
        txc := SetState(txc, t, true);
      }
      assert list[..|list|] == list;
    }

    /** Returns the transactions of a rolled back block to the pending ones. */
    method RollbackTxs(hash: Hash, changes: map<TxId, bool>, ghost before: set<TxId>) returns (txc: map<TxId, bool>)
      requires Books(pending, mined) && changes == Net(before, pending)
      modifies this`pending, this`mined
      ensures Books(pending, mined) && txc == Net(before, pending) && mined == old(mined) - {hash}
      ensures Known(pending, mined) == Known(old(pending), old(mined))
    {
      txc := changes;
      if hash in mined {
        RollbackBooks(pending, mined, hash);
        assert EntryOk(hash, mined[hash], pending);
        hide Books, Known, Net;
        txc := ReturnTxs(mined[hash], txc, before);
        mined := mined - {hash};
      } else {
        assert mined - {hash} == mined;
      }
    }

    /** Moves the local transactions of a new block from pending to mined.  Fetching the block may fail, and
        so may fetching its receipts or writing the lookup entries; nothing changes then.  An entry the block
        already has is extended, and its transactions are marked as mined once more. */
    method CheckMinedTxs(hash: Hash, fetched: bool, stored: bool, changes: map<TxId, bool>, ghost before: set<TxId>, ghost again: set<TxId>)
      returns (txc: map<TxId, bool>, failed: bool)
      requires Books(pending, mined) && hash.Of? && NoDup(hash.header.txs)
      requires changes == Report(before, pending, again) && again !! pending && Txs(EntryOf(mined, hash)) !! before
      modifies this`pending, this`mined
      ensures Books(pending, mined) && Known(pending, mined) == Known(old(pending), old(mined))
      ensures failed <==> && old(pending) != {}
                          && (!fetched || ((hash in old(mined) || Hits(hash.header.txs, old(pending)) != []) && !stored))
      ensures pending == if failed then old(pending) else old(pending) - Txs(hash.header.txs)
      ensures mined == old(mined) || mined == old(mined)[hash := EntryOf(old(mined), hash) + Hits(hash.header.txs, old(pending))]
      ensures failed || old(pending) == {} ==> mined == old(mined)
      ensures txc == Report(before, pending, again + if failed || old(pending) == {} then {} else Txs(EntryOf(old(mined), hash)))
      ensures again == {} ==> (txc == Net(before, pending) <==> failed || old(pending) == {} || EntryOf(old(mined), hash) == [])
    {
      hide *;
      txc, failed := changes, false;
      HitsFacts(hash.header.txs, pending);
      HitsAreAll(hash.header.txs, pending);
      EntryApart(pending, mined, hash);
      ReportIsNet(before, pending, {});
      MarkingIsNet(before, pending, EntryOf(mined, hash), pending == {});
      assert again + {} == again;
      if pending == {} {
        return;
      }
      if !fetched {
        return txc, true;
      }
      var hits := Hits(hash.header.txs, pending);
      if hash !in mined && hits == [] {
        return;
      }
      if !stored {
        return txc, true;
      }
      var list := EntryOf(mined, hash) + hits;
      EntryGrows(pending, mined, hash, hits);
      MineBooks(pending, mined, hash, hits);
      TxsOfBoth(EntryOf(mined, hash), hits, pending);
      ghost var was := EntryOf(mined, hash);
      txc := TakeTxs(list, txc, before, again);
      MarkingIsNet(before, pending, was, false);
      mined := mined[hash := list];
    }

    /** Rolls back a sequence of blocks. */
    method RollBack(hashes: seq<Hash>, ghost before: set<TxId>) returns (txc: map<TxId, bool>)
      requires Books(pending, mined) && before == pending
      modifies this`pending, this`mined
      ensures Books(pending, mined) && txc == Net(before, pending) && mined == old(mined) - (set h | h in hashes)
      ensures Known(pending, mined) == Known(old(pending), old(mined))
    {
      txc := map[];
      for i := 0 to |hashes|
        invariant Books(pending, mined) && txc == Net(before, pending) && mined == old(mined) - (set h | h in hashes[..i])
        invariant Known(pending, mined) == Known(old(pending), old(mined))
      {
        assert hashes[..i + 1] == hashes[..i] + [hashes[i]];
        txc := RollbackTxs(hashes[i], txc, before);
      }
      assert hashes[..|hashes|] == hashes;
    }

    method CheckNewBlock(hash: Hash, newHead: Hash, odr: Odr, ghost floor: nat, ghost reached: nat, changes: map<TxId, bool>,
                         ghost before: set<TxId>, ghost pending0: set<TxId>, ghost mined0: Mined)
      returns (txc: map<TxId, bool>, failed: bool)
      requires Linked(newHead) && floor <= reached < newHead.header.number && hash == Path(newHead)[reached + 1] && NoDup(hash.header.txs)
      requires Books(pending0, mined0) && MinedTxs(mined0) !! before
      requires Checked(pending0, mined0, pending, mined, newHead, floor, reached, before, changes)
      modifies this`pending, this`mined
      ensures Checked(pending0, mined0, pending, mined, newHead, floor, if failed then reached else reached + 1, before, txc)
      ensures failed <==> FailsAt(odr, mined0, pending0, newHead, floor, reached + 1)
    {
      hide *;
      ghost var again := Again(mined0, pending0, newHead, floor, reached);
      ghost var was, list := mined, EntryOf(mined, hash) + Hits(hash.header.txs, pending);
      CheckedMeans(pending0, mined0, pending, mined, newHead, floor, reached, before, changes);
      NextGrown(mined0, mined, newHead, floor, reached, list);
      CheckingNext(pending0, mined0, newHead, floor, reached, before);
      FailsMeans(odr, mined0, pending0, newHead, floor, reached + 1);
      assert again + {} == again;
      txc, failed := CheckMinedTxs(hash, hash in odr.bodies, hash in odr.receipts, changes, before, again);
      assert failed ==> Grown(mined0, mined, newHead, floor, reached);
      assert Grown(mined0, mined, newHead, floor, reached + 1);
      CheckedIs(pending0, mined0, pending, mined, newHead, floor, if failed then reached else reached + 1, before, txc);
    }

    /** Checks the new blocks from the lowest up, until one of them cannot be checked. */
    method CheckNewBlocks(hashes: seq<Hash>, newHead: Hash, odr: Odr, ghost floor: nat, changes: map<TxId, bool>, ghost before: set<TxId>)
      returns (txc: map<TxId, bool>, failed: bool, ghost reached: nat)
      requires Books(pending, mined) && changes == Net(before, pending) && DistinctTxs(newHead) && Linked(newHead)
      requires Above(hashes, newHead, floor) && MinedTxs(mined) !! before && floor <= newHead.header.number
      modifies this`head, this`pending, this`mined
      ensures floor <= reached <= newHead.header.number
      ensures Stopped(odr, old(mined), old(pending), newHead, floor, reached, failed)
      ensures head == if reached == floor then old(head) else Path(newHead)[reached]
      ensures Checked(old(pending), old(mined), pending, mined, newHead, floor, reached, before, txc)
    {
      hide *;
      txc, failed, reached := changes, false, floor;
      StartChecking(pending, mined, newHead, floor, before);
      HashCount(hashes, newHead, floor);
      var i: nat := |hashes|;
      while i > 0
        invariant i <= |hashes| && reached == newHead.header.number - i && reached >= floor
        invariant Checked(old(pending), old(mined), pending, mined, newHead, floor, reached, before, txc)
        invariant head == if reached == floor then old(head) else Path(newHead)[reached]
        invariant forall n: nat :: floor < n <= reached ==> !FailsAt(odr, old(mined), old(pending), newHead, floor, n)
      {
        var hash := hashes[i - 1];
        HashAbove(hashes, newHead, floor, i - 1, reached + 1);
        txc, failed := CheckNewBlock(hash, newHead, odr, floor, reached, txc, before, old(pending), old(mined));
        if failed {
          StoppedAt(odr, old(mined), old(pending), newHead, floor, reached, true);
          return;
        }
        head := hash;
        i, reached := i - 1, reached + 1;
      }
      failed := false;
      StoppedAt(odr, old(mined), old(pending), newHead, floor, reached, false);
    }

    /** Forgets the entries of blocks that have become permanent. */
    method ClearOld(number: nat, canonical: map<nat, Hash>) returns (ghost dropped: set<Hash>, ghost discarded: set<TxId>)
      requires Books(pending, mined) && forall i :: i in canonical ==> canonical[i].Of? && canonical[i].header.number == i
      modifies this`mined, this`clearIdx
      ensures Books(pending, mined) && mined == old(mined) - dropped
      ensures Known(pending, old(mined)) == Known(pending, mined) + discarded && Known(pending, mined) !! discarded
      ensures forall h :: h in dropped <==> h in old(mined) && BecomesPermanent(h, canonical, old(clearIdx), number - TX_PERMANENT)
      ensures forall t :: t in discarded <==> exists h :: h in dropped && t in old(mined)[h]
      ensures clearIdx == if number > old(clearIdx) + TX_PERMANENT then number - TX_PERMANENT else old(clearIdx)
    {
      hide Books, Known, Txs;
      dropped, discarded := {}, {};
      if number > clearIdx + TX_PERMANENT {
        var end := number - TX_PERMANENT;
        if mined != map[] {
          for i := clearIdx to end
            invariant Books(pending, mined) && mined == old(mined) - dropped && clearIdx == old(clearIdx)
            invariant Known(pending, old(mined)) == Known(pending, mined) + discarded && Known(pending, mined) !! discarded
            invariant forall h :: h in dropped <==> h in old(mined) && BecomesPermanent(h, canonical, clearIdx, i)
            invariant forall t :: t in discarded <==> exists h :: h in dropped && t in old(mined)[h]
          {
            if i in canonical && canonical[i] in mined {
              DropBooks(pending, mined, canonical[i]);
              TxsAre(mined[canonical[i]]);
              discarded := discarded + Txs(mined[canonical[i]]);
              dropped := dropped + {canonical[i]};
              mined := mined - {canonical[i]};
            }
          }
        }
        clearIdx := end;
      }
    }

    /** Walks to the fork and rolls back the old branch down to it. */
    method RollBackToFork(newHead: Hash, available: set<Hash>) returns (txc: map<TxId, bool>, newHashes: seq<Hash>)
      requires Books(pending, mined) && Related(head, newHead)
      modifies this
      ensures Books(pending, mined) && Known(pending, mined) == Known(old(pending), old(mined)) && txc == Net(old(pending), pending)
      ensures head == Path(old(head))[KeptHeight(old(head), newHead, available)]
      ensures mined == EntriesLeft(old(mined), old(head), newHead, available)
      ensures pending == Waiting(old(pending), old(mined), old(head), KeptHeight(old(head), newHead, available))
      ensures Above(newHashes, newHead, StopHeight(old(head), newHead, available))
      ensures clearIdx == ClearFrom(old(clearIdx), old(head), newHead, available)
      ensures clearIdx <= StopHeight(old(head), newHead, available) && (Cleared(old(mined), old(clearIdx)) ==> Cleared(mined, clearIdx))
    {
      hide Books, Known, Net, MinedTxs, Above, Cleared, Linked, Genesis, ForkHeight, StopHeight, KeptHeight, KeptEntries, MeetAt;
      ghost var k := KeptHeight(head, newHead, available);
      var fork, oldHashes;
      fork, oldHashes, newHashes := WalkToFork(head, newHead, available);
      RollingBack(mined, head, k, oldHashes);
      if Cleared(mined, clearIdx) {
        KeptCleared(mined, head, k, clearIdx);
      }
      if fork.header.number < clearIdx {
        clearIdx := fork.header.number;
      }
      txc := RollBack(oldHashes, pending);
      PendingIsRest(pending, mined);
      head := fork;
    }

    /** Rolls back the old branch and checks the new one. */
    method MoveTo(newHead: Hash, available: set<Hash>, odr: Odr) returns (txc: map<TxId, bool>, failed: bool, ghost reached: nat)
      requires Books(pending, mined) && Related(head, newHead) && DistinctTxs(newHead)
      modifies this
      ensures Books(pending, mined) && Known(pending, mined) == Known(old(pending), old(mined))
      ensures StopHeight(old(head), newHead, available) <= reached <= newHead.header.number
      ensures StoppedAfter(odr, old(pending), old(mined), old(head), newHead, available, reached, failed)
      ensures head == HeadAfter(old(head), newHead, available, reached)
      ensures pending == PendingAfter(old(pending), old(mined), old(head), newHead, available, reached)
      ensures txc == Report(old(pending), pending, MarkedAgain(old(pending), old(mined), old(head), newHead, available, reached))
      ensures Grown(EntriesLeft(old(mined), old(head), newHead, available), mined, newHead, StopHeight(old(head), newHead, available), reached)
      ensures clearIdx == ClearFrom(old(clearIdx), old(head), newHead, available)
      ensures Cleared(old(mined), old(clearIdx)) ==> Cleared(mined, clearIdx)
    {
      ghost var kept := EntriesLeft(mined, head, newHead, available);
      KeptApart(pending, mined, head, KeptHeight(head, newHead, available));
      hide Books, Known, Net, Report, MinedTxs, Above, Cleared, Linked, Genesis, ForkHeight, StopHeight, KeptHeight, KeptEntries,
           MeetAt, Unmined, Again, Grown, DistinctTxs, Checked, Stopped;
      ghost var before, floor: nat := pending, StopHeight(head, newHead, available);
      var newHashes;
      txc, newHashes := RollBackToFork(newHead, available);
      ghost var waiting := pending;
      txc, failed, reached := CheckNewBlocks(newHashes, newHead, odr, floor, txc, before);
      CheckedMeans(waiting, kept, pending, mined, newHead, floor, reached, before, txc);
      if Cleared(kept, clearIdx) {
        GrownCleared(kept, mined, newHead, floor, reached, clearIdx);
      }
    }

    /** Moves the pool to a new head, whatever headers are missing and whatever fails on the way. */
    method ReorgOnNewHead(newHead: Hash, available: set<Hash>, odr: Odr, canonical: map<nat, Hash>)
      returns (txc: map<TxId, bool>, failed: bool, ghost reached: nat, ghost dropped: set<Hash>, ghost discarded: set<TxId>)
      requires Books(pending, mined) && Related(head, newHead) && DistinctTxs(newHead)
      requires forall i :: i in canonical ==> canonical[i].Of? && canonical[i].header.number == i
      modifies this
      ensures Books(pending, mined) && Related(head, newHead)
      // progress, and what is pending
      ensures StopHeight(old(head), newHead, available) <= reached <= newHead.header.number
      ensures StoppedAfter(odr, old(pending), old(mined), old(head), newHead, available, reached, failed)
      ensures head == HeadAfter(old(head), newHead, available, reached) && (!failed ==> head == newHead)
      ensures AllIn(newHead, odr.bodies) && AllIn(newHead, odr.receipts) ==> !failed
      ensures pending == PendingAfter(old(pending), old(mined), old(head), newHead, available, reached)
      // the report
      ensures txc == Report(old(pending), pending, MarkedAgain(old(pending), old(mined), old(head), newHead, available, reached))
      ensures txc == Net(old(pending), pending) <==> MarkedAgain(old(pending), old(mined), old(head), newHead, available, reached) == {}
      ensures old(Valid()) ==> txc == Net(old(pending), pending)
      // conservation
      ensures Known(old(pending), old(mined)) == Known(pending, mined) + discarded && Known(pending, mined) !! discarded
      ensures forall h :: h in dropped ==> (h in old(mined) || IsAncestor(h, newHead)) && BecomesPermanent(h, canonical, 0, newHead.header.number - TX_PERMANENT)
      ensures forall t :: t in discarded ==> exists h :: h in dropped && h.Of? && t in h.header.txs
      ensures failed ==> dropped == {}
      // clearing
      ensures clearIdx == var from := ClearFrom(old(clearIdx), old(head), newHead, available);
                          if !failed && newHead.header.number > from + TX_PERMANENT then newHead.header.number - TX_PERMANENT else from
      ensures forall h :: h in mined && !failed ==>
                !BecomesPermanent(h, canonical, ClearFrom(old(clearIdx), old(head), newHead, available), newHead.header.number - TX_PERMANENT)
      ensures forall h :: h in mined ==> h in old(mined) || IsAncestor(h, newHead)
      // entries and the head's branch
      ensures old(Valid()) ==>
                (Valid() <==>
                 || reached == StopHeight(old(head), newHead, available)
                 || forall h :: h in old(mined) && h !in dropped && h.header.number <= KeptHeight(old(head), newHead, available)
                      ==> h.header.number <= ForkHeight(old(head), newHead))
      ensures old(Valid()) && StopHeight(old(head), newHead, available) == ForkHeight(old(head), newHead) ==>
                && Valid()
                && (Cleared(old(mined), old(clearIdx)) && (failed || Agrees(canonical, newHead)) ==> Cleared(mined, clearIdx))
                && (Cleared(old(mined), old(clearIdx)) && !failed && Agrees(canonical, newHead) ==>
                      forall h :: h in mined ==> h.Of? && h.header.number + TX_PERMANENT >= newHead.header.number)
    {
      hide Books, Known, Net, Report, MinedTxs, Above, Cleared, Linked, Genesis, ForkHeight, StopHeight, KeptHeight,
           KeptEntries, MeetAt, Unmined, Again, Grown, DistinctTxs, OnChain, MarkedAgain, HeadAfter, PendingAfter,
           EntriesLeft, Agrees, StoppedAfter, IsAncestor, ClearFrom, AllIn;
      LinkedIsOf(newHead);
      dropped, discarded := {}, {};
      ghost var a := head;
      txc, failed, reached := MoveTo(newHead, available, odr);
      FailedIs(odr, old(pending), old(mined), a, newHead, available, reached, failed);
      HeadIs(a, newHead, available, reached);
      EntriesFrom(old(mined), mined, a, newHead, available, reached, pending);
      AgainApart(old(pending), old(mined), a, newHead, available, reached);
      HeadAfterRelated(a, newHead, available, reached);
      ReportIsNet(old(pending), pending, MarkedAgain(old(pending), old(mined), a, newHead, available, reached));
      ghost var checked, from := mined, clearIdx;
      if !failed {
        dropped, discarded := ClearOld(newHead.header.number, canonical);
      }
      assert checked - {} == checked;
      if OnChain(old(mined), a) {
        NothingAgain(old(pending), old(mined), a, newHead, available, reached);
        StaysOnChain(old(mined), checked, dropped, a, newHead, available, reached);
        StaysCleared(old(mined), checked, mined, a, newHead, available, canonical, reached, from, clearIdx);
      }
      RecentIs(mined, clearIdx);
    }

    /** Any run of sent transactions and new heads, with headers missing and blocks failing anywhere: the
        books stay in order and no transaction is lost but by becoming permanent. */
    method Run(events: seq<PoolEvent>, ghost genesis: Hash) returns (ghost lost: set<TxId>)
      requires Books(pending, mined) && Linked(head) && Genesis(head) == genesis
      requires forall i :: 0 <= i < |events| ==> EventOk(events[i], genesis)
      modifies this
      ensures Books(pending, mined) && Linked(head) && Genesis(head) == genesis
      ensures forall t :: t in Known(pending, mined) + lost <==> t in Known(old(pending), old(mined)) || Sent(t) in events
      ensures forall t :: t in lost ==> MadePermanent(events, old(mined), t)
      ensures old(Valid()) && NoneMissing(events) ==> Valid()
      ensures old(Valid()) && Recent(old(mined), old(clearIdx), old(head)) && Smooth(events) ==>
                head == LastHead(old(head), events) && Recent(mined, clearIdx, head)
    {
      hide *;
      lost := {};
      ValidIs();
      NoneSeenYet(events, mined);
      LastHeadNone(head);
      for i := 0 to |events|
        invariant Books(pending, mined) && Linked(head) && Genesis(head) == genesis
        invariant forall t :: t in Known(pending, mined) + lost <==> t in Known(old(pending), old(mined)) || Sent(t) in events[..i]
        invariant forall t :: t in lost ==> MadePermanent(events, old(mined), t)
        invariant AllSeen(events, i, old(mined), mined)
        invariant old(Valid()) && NoneMissing(events) ==> OnChain(mined, head)
        invariant old(Valid()) && Recent(old(mined), old(clearIdx), old(head)) && Smooth(events) ==>
                    head == LastHead(old(head), events[..i]) && Recent(mined, clearIdx, head)
      {
        ghost var was := mined;
        assert events[..i + 1] == events[..i] + [events[i]];
        LastHeadNext(old(head), events, i);
        ValidIs();
        match events[i] {
        case Sent(t) =>
          KnownSent(pending, mined, t);
          if t !in pending && !(exists h :: h in mined && t in mined[h]) {
            Add(t);
          }
        case NewHead(newHead, available, odr, canonical) =>
          EventMeans(events[i], genesis, head);
          NoStop(events, i, head);
          RecentParts(mined, clearIdx, head);
          if Smooth(events) {
            SmoothMeans(events, i);
            SmoothParts(events[i]);
          }
          var txc, failed;
          ghost var reached, dropped, discarded;
          txc, failed, reached, dropped, discarded := ReorgOnNewHead(newHead, available, odr, canonical);
          RelatedHead(head, newHead);
          ValidIs();
          RecentParts(mined, clearIdx, head);
          Permanent(events, i, old(mined), was, dropped, discarded);
          lost := lost + discarded;
        }
        SeenNext(events, i, old(mined), was, mined);
      }
      assert events[..|events|] == events;
      ValidIs();
    }
  }
}
