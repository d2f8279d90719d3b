/** What a chain reorganisation does to the number index and to the transaction lookup index,
    stated on values. */
module Reorgs {
  import opened Chain

  /** Positional metadata of a transaction: its block, the block's number, its index in the block. */
  datatype Entry = Entry(blockHash: Hash, blockNumber: nat, index: nat)

  type Lookup = map<TxId, Entry>

  /** The entries of the first `i` transactions of a block. */
  function EntriesUpTo(block: Header, i: nat): (m: Lookup)
    requires i <= |block.txs|
    ensures forall t :: t in m <==> t in block.txs[..i]
  {
    if i == 0 then map[]
    else EntriesUpTo(block, i - 1)[block.txs[i - 1] := Entry(Of(block), block.number, i - 1)]
  }

  function Entries(block: Header): Lookup {
    EntriesUpTo(block, |block.txs|)
  }

  /** The lookup index a scan of the whole branch would build. */
  function Scan(h: Hash): Lookup {
    match h
    case Zero => map[]
    case Of(x) => Scan(x.parentHash) + Entries(x)
  }

  /** No transaction occurs twice on the branch. */
  predicate NoRepeats(h: Hash) {
    match h
    case Zero => true
    case Of(x) =>
      && NoRepeats(x.parentHash)
      && (forall i, j :: 0 <= i < j < |x.txs| ==> x.txs[i] != x.txs[j])
      && (forall t :: t in x.txs ==> t !in Scan(x.parentHash))
  }

  /** The blocks of the branch above height `k`, highest first. */
  function Segment(h: Hash, k: nat): (s: seq<Header>)
    requires Linked(h)
    decreases h
  {
    if h.header.number <= k then [] else [h.header] + Segment(h.header.parentHash, k)
  }

  /** What the blocks of `s` contribute to the lookup index, written in the given order. */
  function Written(s: seq<Header>): Lookup {
    if s == [] then map[] else Entries(s[0]) + Written(s[1..])
  }

  function TxsOf(s: seq<Header>): seq<TxId> {
    if s == [] then [] else s[0].txs + TxsOf(s[1..])
  }

  lemma WrittenNext(index: Lookup, s: seq<Header>, i: nat)
    requires i < |s|
    ensures index + Written(s[i..]) == (index + Entries(s[i])) + Written(s[i + 1..])
    ensures TxsOf(s[i..]) == s[i].txs + TxsOf(s[i + 1..])
  {
    hide Entries;
    assert s[i..][1..] == s[i + 1..];
    MergeAssociative(index, Entries(s[i]), Written(s[i + 1..]));
  }

  /** Transaction `i` of the block at height `n` of the branch is `t`. */
  ghost predicate SitsAt(h: Hash, n: nat, i: nat, t: TxId)
    requires Linked(h)
  {
    n in Path(h) && i < |Path(h)[n].header.txs| && Path(h)[n].header.txs[i] == t
  }

  ghost predicate AllDiffer(txs: seq<TxId>) {
    forall i, j :: 0 <= i < j < |txs| ==> txs[i] != txs[j]
  }

  lemma Differ(txs: seq<TxId>, i: nat, j: nat)
    requires AllDiffer(txs) && i < j < |txs|
    ensures txs[i] != txs[j]
  {
  }

  lemma {:induction false} EntriesAt(block: Header, k: nat, i: nat)
    requires i < k <= |block.txs| && AllDiffer(block.txs)
    ensures block.txs[i] in EntriesUpTo(block, k) && EntriesUpTo(block, k)[block.txs[i]] == Entry(Of(block), block.number, i)
    decreases k
  {
    hide AllDiffer;
    if i < k - 1 {
      EntriesAt(block, k - 1, i);
      Differ(block.txs, i, k - 1);
    }
  }

  /** The scan of a branch without repeated transactions holds, for every transaction of every block on it,
      the hash and the number of that block and the position in it. */
  lemma {:induction false} ScanHolds(h: Hash, n: nat, i: nat, t: TxId)
    requires Linked(h) && NoRepeats(h) && SitsAt(h, n, i, t)
    ensures t in Scan(h) && Scan(h)[t] == Entry(Path(h)[n], n, i)
    decreases h
  {
    var x := h.header;
    if n == x.number {
      EntriesAt(x, |x.txs|, i);
    } else {
      ScanHolds(x.parentHash, n, i, t);
      assert t !in x.txs;
    }
  }

  /** And it holds nothing else. */
  lemma {:induction false} ScanHoldsOnly(h: Hash, t: TxId)
    requires Linked(h) && t in Scan(h)
    ensures exists n, i :: SitsAt(h, n, i, t)
    decreases h
  {
    var x := h.header;
    if t in x.txs {
      var i :| 0 <= i < |x.txs| && x.txs[i] == t;
      assert SitsAt(h, x.number, i, t);
    } else if x.number > 0 {
      ScanHoldsOnly(x.parentHash, t);
      var n, i :| SitsAt(x.parentHash, n, i, t);
      assert SitsAt(h, n, i, t);
    }
  }

  lemma {:induction false} WrittenKeys(s: seq<Header>)
    ensures forall t :: t in Written(s) <==> t in TxsOf(s)
  {
    if s != [] {
      WrittenKeys(s[1..]);
    }
  }

  /** A branch's scan is the scan at a lower height plus the segment above it, and the two parts
      speak of different transactions. */
  lemma {:induction false} ScanSplits(h: Hash, k: nat)
    requires Linked(h) && k in Path(h) && NoRepeats(h)
    ensures Scan(h) == Scan(Path(h)[k]) + Written(Segment(h, k))
    ensures Scan(Path(h)[k]).Keys !! Written(Segment(h, k)).Keys
    decreases h
  {
    if h.header.number == k {
      assert Segment(h, k) == [];
    } else {
      var x := h.header;
      ScanSplits(x.parentHash, k);
      var s := Segment(x.parentHash, k);
      assert Segment(h, k)[1..] == s;
      assert Entries(x).Keys !! Scan(x.parentHash).Keys;
      MergeSwap(Scan(Path(h)[k]), Written(s), Entries(x));
    }
  }

  lemma MergeAssociative(a: Lookup, b: Lookup, c: Lookup)
    ensures (a + b) + c == a + (b + c)
  {
  }

  lemma MergePut(a: Lookup, b: Lookup, t: TxId, e: Entry)
    ensures (a + b)[t := e] == a + b[t := e]
  {
  }

  lemma MergeSwap(a: Lookup, b: Lookup, c: Lookup)
    requires (a + b).Keys !! c.Keys
    ensures (a + b) + c == a + (c + b)
  {
  }

  /** The heart of a reorganisation: writing the new segment's entries over the old branch's index
      and deleting the transactions found only on the old segment yields the new branch's index. */
  lemma ReorgedLookup(a: Hash, b: Hash, k: nat, gone: set<TxId>)
    requires Linked(a) && Linked(b) && NoRepeats(a) && NoRepeats(b)
    requires k in Path(a) && k in Path(b) && Path(a)[k] == Path(b)[k]
    requires forall t :: t in gone <==> t in TxsOf(Segment(a, k)) && t !in TxsOf(Segment(b, k))
    ensures (Scan(a) + Written(Segment(b, k))) - gone == Scan(b)
  {
    hide Linked, NoRepeats, Path, Scan, Written, Segment, TxsOf;
    ScanSplits(a, k);
    ScanSplits(b, k);
    WrittenKeys(Segment(a, k));
    WrittenKeys(Segment(b, k));
    ReplaceSegment(Scan(Path(a)[k]), Written(Segment(a, k)), Written(Segment(b, k)), gone);
  }

  lemma ReplaceSegment(base: Lookup, x: Lookup, y: Lookup, gone: set<TxId>)
    requires base.Keys !! x.Keys
    requires gone == x.Keys - y.Keys
    ensures ((base + x) + y) - gone == base + y
  {
  }

  /** Writing a block's own entries again changes nothing. */
  lemma RewriteIdempotent(block: Header)
    ensures Scan(Of(block)) + Entries(block) == Scan(Of(block))
  {
  }

  /** The number index after assigning each block of `s` in turn. */
  function Renumbered(index: map<nat, Hash>, s: seq<Header>): map<nat, Hash>
    decreases |s|
  {
    if s == [] then index else Renumbered(index[s[0].number := Of(s[0])], s[1..])
  }

  /** Although the segment is written highest block first, it ends up as the branch's path. */
  lemma {:induction false} SegmentRenumbers(index: map<nat, Hash>, h: Hash, k: nat)
    requires Linked(h) && k in Path(h)
    ensures Renumbered(index, Segment(h, k)) == Overlay(index, Path(h), k)
    decreases h
  {
    if h.header.number > k {
      var p := h.header.parentHash;
      assert Segment(h, k)[1..] == Segment(p, k);
      SegmentRenumbers(index[h.header.number := h], p, k);
      OverlayLower(index, Path(p), h, k);
    }
  }

  lemma OverlayLower(index: map<nat, Hash>, path: map<nat, Hash>, h: Hash, k: nat)
    requires h.Of? && h.header.number !in path && k < h.header.number
    ensures Overlay(index[h.header.number := h], path, k) == Overlay(index, path[h.header.number := h], k)
  {
  }

  /** After a reorganisation the index up to the new head's height is the new head's path, and
      the assignments above it are those of before. */
  lemma ReorgedNumbering(index: map<nat, Hash>, a: Hash, b: Hash, k: nat)
    requires Linked(a) && Linked(b) && UpTo(index, a.header.number) == Path(a)
    requires k in Path(a) && k in Path(b) && Path(a)[k] == Path(b)[k]
    ensures UpTo(Renumbered(index, Segment(b, k)), b.header.number) == Path(b)
    ensures UpFrom(Renumbered(index, Segment(b, k)), b.header.number) == UpFrom(index, b.header.number)
  {
    hide Linked, Path, Renumbered, Segment;
    SegmentRenumbers(index, b, k);
    forall n: nat | n <= k
      ensures n in index && index[n] == Path(b)[n]
    {
      AgreeBelow(a, b, k, n);
      assert n in UpTo(index, a.header.number) && UpTo(index, a.header.number)[n] == index[n];
    }
  }

  lemma {:induction false} SegmentExtends(h: Hash, m: nat)
    requires Linked(h) && m in Path(h) && m > 0
    ensures Segment(h, m - 1) == Segment(h, m) + [Path(h)[m].header]
    decreases h
  {
    if h.header.number > m {
      SegmentExtends(h.header.parentHash, m);
    }
  }

  lemma UpToPut(index: map<nat, Hash>, k: nat, h: Hash)
    requires k > 0
    ensures UpTo(index[k := h], k) == UpTo(index, k - 1)[k := h]
    ensures UpFrom(index[k := h], k) == UpFrom(index, k)
  {
  }

  /** Assigning the head's own number completes its parent's numbering, and confirms its own. */
  lemma ExtendNumbering(index: map<nat, Hash>, h: Hash, fromParent: bool)
    requires Linked(h) && h.header.number > 0
    requires if fromParent then Linked(h.header.parentHash) && UpTo(index, h.header.number - 1) == Path(h.header.parentHash)
             else UpTo(index, h.header.number) == Path(h)
    ensures UpTo(index[h.header.number := h], h.header.number) == Path(h)
    ensures UpFrom(index[h.header.number := h], h.header.number) == UpFrom(index, h.header.number)
  {
    var k := h.header.number;
    UpToPut(index, k, h);
    if !fromParent {
      assert k in UpTo(index, k);
      assert index[k := h] == index;
    }
  }

  /** An index that is the head's path up to the head's height is that path if nothing lies above. */
  lemma ExactIfNothingAbove(index: map<nat, Hash>, h: Hash)
    requires Linked(h) && UpTo(index, h.header.number) == Path(h)
    ensures index == Path(h) <==> UpFrom(index, h.header.number) == map[]
  {
    if UpFrom(index, h.header.number) == map[] {
      assert forall n: nat :: n in index ==> n !in UpFrom(index, h.header.number);
      assert UpTo(index, h.header.number) == index;
    }
  }

  /** Switching from branch `a` to branch `b` turns the path of one into the path of the other if
      and only if `b` is no shorter. */
  lemma ReorgExact(a: Hash, b: Hash, k: nat)
    requires Linked(a) && Linked(b) && k in Path(a) && k in Path(b) && Path(a)[k] == Path(b)[k]
    ensures Renumbered(Path(a), Segment(b, k)) == Path(b) <==> a.header.number <= b.header.number
  {
    hide Linked, Path, Renumbered, Segment, UpTo, UpFrom;
    PathUpTo(a, b.header.number);
    ReorgedNumbering(Path(a), a, b, k);
    ExactIfNothingAbove(Renumbered(Path(a), Segment(b, k)), b);
  }

  lemma PathUpTo(a: Hash, k: nat)
    requires Linked(a)
    ensures UpTo(Path(a), a.header.number) == Path(a)
    ensures UpFrom(Path(a), k) == map[] <==> a.header.number <= k
  {
    hide Path;
    assert UpTo(Path(a), a.header.number) == Path(a);
    if a.header.number > k {
      assert a.header.number in UpFrom(Path(a), k);
    } else {
      assert UpFrom(Path(a), k) == map[];
    }
  }

  /** A reorganisation onto a shorter, heavier branch does leave an assignment above the new head. */
  lemma StaleNumberRemains()
    ensures exists a: Hash, b: Hash, k: nat ::
              && Linked(a) && Linked(b) && k in Path(a) && k in Path(b) && Path(a)[k] == Path(b)[k]
              && TotalDifficulty(b) > TotalDifficulty(a)
              && Renumbered(Path(a), Segment(b, k)) != Path(b)
  {
    var g := Of(Header(Zero, 0, 1, [], 0));
    var a1 := Of(Header(g, 1, 1, [], 0));
    var a2 := Of(Header(a1, 2, 1, [], 0));
    var b1 := Of(Header(g, 1, 9, [], 1));
    assert Linked(g) && Linked(a1) && Linked(a2) && Linked(b1);
    assert Path(g) == map[0 := g];
    assert Path(a1) == Path(g)[1 := a1];
    assert Path(a2)[0] == g && Path(b1)[0] == g;
    assert Segment(b1, 0) == [b1.header];
    var index := Renumbered(Path(a2), Segment(b1, 0));
    assert [b1.header][1..] == [] && index == Renumbered(Path(a2)[1 := b1], []);
    assert 2 in index && 2 !in Path(b1);
    assert TotalDifficulty(a1) == 2 && TotalDifficulty(a2) == 3 && TotalDifficulty(b1) == 10;
  }
}
