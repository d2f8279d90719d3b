/** The canonical block chain: writing blocks, switching branches, and keeping the number index
    and the transaction lookup index in step with the head. */
module BlockChains {
  import opened Chain
  import opened Reorgs
  import opened Forks

  /** A total difficulty is stored for exactly the stored blocks, and is the sum along the path. */
  ghost predicate TdsOk(blocks: Blocks, tds: map<Hash, nat>) {
    tds.Keys == blocks.Keys && forall h :: h in tds ==> tds[h] == TotalDifficulty(h)
  }

  /** No stored block outweighs the head. */
  ghost predicate Heaviest(blocks: Blocks, head: Hash) {
    forall h :: h in blocks ==> TotalDifficulty(h) <= TotalDifficulty(head)
  }

  lemma StoreKeepsTree(blocks: Blocks, genesis: Hash, block: Header)
    requires Keyed(blocks) && Tree(blocks, genesis) && Linked(Of(block)) && Genesis(Of(block)) == genesis
    requires block.parentHash in blocks
    ensures Keyed(blocks[Of(block) := block]) && Tree(blocks[Of(block) := block], genesis)
  {
    hide Linked, Genesis;
    var after := blocks[Of(block) := block];
    forall h | h in after && h.Of? && h.header.number > 0
      ensures h.header.parentHash in after
    {
      assert h in blocks ==> h.header.parentHash in blocks;
    }
  }

  lemma StoreKeepsTds(blocks: Blocks, tds: map<Hash, nat>, block: Header)
    requires TdsOk(blocks, tds)
    ensures TdsOk(blocks[Of(block) := block], tds[Of(block) := TotalDifficulty(Of(block))])
  {
    hide TotalDifficulty;
  }

  /** Storing a child of a stored block keeps the tree and the total difficulties. */
  lemma StoreChild(blocks: Blocks, tds: map<Hash, nat>, genesis: Hash, block: Header)
    requires Keyed(blocks) && Tree(blocks, genesis) && TdsOk(blocks, tds)
    requires block.parentHash in blocks && block.parentHash.Of? && block.number == block.parentHash.header.number + 1
    ensures Keyed(blocks[Of(block) := block]) && Tree(blocks[Of(block) := block], genesis)
    ensures TdsOk(blocks[Of(block) := block], tds[Of(block) := TotalDifficulty(Of(block))])
    ensures Linked(Of(block))
  {
    assert Linked(block.parentHash) && Genesis(block.parentHash) == genesis;
    assert Linked(Of(block)) && Genesis(Of(block)) == genesis;
    hide *;
    StoreKeepsTree(blocks, genesis, block);
    StoreKeepsTds(blocks, tds, block);
  }

  lemma HeavierStaysHeaviest(blocks: Blocks, head: Hash, block: Header, newHead: Hash)
    requires Heaviest(blocks, head)
    requires TotalDifficulty(head) <= TotalDifficulty(newHead) && TotalDifficulty(Of(block)) <= TotalDifficulty(newHead)
    ensures Heaviest(blocks[Of(block) := block], newHead)
  {
  }

  /** The transactions of `a` whose hash does not occur in `b`. */
  method TxDifference(a: seq<TxId>, b: seq<TxId>) returns (keep: seq<TxId>)
    ensures forall t :: t in keep <==> t in a && t !in b
  {
    var remove: set<TxId> := {};
    for i := 0 to |b|
      invariant forall t :: t in remove <==> t in b[..i]
    {
      remove := remove + {b[i]};
    }
    keep := [];
    for i := 0 to |a|
      invariant forall t :: t in keep <==> t in a[..i] && t !in b
    {
      if a[i] !in remove {
        keep := keep + [a[i]];
      }
    }
  }

  /** A height is assigned exactly when some head of the run reached it. */
  ghost predicate Numbers(index: map<nat, Hash>, heads: seq<Header>) {
    forall n: nat :: n in index <==> exists i :: 0 <= i < |heads| && n <= heads[i].number
  }

  lemma NumbersStart(index: map<nat, Hash>, head: Header)
    requires Linked(Of(head))
    ensures index == Path(Of(head)) ==> Numbers(index, [head])
  {
    assert [head][0] == head;
  }

  lemma NumbersGrow(was: map<nat, Hash>, now: map<nat, Hash>, heads: seq<Header>, head: Header)
    requires Linked(Of(head)) && UpTo(now, head.number) == Path(Of(head))
    requires UpFrom(now, head.number) == UpFrom(was, head.number)
    ensures Numbers(was, heads) ==> Numbers(now, heads + [head])
  {
    hide Linked, Path;
    if Numbers(was, heads) {
      forall n: nat
        ensures n in now <==> exists i :: 0 <= i < |heads + [head]| && n <= (heads + [head])[i].number
      {
        if n <= head.number {
          assert n in UpTo(now, head.number) && (heads + [head])[|heads|] == head;
        } else {
          assert n in now <==> n in UpFrom(now, head.number);
          assert n in was <==> n in UpFrom(was, head.number);
          assert forall i :: 0 <= i < |heads| ==> (heads + [head])[i] == heads[i];
        }
      }
    }
  }

  lemma ExactHeights(index: map<nat, Hash>, heads: seq<Header>)
    requires |heads| > 0
    requires var head := heads[|heads| - 1]; Linked(Of(head)) && UpTo(index, head.number) == Path(Of(head))
    ensures var head := heads[|heads| - 1];
            Numbers(index, heads) ==> (index == Path(Of(head)) <==> forall i :: 0 <= i < |heads| ==> heads[i].number <= head.number)
  {
    var head := heads[|heads| - 1];
    ExactIfNothingAbove(index, Of(head));
    hide Linked, Path;
    if Numbers(index, heads) {
      if i :| 0 <= i < |heads| && heads[i].number > head.number {
        assert heads[i].number in index;
        assert heads[i].number in UpFrom(index, head.number);
      } else {
        assert forall n: nat :: n in index ==> n <= head.number;
        assert UpFrom(index, head.number) == map[];
      }
    }
  }

  class BlockChain {
    const genesis: Header
    var blocks: Blocks
    var tds: map<Hash, nat>
    var canonical: map<nat, Hash>
    var headBlockHash: Hash
    var currentBlock: Header
    var lookup: Lookup

    ghost predicate StoreOk()
      reads this
    {
      Keyed(blocks) && Tree(blocks, Of(genesis)) && TdsOk(blocks, tds) && Of(genesis) in blocks
    }

    /** Up to the head's height, the number index is the path to the head. */
    ghost predicate HeadOk()
      reads this
    {
      && Of(currentBlock) in blocks && headBlockHash == Of(currentBlock) && Linked(Of(currentBlock))
      && UpTo(canonical, currentBlock.number) == Path(Of(currentBlock))
    }

    /** The lookup index is what a scan of the branch to the head would build. */
    ghost predicate LookupOk()
      reads this
    {
      NoRepeats(Of(currentBlock)) && lookup == Scan(Of(currentBlock))
    }

    ghost predicate Valid()
      reads this
    {
      StoreOk() && HeadOk() && Heaviest(blocks, Of(currentBlock))
    }

    constructor (g: Header)
      requires g.number == 0 && g.parentHash == Zero && g.txs == []
      ensures Valid() && LookupOk() && genesis == g && currentBlock == g && blocks == map[Of(g) := g]
    {
      genesis := g;
      blocks := map[Of(g) := g];
      tds := map[Of(g) := g.difficulty];
      canonical := map[0 := Of(g)];
      headBlockHash := Of(g);
      currentBlock := g;
      lookup := map[];
      new;
      assert UpTo(canonical, 0) == map[0 := Of(g)];
    }

    /** Makes a block the head and assigns its number. */
    method Insert(block: Header)
      modifies this`canonical, this`headBlockHash, this`currentBlock
      ensures canonical == old(canonical)[block.number := Of(block)]
      ensures headBlockHash == Of(block) && currentBlock == block
    {
      canonical := canonical[block.number := Of(block)];
      headBlockHash := Of(block);
      currentBlock := block;
    }

    /** Stores the position of every transaction of a block. */
    method WriteTxLookupEntries(block: Header)
      modifies this`lookup
      ensures lookup == old(lookup) + Entries(block)
      ensures AllDiffer(block.txs) ==> forall i :: 0 <= i < |block.txs| ==> block.txs[i] in lookup && lookup[block.txs[i]] == Entry(Of(block), block.number, i)
      ensures forall t :: t !in block.txs ==> (t in lookup <==> t in old(lookup)) && (t in lookup ==> lookup[t] == old(lookup)[t])
    {
      for i := 0 to |block.txs|
        invariant lookup == old(lookup) + EntriesUpTo(block, i)
      {
        MergePut(old(lookup), EntriesUpTo(block, i), block.txs[i], Entry(Of(block), block.number, i));
        lookup := lookup[block.txs[i] := Entry(Of(block), block.number, i)];
      }
      if AllDiffer(block.txs) {
        forall i | 0 <= i < |block.txs|
          ensures block.txs[i] in Entries(block) && Entries(block)[block.txs[i]] == Entry(Of(block), block.number, i)
        {
          EntriesAt(block, |block.txs|, i);
        }
      }
    }

    /** With the lookup index in order, every transaction on the branch to the head is found where it is, under the
        canonical hash of its number, and no other is found. */
    lemma FindsAll(t: TxId)
      requires HeadOk() && LookupOk()
      ensures forall n, i :: SitsAt(Of(currentBlock), n, i, t) ==>
                n in canonical && t in lookup && lookup[t] == Entry(canonical[n], n, i)
      ensures t in lookup ==> exists n, i :: SitsAt(Of(currentBlock), n, i, t)
    {
      hide Linked, Path, NoRepeats, Scan;
      forall n, i | SitsAt(Of(currentBlock), n, i, t)
        ensures n in canonical && t in lookup && lookup[t] == Entry(canonical[n], n, i)
      {
        ScanHolds(Of(currentBlock), n, i, t);
        assert n in UpTo(canonical, currentBlock.number);
      }
      if t in lookup {
        ScanHoldsOnly(Of(currentBlock), t);
      }
    }

    /** Inserts the blocks of a new segment, highest first. */
    method InsertAll(newChain: seq<Header>) returns (addedTxs: seq<TxId>)
      modifies this`canonical, this`headBlockHash, this`currentBlock, this`lookup
      ensures canonical == Renumbered(old(canonical), newChain)
      ensures lookup == old(lookup) + Written(newChain)
      ensures addedTxs == TxsOf(newChain)
    {
      hide Entries;
      addedTxs := [];
      for i := 0 to |newChain|
        invariant Renumbered(canonical, newChain[i..]) == Renumbered(old(canonical), newChain)
        invariant lookup + Written(newChain[i..]) == old(lookup) + Written(newChain)
        invariant addedTxs + TxsOf(newChain[i..]) == TxsOf(newChain)
      {
        assert newChain[i..][1..] == newChain[i + 1..];
        WrittenNext(lookup, newChain, i);
        assert addedTxs + TxsOf(newChain[i..]) == (addedTxs + newChain[i].txs) + TxsOf(newChain[i + 1..]);
        Insert(newChain[i]);
        WriteTxLookupEntries(newChain[i]);
        addedTxs := addedTxs + newChain[i].txs;
      }
    }

    /** Re-routes the number index and the lookup index from the old head's branch to a new block's. */
    method Reorg(oldBlock: Header, newBlock: Header) returns (ok: bool)
      requires Keyed(blocks) && Tree(blocks, Of(genesis)) && Of(oldBlock) in blocks && Of(newBlock) in blocks
      requires Linked(Of(oldBlock)) && UpTo(canonical, oldBlock.number) == Path(Of(oldBlock))
      modifies this`canonical, this`headBlockHash, this`currentBlock, this`lookup
      ensures ok && Linked(Of(newBlock))
      ensures UpTo(canonical, newBlock.number) == Path(Of(newBlock))
      ensures UpFrom(canonical, newBlock.number) == UpFrom(old(canonical), newBlock.number)
      ensures NoRepeats(Of(oldBlock)) && NoRepeats(Of(newBlock)) && old(lookup) == Scan(Of(oldBlock)) ==> lookup == Scan(Of(newBlock))
    {
      hide Path, Genesis, UpTo, UpFrom, Scan, Entries, EntriesUpTo, Written, NoRepeats, Renumbered, TxsOf, Segment;
      var r := FindFork(blocks, oldBlock, newBlock, Of(genesis));
      if !r.Fork? {
        return false;
      }
      var deletedTxs := CollectTxs(r.oldChain);
      ReorgedNumbering(canonical, Of(oldBlock), Of(newBlock), r.common.number);
      var addedTxs := InsertAll(r.newChain);
      var diff := TxDifference(deletedTxs, addedTxs);
      ghost var gone := set t | t in diff;
      if NoRepeats(Of(oldBlock)) && NoRepeats(Of(newBlock)) {
        ReorgedLookup(Of(oldBlock), Of(newBlock), r.common.number, gone);
      }
      DeleteTxLookupEntries(diff);
      return true;
    }

    method CollectTxs(chain: seq<Header>) returns (txs: seq<TxId>)
      ensures txs == TxsOf(chain)
    {
      txs := [];
      for i := 0 to |chain|
        invariant txs + TxsOf(chain[i..]) == TxsOf(chain)
      {
        assert chain[i..][1..] == chain[i + 1..];
        txs := txs + chain[i].txs;
      }
    }

    method DeleteTxLookupEntries(diff: seq<TxId>)
      modifies this`lookup
      ensures lookup == old(lookup) - (set t | t in diff)
    {
      for i := 0 to |diff|
        invariant lookup == old(lookup) - (set t | t in diff[..i])
      {
        lookup := lookup - {diff[i]};
      }
    }

    /** Makes a stored block the head, switching branches if it does not extend the current head. */
    method Advance(block: Header) returns (ok: bool)
      requires Keyed(blocks) && Tree(blocks, Of(genesis)) && HeadOk()
      requires Of(block) in blocks && Linked(Of(block)) && block.number > 0
      modifies this`canonical, this`headBlockHash, this`currentBlock, this`lookup
      ensures ok && HeadOk() && currentBlock == block
      ensures old(LookupOk()) && NoRepeats(Of(block)) ==> lookup + Entries(block) == Scan(Of(block))
      ensures UpFrom(canonical, block.number) == UpFrom(old(canonical), block.number)
    {
      if block.parentHash != Of(currentBlock) {
        ok := Reorg(currentBlock, block);
        if !ok {
          return;
        }
        RewriteIdempotent(block);
        ExtendNumbering(canonical, Of(block), false);
      } else {
        ExtendNumbering(canonical, Of(block), true);
      }
      hide Linked, Path, Genesis, NoRepeats, Tree, Keyed, UpTo, UpFrom;
      Insert(block);
      return true;
    }

    /** Writes a block whose parent is known and, if it outweighs the head, makes it the head;
        a coin decides ties. */
    method WriteBlock(block: Header) returns (status: WriteStatus, err: WriteError)
      requires Valid()
      requires block.parentHash.Of? ==> block.number == block.parentHash.header.number + 1
      modifies this
      ensures Valid()
      ensures err == if block.parentHash in old(blocks) then NoError else UnknownAncestor
      ensures status == NonStat <==> block.parentHash !in old(blocks) || Of(block) in old(blocks)
      ensures blocks == if status == NonStat then old(blocks) else old(blocks)[Of(block) := block]
      ensures currentBlock == if status == CanonStat then block else old(currentBlock)
      ensures status != NonStat && TotalDifficulty(Of(block)) > TotalDifficulty(Of(old(currentBlock))) ==> status == CanonStat
      ensures status != NonStat && TotalDifficulty(Of(block)) < TotalDifficulty(Of(old(currentBlock))) ==> status == SideStat
      ensures UpFrom(canonical, currentBlock.number) == UpFrom(old(canonical), currentBlock.number)
      ensures canonical == Path(Of(currentBlock)) <==> UpFrom(old(canonical), currentBlock.number) == map[]
      ensures status != CanonStat ==> lookup == old(lookup)
      ensures status == CanonStat && old(LookupOk()) && NoRepeats(Of(block)) ==> lookup + Entries(block) == Scan(Of(block))
    {
      hide Linked, Path, Genesis, NoRepeats, Tree, Keyed, UpTo, UpFrom, TotalDifficulty, Scan, Entries, TdsOk, Heaviest;
      KnownTds(block);
      ExactIfNothingAbove(canonical, Of(currentBlock));
      if block.parentHash !in tds {
        return NonStat, UnknownAncestor;
      }
      var ptd := tds[block.parentHash];
      if Of(block) in blocks {
        return NonStat, NoError;
      }
      var localTd := tds[Of(currentBlock)];
      var externTd := block.difficulty + ptd;
      ghost var before, head := blocks, Of(currentBlock);
      Store(block, externTd);
      var coin: bool := *;
      if externTd > localTd || (externTd == localTd && coin) {
        var ok := Advance(block);
        if !ok {
          return NonStat, InvalidChain;
        }
        status := CanonStat;
      } else {
        status := SideStat;
      }
      HeavierStaysHeaviest(before, head, block, Of(currentBlock));
      ExactIfNothingAbove(canonical, Of(currentBlock));
      return status, NoError;
    }

    lemma KnownTds(block: Header)
      requires Valid()
      ensures tds.Keys == blocks.Keys && Of(currentBlock) in tds && tds[Of(currentBlock)] == TotalDifficulty(Of(currentBlock))
      ensures Heaviest(blocks, Of(currentBlock))
      ensures block.parentHash in tds ==> block.parentHash.Of? && block.difficulty + tds[block.parentHash] == TotalDifficulty(Of(block))
    {
      assert block.parentHash in tds ==> Linked(block.parentHash);
    }

    /** Stores a block and its total difficulty. */
    method Store(block: Header, td: nat)
      requires Valid() && block.parentHash in blocks && block.parentHash.Of?
      requires block.number == block.parentHash.header.number + 1 && td == TotalDifficulty(Of(block))
      modifies this`tds, this`blocks
      ensures StoreOk() && HeadOk() && Keyed(blocks) && Tree(blocks, Of(genesis)) && Linked(Of(block))
      ensures blocks == old(blocks)[Of(block) := block] && Of(block) in blocks
    {
      StoreChild(blocks, tds, Of(genesis), block);
      hide Linked, Path, Genesis, NoRepeats, Tree, Keyed, UpTo, TotalDifficulty, Scan;
      tds := tds[Of(block) := td];
      blocks := blocks[Of(block) := block];
    }

    /** One step of a chain import: a block that became the head also gets its lookup entries written. */
    method InsertBlock(block: Header) returns (status: WriteStatus, err: WriteError)
      requires Valid()
      requires block.parentHash.Of? ==> block.number == block.parentHash.header.number + 1
      modifies this
      ensures Valid() && (old(LookupOk()) && NoRepeats(Of(block)) ==> LookupOk())
      ensures err == if block.parentHash in old(blocks) then NoError else UnknownAncestor
      ensures blocks == if err == NoError then old(blocks)[Of(block) := block] else old(blocks)
      ensures currentBlock == if status == CanonStat then block else old(currentBlock)
    {
      hide Linked, Path, Genesis, NoRepeats, Tree, Keyed, UpTo, UpFrom, TotalDifficulty, Scan, Entries, TdsOk, Heaviest;
      KnownAgain(block);
      status, err := WriteBlock(block);
      if err != NoError {
        return;
      }
      if status == CanonStat {
        WriteTxLookupEntries(block);
      }
    }

    lemma KnownAgain(block: Header)
      requires StoreOk()
      ensures Of(block) in blocks ==> blocks[Of(block) := block] == blocks
    {
    }

    /** Imports a run of blocks; it rejects a broken run outright and stops at the first block whose
        parent is unknown.  An interrupt that comes before block `stop` ends the import without
        an error.  Every step keeps all indexes in place. */
    method InsertChain(chain: seq<Header>, stop: nat) returns (index: nat, err: WriteError)
      requires Valid()
      requires |chain| > 0 && chain[0].parentHash.Of? ==> chain[0].number == chain[0].parentHash.header.number + 1
      modifies this
      ensures Valid() && index == 0
      ensures old(LookupOk()) && (forall i :: 0 <= i < |chain| ==> NoRepeats(Of(chain[i]))) ==> LookupOk()
      ensures err == InvalidChain <==> !Contiguous(chain)
      ensures err == UnknownAncestor <==> Contiguous(chain) && |chain| > 0 && stop > 0 && chain[0].parentHash !in old(blocks)
      ensures err == NoError <==> err != InvalidChain && err != UnknownAncestor
      ensures err != NoError ==> blocks == old(blocks)
      ensures err == NoError ==> blocks.Keys == old(blocks).Keys + set i | 0 <= i < |chain| && i < stop :: Of(chain[i])
      ensures TotalDifficulty(Of(currentBlock)) >= TotalDifficulty(Of(old(currentBlock)))
    {
      hide Linked, Path, Genesis, NoRepeats, Tree, Keyed, UpTo, UpFrom, TotalDifficulty, Scan, Entries, TdsOk;
      var broken := BreaksAncestry(chain);
      if broken {
        return 0, InvalidChain;
      }
      var i := 0;
      while i < |chain|
        invariant i <= |chain| && i <= stop && Valid()
        invariant old(LookupOk()) && (forall j :: 0 <= j < |chain| ==> NoRepeats(Of(chain[j]))) ==> LookupOk()
        invariant blocks.Keys == old(blocks).Keys + set j | 0 <= j < i :: Of(chain[j])
        invariant i == 0 ==> blocks == old(blocks)
        invariant i > 0 ==> chain[0].parentHash in old(blocks)
      {
        if i == stop {
          break;
        }
        var status;
        assert i > 0 ==> chain[i].parentHash == Of(chain[i - 1]);
        status, err := InsertBlock(chain[i]);
        if err != NoError {
          return i, err;
        }
        i := i + 1;
      }
      return 0, NoError;
    }

    /** Any run of block writes keeps the index on the heaviest head.  If the index started exact, it
        is exact again at the end if and only if no head of the run was higher than the last. */
    method Run(events: seq<Header>) returns (ghost heads: seq<Header>)
      requires Valid()
      requires forall i :: 0 <= i < |events| && events[i].parentHash.Of? ==> events[i].number == events[i].parentHash.header.number + 1
      modifies this
      ensures Valid()
      ensures |heads| == |events| + 1 && heads[0] == old(currentBlock) && heads[|events|] == currentBlock
      ensures forall i :: 0 <= i < |events| ==> heads[i + 1] == heads[i] || (heads[i + 1] == events[i] && TotalDifficulty(Of(heads[i])) <= TotalDifficulty(Of(events[i])))
      ensures forall h :: h in old(blocks) ==> TotalDifficulty(h) <= TotalDifficulty(Of(currentBlock))
      ensures old(canonical) == Path(Of(old(currentBlock))) ==>
                (canonical == Path(Of(currentBlock)) <==> forall i :: 0 <= i < |heads| ==> heads[i].number <= currentBlock.number)
    {
      hide Linked, Path, Genesis, NoRepeats, Tree, Keyed, UpTo, UpFrom, TotalDifficulty, Scan, Entries, TdsOk;
      NumbersStart(canonical, currentBlock);
      heads := [currentBlock];
      for i := 0 to |events|
        invariant Valid() && old(blocks).Keys <= blocks.Keys
        invariant |heads| == i + 1 && heads[0] == old(currentBlock) && heads[i] == currentBlock
        invariant forall j :: 0 <= j < i ==> heads[j + 1] == heads[j] || (heads[j + 1] == events[j] && TotalDifficulty(Of(heads[j])) <= TotalDifficulty(Of(events[j])))
        invariant old(canonical) == Path(Of(old(currentBlock))) ==> Numbers(canonical, heads)
      {
        ghost var was := canonical;
        var status, err := WriteBlock(events[i]);
        NumbersGrow(was, canonical, heads, currentBlock);
        heads := heads + [currentBlock];
      }
      ExactHeights(canonical, heads);
    }

    method BreaksAncestry(chain: seq<Header>) returns (broken: bool)
      ensures broken <==> !Contiguous(chain)
    {
      var i := 1;
      while i < |chain|
        invariant i >= 1
        invariant forall j :: 0 < j < i && j < |chain| ==> Follows(chain[j - 1], chain[j])
      {
        if chain[i].number != chain[i - 1].number + 1 || chain[i].parentHash != Of(chain[i - 1]) {
          assert !Follows(chain[i - 1], chain[i]);
          return true;
        }
        i := i + 1;
      }
      return false;
    }
  }
}
