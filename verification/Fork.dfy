/** Walking two branches of the block tree back to where they meet. */
module Forks {
  import opened Options
  import opened Chain
  import opened Reorgs

  type Blocks = map<Hash, Header>

  /** Each block is stored under its own hash. */
  ghost predicate Keyed(blocks: Blocks) {
    forall h :: h in blocks ==> h == Of(blocks[h])
  }

  /** Every stored block descends from the genesis through stored blocks. */
  ghost predicate Tree(blocks: Blocks, genesis: Hash) {
    && (forall h {:trigger Linked(h)} {:trigger Genesis(h)} ::
          h in blocks ==> h.Of? && Linked(h) && Genesis(h) == genesis)
    && (forall h {:trigger h.header.parentHash in blocks} ::
          h in blocks && h.Of? && h.header.number > 0 ==> h.header.parentHash in blocks)
  }

  function GetBlock(blocks: Blocks, hash: Hash): Option<Header> {
    if hash in blocks then Some(blocks[hash]) else None
  }

  /** `o` is a stored block on the path to `h`. */
  ghost predicate OnPath(o: Option<Header>, h: Hash, blocks: Blocks) {
    && o.Some? && Of(o.value) in blocks && Linked(h)
    && o.value.number in Path(h) && Of(o.value) == Path(h)[o.value.number]
  }

  /** In addition, `chain` is what lies above it. */
  ghost predicate WalkedTo(o: Option<Header>, chain: seq<Header>, h: Hash, blocks: Blocks) {
    OnPath(o, h, blocks) && chain == Segment(h, o.value.number)
  }

  lemma ParentOnPath(o: Header, h: Hash, blocks: Blocks, genesis: Hash)
    requires Keyed(blocks) && Tree(blocks, genesis) && OnPath(Some(o), h, blocks) && o.number > 0
    ensures GetBlock(blocks, o.parentHash).Some? && OnPath(GetBlock(blocks, o.parentHash), h, blocks)
    ensures GetBlock(blocks, o.parentHash).value.number == o.number - 1
  {
    PathStep(h, o.number);
    assert Of(o) in blocks && Of(o).header.parentHash in blocks;
  }

  lemma WalkStep(o: Header, chain: seq<Header>, h: Hash, blocks: Blocks, genesis: Hash)
    requires Keyed(blocks) && Tree(blocks, genesis) && WalkedTo(Some(o), chain, h, blocks) && o.number > 0
    ensures GetBlock(blocks, o.parentHash).Some? && WalkedTo(GetBlock(blocks, o.parentHash), chain + [o], h, blocks)
    ensures GetBlock(blocks, o.parentHash).value.number == o.number - 1
  {
    ParentOnPath(o, h, blocks, genesis);
    SegmentExtends(h, o.number);
  }

  datatype ForkResult = Fork(common: Header, oldChain: seq<Header>, newChain: seq<Header>)
                      | InvalidOldChain
                      | InvalidNewChain

  /** The branches to `a` and `b` meet at height `k` and nowhere above. */
  ghost predicate MeetAt(a: Hash, b: Hash, k: nat) {
    && Linked(a) && Linked(b) && k in Path(a) && k in Path(b) && Path(a)[k] == Path(b)[k]
    && forall n: nat :: n > k && n in Path(a) && n in Path(b) ==> Path(a)[n] != Path(b)[n]
  }

  /** The branches differ at every height above `k` that both reach. */
  ghost predicate DifferAbove(a: Hash, b: Hash, k: nat) {
    && Linked(a) && Linked(b)
    && forall n: nat :: n > k && n in Path(a) && n in Path(b) ==> Path(a)[n] != Path(b)[n]
  }

  /** The highest height up to `k` at which the branches agree. */
  ghost function AgreeUpTo(a: Hash, b: Hash, k: nat): (r: nat)
    requires Linked(a) && Linked(b) && Genesis(a) == Genesis(b) && k in Path(a) && k in Path(b)
    ensures r <= k && Path(a)[r] == Path(b)[r]
    ensures forall n: nat :: r < n <= k ==> Path(a)[n] != Path(b)[n]
  {
    PathStartsAtGenesis(a);
    PathStartsAtGenesis(b);
    if Path(a)[k] == Path(b)[k] then k else AgreeUpTo(a, b, k - 1)
  }

  /** The height at which two branches of one tree meet. */
  ghost function ForkHeight(a: Hash, b: Hash): (k: nat)
    requires Linked(a) && Linked(b) && Genesis(a) == Genesis(b)
    ensures MeetAt(a, b, k)
  {
    AgreeUpTo(a, b, if a.header.number <= b.header.number then a.header.number else b.header.number)
  }

  lemma TopOnPath(block: Header, blocks: Blocks, genesis: Hash)
    requires Keyed(blocks) && Tree(blocks, genesis) && Of(block) in blocks
    ensures OnPath(Some(block), Of(block), blocks) && WalkedTo(Some(block), [], Of(block), blocks)
  {
    assert Linked(Of(block));
  }

  lemma StartDiffer(a: Hash, b: Hash, k: nat, blocks: Blocks, genesis: Hash)
    requires Tree(blocks, genesis) && a in blocks && b in blocks && a.Of? && b.Of?
    requires k >= a.header.number || k >= b.header.number
    ensures DifferAbove(a, b, k)
  {
    assert Linked(a) && Linked(b);
  }

  /** Two different blocks at the same height are not the root, and the branches differ there. */
  lemma StillApart(x: Header, y: Header, a: Hash, b: Hash, blocks: Blocks, genesis: Hash)
    requires Tree(blocks, genesis) && a in blocks && b in blocks
    requires OnPath(Some(x), a, blocks) && OnPath(Some(y), b, blocks) && x.number == y.number && x != y
    requires DifferAbove(a, b, x.number)
    ensures x.number > 0 && DifferAbove(a, b, x.number - 1)
  {
    PathStartsAtGenesis(a);
    PathStartsAtGenesis(b);
  }

  lemma Meet(x: Header, a: Hash, b: Hash, blocks: Blocks)
    requires OnPath(Some(x), a, blocks) && OnPath(Some(x), b, blocks) && DifferAbove(a, b, x.number)
    ensures MeetAt(a, b, x.number) && Of(x) == Path(a)[x.number]
  {
  }

  /** Collects a branch's blocks down to a given height. */
  method WalkDown(blocks: Blocks, block: Header, height: nat, ghost genesis: Hash) returns (o: Option<Header>, chain: seq<Header>)
    requires Keyed(blocks) && Tree(blocks, genesis) && Of(block) in blocks && height <= block.number
    ensures o.Some? && WalkedTo(o, chain, Of(block), blocks) && o.value.number == height
  {
    o, chain := Some(block), [];
    while o != None && o.value.number != height
      invariant WalkedTo(o, chain, Of(block), blocks) && o.value.number >= height
      decreases o.value.number
    {
      WalkStep(o.value, chain, Of(block), blocks, genesis);
      chain := chain + [o.value];
      o := GetBlock(blocks, o.value.parentHash);
    }
  }

  /** Two stored blocks of one tree always have a highest common ancestor, and the walk finds it:
      neither error can occur. */
  method FindFork(blocks: Blocks, oldBlock: Header, newBlock: Header, ghost genesis: Hash) returns (r: ForkResult)
    requires Keyed(blocks) && Tree(blocks, genesis) && Of(oldBlock) in blocks && Of(newBlock) in blocks
    ensures r.Fork? && MeetAt(Of(oldBlock), Of(newBlock), r.common.number)
    ensures Of(r.common) == Path(Of(oldBlock))[r.common.number]
    ensures r.oldChain == Segment(Of(oldBlock), r.common.number)
    ensures r.newChain == Segment(Of(newBlock), r.common.number)
  {
    hide *;
    ghost var a, b := Of(oldBlock), Of(newBlock);
    var o, n := Some(oldBlock), Some(newBlock);
    var oldChain: seq<Header>, newChain: seq<Header> := [], [];
    TopOnPath(oldBlock, blocks, genesis);
    TopOnPath(newBlock, blocks, genesis);
    if oldBlock.number > newBlock.number {
      o, oldChain := WalkDown(blocks, oldBlock, newBlock.number, genesis);
    } else {
      n, newChain := WalkDown(blocks, newBlock, oldBlock.number, genesis);
    }
    if o == None {
      return InvalidOldChain;
    }
    if n == None {
      return InvalidNewChain;
    }
    StartDiffer(a, b, o.value.number, blocks, genesis);
    while Of(o.value) != Of(n.value)
      invariant o.Some? && n.Some? && WalkedTo(o, oldChain, a, blocks) && WalkedTo(n, newChain, b, blocks)
      invariant o.value.number == n.value.number && DifferAbove(a, b, o.value.number)
      decreases o.value.number
    {
      Walked(o, oldChain, a, blocks);
      Walked(n, newChain, b, blocks);
      StillApart(o.value, n.value, a, b, blocks, genesis);
      WalkStep(o.value, oldChain, a, blocks, genesis);
      WalkStep(n.value, newChain, b, blocks, genesis);
      oldChain := oldChain + [o.value];
      newChain := newChain + [n.value];
      o, n := GetBlock(blocks, o.value.parentHash), GetBlock(blocks, n.value.parentHash);
      if o == None {
        return InvalidOldChain;
      }
      if n == None {
        return InvalidNewChain;
      }
    }
    Walked(o, oldChain, a, blocks);
    Walked(n, newChain, b, blocks);
    Meet(o.value, a, b, blocks);
    return Fork(o.value, oldChain, newChain);
  }

  lemma Walked(o: Option<Header>, chain: seq<Header>, h: Hash, blocks: Blocks)
    requires WalkedTo(o, chain, h, blocks)
    ensures o.Some? && OnPath(o, h, blocks) && chain == Segment(h, o.value.number)
  {
  }

  /** The last common ancestor of two headers, found by the same walk without keeping the segments. */
  method FindCommonAncestor(headers: Blocks, a: Header, b: Header, ghost genesis: Hash) returns (r: Option<Header>)
    requires Keyed(headers) && Tree(headers, genesis) && Of(a) in headers && Of(b) in headers
    ensures r.Some? && MeetAt(Of(a), Of(b), r.value.number) && Of(r.value) == Path(Of(a))[r.value.number]
  {
    hide *;
    var x, y := Some(a), Some(b);
    TopOnPath(a, headers, genesis);
    TopOnPath(b, headers, genesis);
    while x.value.number > b.number
      invariant x.Some? && OnPath(x, Of(a), headers)
      invariant x.value.number >= b.number || x == Some(a)
      decreases x.value.number
    {
      ParentOnPath(x.value, Of(a), headers, genesis);
      x := GetBlock(headers, x.value.parentHash);
      if x == None {
        return None;
      }
    }
    var an := x.value.number;
    StartDiffer(Of(a), Of(b), an, headers, genesis);
    while an < y.value.number
      invariant y.Some? && OnPath(y, Of(b), headers)
      invariant y.value.number >= an
      decreases y.value.number
    {
      ParentOnPath(y.value, Of(b), headers, genesis);
      y := GetBlock(headers, y.value.parentHash);
      if y == None {
        return None;
      }
    }
    while Of(x.value) != Of(y.value)
      invariant x.Some? && y.Some? && OnPath(x, Of(a), headers) && OnPath(y, Of(b), headers)
      invariant x.value.number == y.value.number && DifferAbove(Of(a), Of(b), x.value.number)
      decreases x.value.number
    {
      StillApart(x.value, y.value, Of(a), Of(b), headers, genesis);
      ParentOnPath(x.value, Of(a), headers, genesis);
      ParentOnPath(y.value, Of(b), headers, genesis);
      x := GetBlock(headers, x.value.parentHash);
      if x == None {
        return None;
      }
      y := GetBlock(headers, y.value.parentHash);
      if y == None {
        return None;
      }
    }
    Meet(x.value, Of(a), Of(b), headers);
    return x;
  }
}
