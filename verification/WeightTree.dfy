/** The tree behind weighted random selection, and the flat row of cells it stands for. */
module WeightTrees {
  type Item = nat

  const BRANCHES: nat := 8

  datatype Slot = Nil | Entry(item: Item) | Sub(node: Node)

  /** A node holds eight slots: items at level 0, subtrees above. */
  datatype Node = Node(level: nat, items: seq<Slot>, weights: seq<nat>, sum: nat, count: nat)

  datatype Cell = Free | Taken(item: Item, weight: nat)

  /** The number of items a node of a level can hold. */
  function Capacity(level: nat): (c: nat)
    ensures c > 0
  {
    if level == 0 then BRANCHES else BRANCHES * Capacity(level - 1)
  }

  ghost function Frees(n: nat): seq<Cell> {
    seq(n, _ => Free)
  }

  // ------------------------------------------------------------------ the row of cells

  /** The cells of a tree, in index order. */
  ghost function Flat(n: Node): seq<Cell>
    decreases n.level, 0
  {
    if n.level == 0 then LeafCells(n.items, n.weights) else FlatSlots(n.items, n.level - 1)
  }

  ghost function LeafCells(items: seq<Slot>, weights: seq<nat>): seq<Cell> {
    seq(|items|, i requires 0 <= i < |items| => if items[i].Entry? && i < |weights| then Taken(items[i].item, weights[i]) else Free)
  }

  ghost function FlatSlots(items: seq<Slot>, level: nat): seq<Cell>
    decreases level, |items| + 1
  {
    if items == [] then [] else FlatSlot(items[0], level) + FlatSlots(items[1..], level)
  }

  ghost function FlatSlot(s: Slot, level: nat): seq<Cell>
    decreases level, 1
  {
    if s.Sub? && s.node.level == level then Flat(s.node) else Frees(Capacity(level))
  }

  ghost function WeightOf(c: Cell): nat {
    if c == Free then 0 else c.weight
  }

  ghost function Weight(cells: seq<Cell>): nat {
    if cells == [] then 0 else WeightOf(cells[0]) + Weight(cells[1..])
  }

  ghost function Count(cells: seq<Cell>): nat {
    if cells == [] then 0 else (if cells[0] == Free then 0 else 1) + Count(cells[1..])
  }

  // ------------------------------------------------------------------ well-formed trees

  function Total(weights: seq<nat>): nat {
    if weights == [] then 0 else weights[0] + Total(weights[1..])
  }

  function CountOf(s: Slot): nat {
    match s
    case Nil => 0
    case Entry(_) => 1
    case Sub(node) => node.count
  }

  function Counts(items: seq<Slot>): nat {
    if items == [] then 0 else CountOf(items[0]) + Counts(items[1..])
  }

  /** A slot of a level-0 node is empty or an item of positive weight. */
  predicate LeafSlot(s: Slot, weight: nat) {
    !s.Sub? && (s == Nil <==> weight == 0)
  }

  /** A slot of a higher node is empty or a well-formed subtree of the next lower level. */
  ghost predicate InnerSlot(s: Slot, weight: nat, level: nat)
    decreases level, 1
  {
    if s == Nil then weight == 0
    else s.Sub? && s.node.level == level && WellFormed(s.node) && weight == s.node.sum
  }

  ghost predicate WellFormed(n: Node)
    decreases n.level, 0
  {
    && |n.items| == BRANCHES && |n.weights| == BRANCHES
    && n.sum == Total(n.weights) && n.count == Counts(n.items)
    && (forall i {:trigger n.items[i]} :: 0 <= i < BRANCHES ==>
          if n.level == 0 then LeafSlot(n.items[i], n.weights[i]) else InnerSlot(n.items[i], n.weights[i], n.level - 1))
  }

  // ------------------------------------------------------------------ sums over rows

  lemma {:induction false} RowConcat(a: seq<Cell>, b: seq<Cell>)
    ensures Weight(a + b) == Weight(a) + Weight(b) && Count(a + b) == Count(a) + Count(b)
    decreases |a|
  {
    if a == [] {
      assert a + b == b;
    } else {
      assert (a + b)[1..] == a[1..] + b;
      RowConcat(a[1..], b);
    }
  }

  lemma {:induction false} FreesEmpty(n: nat)
    ensures Weight(Frees(n)) == 0 && Count(Frees(n)) == 0
  {
    if n > 0 {
      assert Frees(n)[1..] == Frees(n - 1);
      FreesEmpty(n - 1);
    }
  }

  lemma {:induction false} CountBounds(cells: seq<Cell>, k: nat)
    requires k < |cells|
    ensures Count(cells) <= |cells| && (Count(cells) == |cells| ==> cells[k] != Free)
  {
    if |cells| > 1 {
      CountBounds(cells[1..], if k > 0 then k - 1 else 0);
    }
  }

  lemma {:induction false} TotalPut(weights: seq<nat>, b: nat, w: nat)
    requires b < |weights|
    ensures Total(weights[b := w]) == Total(weights) - weights[b] + w
  {
    if b > 0 {
      assert weights[b := w][1..] == weights[1..][b - 1 := w];
      TotalPut(weights[1..], b - 1, w);
    }
  }

  lemma {:induction false} CountsPut(items: seq<Slot>, b: nat, s: Slot)
    requires b < |items|
    ensures Counts(items[b := s]) == Counts(items) - CountOf(items[b]) + CountOf(s)
  {
    if b > 0 {
      assert items[b := s][1..] == items[1..][b - 1 := s];
      CountsPut(items[1..], b - 1, s);
    }
  }

  // ------------------------------------------------------------------ what a well-formed tree stands for

  lemma {:induction false} LeafFacts(items: seq<Slot>, weights: seq<nat>)
    requires |items| == |weights| && forall i :: 0 <= i < |items| ==> LeafSlot(items[i], weights[i])
    ensures Weight(LeafCells(items, weights)) == Total(weights) && Count(LeafCells(items, weights)) == Counts(items)
    decreases |items|
  {
    if items != [] {
      assert LeafCells(items, weights)[1..] == LeafCells(items[1..], weights[1..]);
      LeafFacts(items[1..], weights[1..]);
    }
  }

  lemma {:induction false} SlotsFacts(items: seq<Slot>, weights: seq<nat>, level: nat)
    requires |items| == |weights| && forall i {:trigger items[i]} :: 0 <= i < |items| ==> InnerSlot(items[i], weights[i], level)
    ensures |FlatSlots(items, level)| == |items| * Capacity(level)
    ensures Weight(FlatSlots(items, level)) == Total(weights) && Count(FlatSlots(items, level)) == Counts(items)
    decreases level, |items| + 1
  {
    hide InnerSlot, FlatSlot, CountOf;
    if items != [] {
      var c := Capacity(level);
      assert |items| * c == c + (|items| - 1) * c;
      SlotFacts(items[0], weights[0], level);
      SlotsFacts(items[1..], weights[1..], level);
      RowConcat(FlatSlot(items[0], level), FlatSlots(items[1..], level));
    }
  }

  lemma {:induction false} SlotFacts(s: Slot, weight: nat, level: nat)
    requires InnerSlot(s, weight, level)
    ensures |FlatSlot(s, level)| == Capacity(level)
    ensures Weight(FlatSlot(s, level)) == weight && Count(FlatSlot(s, level)) == CountOf(s)
    decreases level, 1
  {
    if s == Nil {
      FreesEmpty(Capacity(level));
    } else {
      FlatFacts(s.node);
    }
  }

  /** A tree's stored sums agree with its cells. */
  lemma {:induction false} FlatFacts(n: Node)
    requires WellFormed(n)
    ensures |Flat(n)| == Capacity(n.level) && Weight(Flat(n)) == n.sum && Count(Flat(n)) == n.count
    decreases n.level, 0
  {
    if n.level == 0 {
      LeafFacts(n.items, n.weights);
    } else {
      SlotsFacts(n.items, n.weights, n.level - 1);
    }
  }

  // ------------------------------------------------------------------ one slot of a node

  lemma {:induction false} SlotsConcat(a: seq<Slot>, b: seq<Slot>, level: nat)
    ensures FlatSlots(a + b, level) == FlatSlots(a, level) + FlatSlots(b, level)
    decreases |a|
  {
    if a == [] {
      assert a + b == b;
    } else {
      assert (a + b)[1..] == a[1..] + b;
      SlotsConcat(a[1..], b, level);
    }
  }

  lemma SlotsSplit(items: seq<Slot>, level: nat, b: nat)
    requires b < |items|
    ensures FlatSlots(items, level) == FlatSlots(items[..b], level) + FlatSlot(items[b], level) + FlatSlots(items[b + 1..], level)
  {
    assert items == items[..b] + items[b..];
    SlotsConcat(items[..b], items[b..], level);
    assert items[b..][1..] == items[b + 1..];
  }

  /** The cells of slot `b` start at index `b * Capacity(level)`. */
  lemma SlotPlace(items: seq<Slot>, weights: seq<nat>, level: nat, b: nat)
    requires |items| == |weights| && b < |items|
    requires forall i {:trigger items[i]} :: 0 <= i < |items| ==> InnerSlot(items[i], weights[i], level)
    ensures |FlatSlots(items[..b], level)| == b * Capacity(level) && |FlatSlot(items[b], level)| == Capacity(level)
    ensures b * Capacity(level) + Capacity(level) <= |FlatSlots(items, level)|
  {
    SlotsFacts(items[..b], weights[..b], level);
    SlotFacts(items[b], weights[b], level);
    SlotsSplit(items, level, b);
  }

  lemma SlotPut(items: seq<Slot>, weights: seq<nat>, level: nat, b: nat, s: Slot, j: nat, cell: Cell)
    requires |items| == |weights| && b < |items| && j < Capacity(level)
    requires forall i {:trigger items[i]} :: 0 <= i < |items| ==> InnerSlot(items[i], weights[i], level)
    requires |FlatSlot(items[b], level)| == Capacity(level) && FlatSlot(s, level) == FlatSlot(items[b], level)[j := cell]
    ensures b * Capacity(level) + j < |FlatSlots(items, level)|
    ensures FlatSlots(items[b := s], level) == FlatSlots(items, level)[b * Capacity(level) + j := cell]
    ensures FlatSlots(items, level)[b * Capacity(level) + j] == FlatSlot(items[b], level)[j]
  {
    SlotPlace(items, weights, level, b);
    SlotsSplit(items, level, b);
    SlotsSplit(items[b := s], level, b);
    assert items[b := s][..b] == items[..b] && items[b := s][b + 1..] == items[b + 1..];
    var pre, mid, post := FlatSlots(items[..b], level), FlatSlot(items[b], level), FlatSlots(items[b + 1..], level);
    PutInMiddle(pre, mid, post, j, cell);
  }

  lemma PutInMiddle(pre: seq<Cell>, mid: seq<Cell>, post: seq<Cell>, j: nat, cell: Cell)
    requires j < |mid|
    ensures (pre + mid + post)[|pre| + j := cell] == pre + mid[j := cell] + post
    ensures (pre + mid + post)[|pre| + j] == mid[j]
  {
  }

  /** A node with slot `b` replaced and its stored sums adjusted. */
  function Patched(n: Node, b: nat, s: Slot, weight: nat): Node
    requires b < |n.items| && b < |n.weights| && n.weights[b] <= n.sum && CountOf(n.items[b]) <= n.count
  {
    n.(items := n.items[b := s], weights := n.weights[b := weight],
       sum := n.sum - n.weights[b] + weight, count := n.count - CountOf(n.items[b]) + CountOf(s))
  }

  lemma {:induction false} SumsBound(n: Node, b: nat)
    requires WellFormed(n) && b < BRANCHES
    ensures n.weights[b] <= n.sum && CountOf(n.items[b]) <= n.count
  {
    TotalPut(n.weights, b, 0);
    CountsPut(n.items, b, Nil);
  }

  /** Replacing a slot of a level-0 node changes one cell. */
  lemma PatchLeaf(n: Node, b: nat, s: Slot, weight: nat)
    requires WellFormed(n) && n.level == 0 && b < BRANCHES && LeafSlot(s, weight)
    ensures |Flat(n)| == BRANCHES && n.weights[b] <= n.sum && CountOf(n.items[b]) <= n.count
    ensures var m := Patched(n, b, s, weight);
            WellFormed(m) && Flat(m) == Flat(n)[b := if s == Nil then Free else Taken(s.item, weight)]
  {
    SumsBound(n, b);
    TotalPut(n.weights, b, weight);
    CountsPut(n.items, b, s);
    hide Total, Counts;
  }

  lemma PatchInnerForm(n: Node, b: nat, s: Slot, weight: nat)
    requires WellFormed(n) && n.level > 0 && b < BRANCHES && InnerSlot(s, weight, n.level - 1)
    ensures n.weights[b] <= n.sum && CountOf(n.items[b]) <= n.count && WellFormed(Patched(n, b, s, weight))
  {
    SumsBound(n, b);
    TotalPut(n.weights, b, weight);
    CountsPut(n.items, b, s);
    hide Total, Counts, InnerSlot, CountOf;
  }

  /** Replacing a slot of a higher node by a subtree that differs in one cell changes one cell. */
  lemma PatchInner(n: Node, b: nat, s: Slot, weight: nat, j: nat, cell: Cell)
    requires WellFormed(n) && n.level > 0 && b < BRANCHES && InnerSlot(s, weight, n.level - 1) && j < Capacity(n.level - 1)
    requires |FlatSlot(n.items[b], n.level - 1)| == Capacity(n.level - 1)
    requires FlatSlot(s, n.level - 1) == FlatSlot(n.items[b], n.level - 1)[j := cell]
    ensures n.weights[b] <= n.sum && CountOf(n.items[b]) <= n.count && b * Capacity(n.level - 1) + j < |Flat(n)|
    ensures var m := Patched(n, b, s, weight);
            WellFormed(m) && Flat(m) == Flat(n)[b * Capacity(n.level - 1) + j := cell]
    ensures Flat(n)[b * Capacity(n.level - 1) + j] == FlatSlot(n.items[b], n.level - 1)[j]
  {
    PatchInnerForm(n, b, s, weight);
    SlotPut(n.items, n.weights, n.level - 1, b, s, j, cell);
    hide Total, Counts, FlatSlots, FlatSlot, InnerSlot, CountOf, Capacity;
  }

  // ------------------------------------------------------------------ insert

  /** The number of items one slot can hold. */
  function SlotCapacity(level: nat): nat {
    if level == 0 then 1 else Capacity(level - 1)
  }

  lemma {:induction false} FullSlots(items: seq<Slot>, cap: nat)
    requires forall i {:trigger items[i]} :: 0 <= i < |items| ==> CountOf(items[i]) == cap
    ensures Counts(items) == |items| * cap
    decreases |items|
  {
    if items != [] {
      FullSlots(items[1..], cap);
      assert |items| * cap == cap + (|items| - 1) * cap;
    }
  }

  /** A node with room has a slot with room. */
  lemma RoomSomewhere(n: Node)
    requires WellFormed(n) && n.count < Capacity(n.level)
    ensures exists b :: 0 <= b < BRANCHES && CountOf(n.items[b]) != SlotCapacity(n.level)
  {
    if forall b :: 0 <= b < BRANCHES ==> CountOf(n.items[b]) == SlotCapacity(n.level) {
      FullSlots(n.items, SlotCapacity(n.level));
      assert false;
    }
  }

  function EmptyNode(level: nat): Node {
    Node(level, seq(BRANCHES, _ => Nil), seq(BRANCHES, _ => 0), 0, 0)
  }

  lemma {:induction false} FreeSlots(items: seq<Slot>, level: nat)
    requires forall i {:trigger items[i]} :: 0 <= i < |items| ==> items[i] == Nil
    ensures FlatSlots(items, level) == Frees(|items| * Capacity(level)) && Counts(items) == 0
    decreases |items|
  {
    if items != [] {
      var c := Capacity(level);
      assert |items| * c == c + (|items| - 1) * c;
      FreeSlots(items[1..], level);
    }
  }

  lemma {:induction false} ZeroTotal(weights: seq<nat>)
    requires forall i :: 0 <= i < |weights| ==> weights[i] == 0
    ensures Total(weights) == 0
  {
    if weights != [] {
      ZeroTotal(weights[1..]);
    }
  }

  lemma EmptyIsFree(level: nat)
    ensures WellFormed(EmptyNode(level)) && Flat(EmptyNode(level)) == Frees(Capacity(level))
  {
    var n := EmptyNode(level);
    ZeroTotal(n.weights);
    FreeSlots(n.items, if level == 0 then 0 else level - 1);
  }

  /** Finds the first slot with room. */
  method FreeBranch(n: Node) returns (b: nat)
    requires WellFormed(n) && n.count < Capacity(n.level)
    ensures b < BRANCHES && (n.items[b] == Nil || (n.level > 0 && CountOf(n.items[b]) != Capacity(n.level - 1)))
    ensures forall i {:trigger n.items[i]} :: 0 <= i < b ==> CountOf(n.items[i]) == SlotCapacity(n.level)
  {
    RoomSomewhere(n);
    b := 0;
    while n.items[b] != Nil && (n.level == 0 || CountOf(n.items[b]) == Capacity(n.level - 1))
      invariant b < BRANCHES
      invariant forall i {:trigger n.items[i]} :: 0 <= i < b ==> CountOf(n.items[i]) == SlotCapacity(n.level)
      decreases BRANCHES - b
    {
      b := b + 1;
    }
  }

  /** No cell before a slot is free when all earlier slots are full. */
  lemma FullBefore(n: Node, b: nat, k: nat)
    requires WellFormed(n) && b < BRANCHES && k < b * SlotCapacity(n.level)
    requires forall i {:trigger n.items[i]} :: 0 <= i < b ==> CountOf(n.items[i]) == SlotCapacity(n.level)
    ensures k < |Flat(n)| && Flat(n)[k] != Free
  {
    if n.level == 0 {
      FullLeaf(n, k);
    } else {
      FullInner(n, b, k);
    }
  }

  lemma FullLeaf(n: Node, k: nat)
    requires WellFormed(n) && n.level == 0 && k < BRANCHES && CountOf(n.items[k]) == 1
    ensures k < |Flat(n)| && Flat(n)[k] != Free
  {
    assert LeafSlot(n.items[k], n.weights[k]);
  }

  lemma FullInner(n: Node, b: nat, k: nat)
    requires WellFormed(n) && n.level > 0 && b < BRANCHES && k < b * Capacity(n.level - 1)
    requires forall i {:trigger n.items[i]} :: 0 <= i < b ==> CountOf(n.items[i]) == Capacity(n.level - 1)
    ensures k < |Flat(n)| && Flat(n)[k] != Free
  {
    var level := n.level - 1;
    SlotPlace(n.items, n.weights, level, b);
    SlotsSplit(n.items, level, b);
    FullRow(n.items[..b], n.weights[..b], level, k);
  }

  lemma FullRow(items: seq<Slot>, weights: seq<nat>, level: nat, k: nat)
    requires |items| == |weights| && forall i {:trigger items[i]} :: 0 <= i < |items| ==> InnerSlot(items[i], weights[i], level)
    requires forall i {:trigger items[i]} :: 0 <= i < |items| ==> CountOf(items[i]) == Capacity(level)
    requires k < |items| * Capacity(level)
    ensures k < |FlatSlots(items, level)| && FlatSlots(items, level)[k] != Free
  {
    hide *;
    SlotsFacts(items, weights, level);
    FullSlots(items, Capacity(level));
    CountBounds(FlatSlots(items, level), k);
  }

  ghost predicate NoneFree(cells: seq<Cell>, end: nat) {
    end <= |cells| && forall k :: 0 <= k < end ==> cells[k] != Free
  }

  lemma FullBeforeSlot(n: Node, b: nat)
    requires WellFormed(n) && b < BRANCHES
    requires forall i {:trigger n.items[i]} :: 0 <= i < b ==> CountOf(n.items[i]) == SlotCapacity(n.level)
    ensures NoneFree(Flat(n), b * SlotCapacity(n.level))
  {
    hide WellFormed, Flat, CountOf, SlotCapacity;
    var end := b * SlotCapacity(n.level);
    forall k | 0 <= k < end
      ensures k < |Flat(n)| && Flat(n)[k] != Free
    {
      FullBefore(n, b, k);
    }
    if end > 0 {
      FullBefore(n, b, end - 1);
    }
  }

  lemma NoneFreeUpTo(n: Node, b: nat, j: nat)
    requires WellFormed(n) && n.level > 0 && b < BRANCHES
    requires NoneFree(Flat(n), b * Capacity(n.level - 1)) && NoneFree(FlatSlot(n.items[b], n.level - 1), j)
    ensures NoneFree(Flat(n), b * Capacity(n.level - 1) + j)
  {
    BranchPlace(n, b);
    hide *;
    var level := n.level - 1;
    NoneFreeTogether(FlatSlots(n.items[..b], level), FlatSlot(n.items[b], level), FlatSlots(n.items[b + 1..], level), Flat(n), j);
  }

  /** Where the cells of a branch are among all cells. */
  lemma BranchPlace(n: Node, b: nat)
    requires WellFormed(n) && n.level > 0 && b < BRANCHES
    ensures |n.items| == BRANCHES
    ensures |FlatSlots(n.items[..b], n.level - 1)| == b * Capacity(n.level - 1) && |FlatSlot(n.items[b], n.level - 1)| == Capacity(n.level - 1)
    ensures Flat(n) == FlatSlots(n.items[..b], n.level - 1) + FlatSlot(n.items[b], n.level - 1) + FlatSlots(n.items[b + 1..], n.level - 1)
  {
    hide Capacity, FlatSlot, FlatSlots, InnerSlot;
    SlotPlace(n.items, n.weights, n.level - 1, b);
    SlotsSplit(n.items, n.level - 1, b);
  }

  lemma NoneFreeTogether(pre: seq<Cell>, mid: seq<Cell>, post: seq<Cell>, all: seq<Cell>, j: nat)
    requires all == pre + mid + post && NoneFree(all, |pre|) && NoneFree(mid, j)
    ensures NoneFree(all, |pre| + j)
  {
  }

  /** Puts an item into the first free cell. */
  method Insert(n: Node, item: Item, weight: nat) returns (m: Node, index: nat)
    requires WellFormed(n) && n.count < Capacity(n.level) && weight > 0
    ensures WellFormed(m) && m.level == n.level && m.count == n.count + 1 && m.sum == n.sum + weight
    ensures index < |Flat(n)| && Flat(n)[index] == Free && Flat(m) == Flat(n)[index := Taken(item, weight)]
    ensures NoneFree(Flat(n), index)
    decreases n.level, 1
  {
    var b := FreeBranch(n);
    FullBeforeSlot(n, b);
    if n.level == 0 {
      PatchLeaf(n, b, Entry(item), weight);
      assert LeafSlot(n.items[b], n.weights[b]);
      m := Patched(n, b, Entry(item), n.weights[b] + weight);
      index := b;
    } else {
      m, index := InsertBelow(n, b, item, weight);
    }
  }

  method InsertBelow(n: Node, b: nat, item: Item, weight: nat) returns (m: Node, index: nat)
    requires WellFormed(n) && n.level > 0 && weight > 0 && b < BRANCHES
    requires n.items[b] == Nil || CountOf(n.items[b]) != Capacity(n.level - 1)
    requires NoneFree(Flat(n), b * Capacity(n.level - 1))
    ensures WellFormed(m) && m.level == n.level && m.count == n.count + 1 && m.sum == n.sum + weight
    ensures index < |Flat(n)| && Flat(n)[index] == Free && Flat(m) == Flat(n)[index := Taken(item, weight)]
    ensures NoneFree(Flat(n), index)
    decreases n.level, 0
  {
    hide WellFormed, Flat, FlatSlot, InnerSlot, NoneFree, Capacity, CountOf, EmptyNode;
    var level := n.level - 1;
    SlotRoom(n, b);
    var sub := if n.items[b] == Nil then EmptyNode(level) else n.items[b].node;
    var k, j := Insert(sub, item, weight);
    NewSlot(k, level);
    PatchInner(n, b, Sub(k), n.weights[b] + weight, j, Taken(item, weight));
    NoneFreeUpTo(n, b, j);
    m := Patched(n, b, Sub(k), n.weights[b] + weight);
    index := Capacity(level) * b + j;
  }

  lemma NewSlot(k: Node, level: nat)
    requires WellFormed(k) && k.level == level
    ensures InnerSlot(Sub(k), k.sum, level) && FlatSlot(Sub(k), level) == Flat(k) && CountOf(Sub(k)) == k.count
  {
  }

  /** A slot with room stands for a subtree with room, an empty one if the slot is nil. */
  lemma SlotRoom(n: Node, b: nat)
    requires WellFormed(n) && n.level > 0 && b < BRANCHES
    requires n.items[b] == Nil || CountOf(n.items[b]) != Capacity(n.level - 1)
    ensures |n.items| == BRANCHES && |n.weights| == BRANCHES && (n.items[b] == Nil || n.items[b].Sub?)
    ensures var sub := if n.items[b] == Nil then EmptyNode(n.level - 1) else n.items[b].node;
            && WellFormed(sub) && sub.level == n.level - 1 && sub.count < Capacity(sub.level)
            && sub.sum == n.weights[b] && sub.count == CountOf(n.items[b])
            && Flat(sub) == FlatSlot(n.items[b], n.level - 1) && |Flat(sub)| == Capacity(n.level - 1)
  {
    assert InnerSlot(n.items[b], n.weights[b], n.level - 1);
    EmptyIsFree(n.level - 1);
    var sub := if n.items[b] == Nil then EmptyNode(n.level - 1) else n.items[b].node;
    FlatFacts(sub);
    CountBounds(Flat(sub), 0);
  }

  // ------------------------------------------------------------------ set a weight

  function CellOf(item: Item, weight: nat): Cell {
    if weight == 0 then Free else Taken(item, weight)
  }

  /** The slot an index falls into is a subtree if the cell is taken. */
  lemma SlotOfIndex(n: Node, idx: nat, b: nat, j: nat)
    requires WellFormed(n) && n.level > 0 && idx < |Flat(n)| && Flat(n)[idx] != Free
    requires idx == b * Capacity(n.level - 1) + j && j < Capacity(n.level - 1)
    ensures b < BRANCHES && |n.items| == BRANCHES && |n.weights| == BRANCHES && n.items[b].Sub?
    ensures var sub := n.items[b].node;
            && WellFormed(sub) && sub.level == n.level - 1 && sub.sum == n.weights[b] && CountOf(n.items[b]) == sub.count
            && FlatSlot(n.items[b], n.level - 1) == Flat(sub) && |Flat(sub)| == Capacity(n.level - 1) && Flat(sub)[j] == Flat(n)[idx]
  {
    FlatFacts(n);
    IndexInSlot(Capacity(n.level - 1), b, j, idx);
    SlotCell(n, b, j);
    assert InnerSlot(n.items[b], n.weights[b], n.level - 1);
    hide Flat, Frees;
    NilSlot(n.items[b], n.level - 1, j);
    FlatFacts(n.items[b].node);
    NewSlot(n.items[b].node, n.level - 1);
  }

  lemma IndexInSlot(cap: nat, b: nat, j: nat, idx: nat)
    requires idx == b * cap + j && idx < BRANCHES * cap
    ensures b < BRANCHES
  {
    assert b >= BRANCHES ==> b * cap >= BRANCHES * cap;
  }

  lemma NilSlot(s: Slot, level: nat, j: nat)
    requires j < Capacity(level)
    ensures s == Nil ==> |FlatSlot(s, level)| == Capacity(level) && FlatSlot(s, level)[j] == Free
  {
  }

  lemma SlotCell(n: Node, b: nat, j: nat)
    requires WellFormed(n) && n.level > 0 && b < BRANCHES && j < Capacity(n.level - 1)
    ensures |FlatSlot(n.items[b], n.level - 1)| == Capacity(n.level - 1) && b * Capacity(n.level - 1) + j < |Flat(n)|
    ensures Flat(n)[b * Capacity(n.level - 1) + j] == FlatSlot(n.items[b], n.level - 1)[j]
  {
    BranchPlace(n, b);
    hide *;
    var level := n.level - 1;
    PutInMiddle(FlatSlots(n.items[..b], level), FlatSlot(n.items[b], level), FlatSlots(n.items[b + 1..], level), j, Free);
  }

  /** Changes the weight of an item, or removes it if the weight is zero. */
  method SetWeight(n: Node, idx: nat, weight: nat) returns (m: Node, diff: int)
    requires WellFormed(n) && idx < |Flat(n)| && Flat(n)[idx] != Free
    ensures WellFormed(m) && m.level == n.level && diff == weight - Flat(n)[idx].weight && m.sum == n.sum + diff
    ensures Flat(m) == Flat(n)[idx := CellOf(Flat(n)[idx].item, weight)]
    ensures m.count == n.count - (if weight == 0 then 1 else 0)
    decreases n.level
  {
    if n.level == 0 {
      assert LeafSlot(n.items[idx], n.weights[idx]);
      var s := if weight == 0 then Nil else n.items[idx];
      PatchLeaf(n, idx, s, weight);
      m, diff := Patched(n, idx, s, weight), weight - n.weights[idx];
    } else {
      m, diff := SetBelow(n, idx, weight);
    }
  }

  method SetBelow(n: Node, idx: nat, weight: nat) returns (m: Node, diff: int)
    requires WellFormed(n) && n.level > 0 && idx < |Flat(n)| && Flat(n)[idx] != Free
    ensures WellFormed(m) && m.level == n.level && diff == weight - Flat(n)[idx].weight && m.sum == n.sum + diff
    ensures Flat(m) == Flat(n)[idx := CellOf(Flat(n)[idx].item, weight)]
    ensures m.count == n.count - (if weight == 0 then 1 else 0)
    decreases n.level, 0
  {
    hide WellFormed, Flat, FlatSlot, InnerSlot, Capacity, CountOf, CellOf;
    var level := n.level - 1;
    var b, j := idx / Capacity(level), idx % Capacity(level);
    SlotOfIndex(n, idx, b, j);
    var k;
    k, diff := SetWeight(n.items[b].node, j, weight);
    NewSlot(k, level);
    PatchInner(n, b, Sub(k), n.weights[b] + diff, j, CellOf(Flat(n)[idx].item, weight));
    m := Patched(n, b, Sub(k), n.weights[b] + diff);
  }

  // ------------------------------------------------------------------ choose

  /** The cell that a linear walk over the weights stops at for a value below their sum. */
  ghost function Pick(cells: seq<Cell>, v: nat): (i: nat)
    requires v < Weight(cells)
    ensures i < |cells|
  {
    if v < WeightOf(cells[0]) then 0 else 1 + Pick(cells[1..], v - WeightOf(cells[0]))
  }

  /** Exactly as many values pick a cell as it weighs. */
  lemma {:induction false} PickExact(cells: seq<Cell>, v: nat, i: nat)
    requires v < Weight(cells) && i < |cells|
    ensures Pick(cells, v) == i <==> Weight(cells[..i]) <= v < Weight(cells[..i]) + WeightOf(cells[i])
    decreases |cells|
  {
    if i > 0 {
      assert cells[..i][1..] == cells[1..][..i - 1];
      if v >= WeightOf(cells[0]) {
        PickExact(cells[1..], v - WeightOf(cells[0]), i - 1);
      }
    }
  }

  lemma {:induction false} PickPrefix(pre: seq<Cell>, post: seq<Cell>, v: nat)
    requires v < Weight(pre)
    ensures v < Weight(pre + post) && Pick(pre + post, v) == Pick(pre, v)
    decreases |pre|
  {
    RowConcat(pre, post);
    assert (pre + post)[1..] == pre[1..] + post;
    if v >= WeightOf(pre[0]) {
      PickPrefix(pre[1..], post, v - WeightOf(pre[0]));
    }
  }

  lemma {:induction false} PickSuffix(pre: seq<Cell>, post: seq<Cell>, v: nat)
    requires Weight(pre) <= v < Weight(pre) + Weight(post)
    ensures v < Weight(pre + post) && Pick(pre + post, v) == |pre| + Pick(post, v - Weight(pre))
    decreases |pre|
  {
    RowConcat(pre, post);
    if pre == [] {
      assert pre + post == post;
    } else {
      assert (pre + post)[1..] == pre[1..] + post;
      PickSuffix(pre[1..], post, v - WeightOf(pre[0]));
    }
  }

  lemma PickMiddle(pre: seq<Cell>, mid: seq<Cell>, post: seq<Cell>, v: nat)
    requires Weight(pre) <= v < Weight(pre) + Weight(mid)
    ensures v < Weight(pre + mid + post) && (pre + mid + post)[Pick(pre + mid + post, v)] == mid[Pick(mid, v - Weight(pre))]
  {
    RowConcat(pre, mid);
    PickPrefix(pre + mid, post, v);
    PickSuffix(pre, mid, v);
  }

  lemma {:induction false} TotalSplit(weights: seq<nat>, b: nat)
    requires b < |weights|
    ensures Total(weights[..b]) + weights[b] <= Total(weights) && Total(weights[..b + 1]) == Total(weights[..b]) + weights[b]
  {
    if b == 0 {
      assert weights[..1] == [weights[0]];
    } else {
      assert weights[..b][1..] == weights[1..][..b - 1] && weights[..b + 1][1..] == weights[1..][..b];
      TotalSplit(weights[1..], b - 1);
    }
  }

  /** A value below the sum stops within the row. */
  lemma ScanGoesOn(weights: seq<nat>, b: nat, v: nat)
    requires b < |weights| && Total(weights[..b]) + weights[b] <= v < Total(weights)
    ensures b + 1 < |weights| && Total(weights[..b + 1]) == Total(weights[..b]) + weights[b]
  {
    TotalSplit(weights, b);
    assert weights[..b + 1] != weights;
  }

  lemma LeafSplit(items: seq<Slot>, weights: seq<nat>, b: nat)
    requires |items| == |weights| && b < |items|
    ensures LeafCells(items, weights) == LeafCells(items[..b], weights[..b]) + [LeafCells(items, weights)[b]] + LeafCells(items[b + 1..], weights[b + 1..])
  {
  }

  /** Slot `b` decides the choice when the value falls into its share. */
  lemma ChooseLeaf(n: Node, b: nat, v: nat)
    requires WellFormed(n) && n.level == 0 && b < BRANCHES && Total(n.weights[..b]) <= v < Total(n.weights[..b]) + n.weights[b]
    ensures v < Weight(Flat(n)) && n.items[b].Entry? && Flat(n)[Pick(Flat(n), v)] == Taken(n.items[b].item, n.weights[b])
  {
    assert LeafSlot(n.items[b], n.weights[b]);
    var cell := LeafCells(n.items, n.weights)[b];
    LeafFacts(n.items[..b], n.weights[..b]);
    LeafSplit(n.items, n.weights, b);
    PickMiddle(LeafCells(n.items[..b], n.weights[..b]), [cell], LeafCells(n.items[b + 1..], n.weights[b + 1..]), v);
  }

  lemma ChooseInner(n: Node, b: nat, v: nat)
    requires WellFormed(n) && n.level > 0 && b < BRANCHES && Total(n.weights[..b]) <= v < Total(n.weights[..b]) + n.weights[b]
    ensures n.items[b].Sub? && WellFormed(n.items[b].node) && n.items[b].node.level == n.level - 1
    ensures v < Weight(Flat(n)) && v - Total(n.weights[..b]) < Weight(Flat(n.items[b].node))
    ensures Flat(n)[Pick(Flat(n), v)] == Flat(n.items[b].node)[Pick(Flat(n.items[b].node), v - Total(n.weights[..b]))]
  {
    var level := n.level - 1;
    assert InnerSlot(n.items[b], n.weights[b], level);
    SlotsFacts(n.items[..b], n.weights[..b], level);
    SlotsSplit(n.items, level, b);
    FlatFacts(n.items[b].node);
    NewSlot(n.items[b].node, level);
    PickMiddle(FlatSlots(n.items[..b], level), FlatSlot(n.items[b], level), FlatSlots(n.items[b + 1..], level), v);
  }

  /** Walks down the tree to the item a linear walk over all cells would pick. */
  method Choose(n: Node, val: nat) returns (item: Item, weight: nat)
    requires WellFormed(n) && val < n.sum
    ensures val < Weight(Flat(n)) && Flat(n)[Pick(Flat(n), val)] == Taken(item, weight)
    decreases n.level
  {
    var v, i := val, 0;
    FlatFacts(n);
    assert n.weights[..0] == [];
    while v >= n.weights[i]
      invariant i < BRANCHES && v == val - Total(n.weights[..i])
      decreases BRANCHES - i
    {
      ScanGoesOn(n.weights, i, val);
      v := v - n.weights[i];
      i := i + 1;
    }
    if n.level == 0 {
      ChooseLeaf(n, i, val);
      item, weight := n.items[i].item, n.weights[i];
    } else {
      ChooseInner(n, i, val);
      FlatFacts(n.items[i].node);
      item, weight := Choose(n.items[i].node, v);
    }
  }

  // ------------------------------------------------------------------ a new level

  /** The root one level up, with the old root as its first subtree. */
  function Grown(n: Node): Node {
    var e := EmptyNode(n.level + 1);
    e.(items := e.items[0 := Sub(n)], weights := e.weights[0 := n.sum], sum := n.sum, count := n.count)
  }

  /** Adding a level keeps every index and only adds free cells. */
  lemma GrownKeeps(n: Node)
    requires WellFormed(n)
    ensures WellFormed(Grown(n)) && Flat(Grown(n)) == Flat(n) + Frees((BRANCHES - 1) * Capacity(n.level))
  {
    NewSlot(n, n.level);
    EmptyIsFree(n.level + 1);
    PatchInnerForm(EmptyNode(n.level + 1), 0, Sub(n), n.sum);
    assert Grown(n) == Patched(EmptyNode(n.level + 1), 0, Sub(n), n.sum);
    GrownRow(n);
  }

  lemma GrownRow(n: Node)
    requires WellFormed(n)
    ensures Flat(Grown(n)) == Flat(n) + Frees((BRANCHES - 1) * Capacity(n.level))
  {
    NewSlot(n, n.level);
    hide WellFormed, FlatSlot, InnerSlot;
    var items := Grown(n).items;
    assert |items[1..]| == BRANCHES - 1;
    FreeSlots(items[1..], n.level);
  }
}

