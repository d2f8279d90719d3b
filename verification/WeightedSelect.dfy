/** Weighted random selection from a set of items. */
module WeightedSelects {
  import opened Options
  import opened WeightTrees

  /** The index maps each item to the one cell that holds it. */
  ghost predicate Indexed(cells: seq<Cell>, idx: map<Item, nat>) {
    && (forall it :: it in idx ==> idx[it] < |cells| && cells[idx[it]] != Free && cells[idx[it]].item == it)
    && (forall k :: 0 <= k < |cells| && cells[k] != Free ==> cells[k].weight > 0 && cells[k].item in idx && idx[cells[k].item] == k)
  }

  /** The weight of every item. */
  ghost function Weights(cells: seq<Cell>, idx: map<Item, nat>): map<Item, nat>
    requires Indexed(cells, idx)
  {
    map it | it in idx :: cells[idx[it]].weight
  }

  lemma IndexedPut(cells: seq<Cell>, idx: map<Item, nat>, k: nat, item: Item, weight: nat)
    requires Indexed(cells, idx) && k < |cells| && cells[k] == Free && item !in idx && weight > 0
    ensures Indexed(cells[k := Taken(item, weight)], idx[item := k])
    ensures Weights(cells[k := Taken(item, weight)], idx[item := k]) == Weights(cells, idx)[item := weight]
  {
  }

  lemma IndexedChange(cells: seq<Cell>, idx: map<Item, nat>, item: Item, weight: nat)
    requires Indexed(cells, idx) && item in idx && weight > 0
    ensures Indexed(cells[idx[item] := Taken(item, weight)], idx)
    ensures Weights(cells[idx[item] := Taken(item, weight)], idx) == Weights(cells, idx)[item := weight]
  {
  }

  lemma IndexedRemove(cells: seq<Cell>, idx: map<Item, nat>, item: Item)
    requires Indexed(cells, idx) && item in idx
    ensures Indexed(cells[idx[item] := Free], idx - {item})
    ensures Weights(cells[idx[item] := Free], idx - {item}) == Weights(cells, idx) - {item}
  {
  }

  lemma IndexedGrows(cells: seq<Cell>, idx: map<Item, nat>, more: nat)
    requires Indexed(cells, idx)
    ensures Indexed(cells + Frees(more), idx) && Weights(cells + Frees(more), idx) == Weights(cells, idx)
  {
  }

  lemma {:induction false} WeightCovers(cells: seq<Cell>, k: nat)
    requires k < |cells|
    ensures WeightOf(cells[k]) <= Weight(cells)
  {
    if k > 0 {
      WeightCovers(cells[1..], k - 1);
    }
  }

  lemma NoWeightNoItems(cells: seq<Cell>, idx: map<Item, nat>)
    requires Indexed(cells, idx) && Weight(cells) == 0
    ensures idx == map[]
  {
    if it :| it in idx {
      WeightCovers(cells, idx[it]);
      assert false;
    }
  }

  /** Since `was`, some items have been given their current weight, and those that weigh nothing any more
      may be gone. */
  ghost predicate Aged(now: map<Item, nat>, was: map<Item, nat>, current: Item -> nat) {
    && (forall it :: it in now ==> it in was && (now[it] == was[it] || now[it] == current(it)))
    && (forall it :: it in was && it !in now ==> current(it) == 0)
  }

  class WeightedRandomSelect {
    var root: Node
    var idx: map<Item, nat>

    ghost predicate Valid()
      reads this
    {
      WellFormed(root) && Indexed(Flat(root), idx)
    }

    ghost function Content(): map<Item, nat>
      requires Valid()
      reads this
    {
      Weights(Flat(root), idx)
    }

    constructor ()
      ensures Valid() && Content() == map[]
    {
      root, idx := EmptyNode(0), map[];
      EmptyIsFree(0);
      new;
      assert Indexed(Flat(root), idx);
    }

    predicate Empty()
      reads this
    {
      idx == map[]
    }

    lemma EmptyContent()
      requires Valid()
      ensures Empty() <==> Content().Keys == {}
    {
      assert Content().Keys == idx.Keys;
    }

    /** Sets an item's weight, adding it if it is new and removing it if the weight is zero. */
    method SetWeight(item: Item, weight: nat)
      requires Valid()
      modifies this
      ensures Valid() && Content() == if weight == 0 then old(Content()) - {item} else old(Content())[item := weight]
      ensures root.sum == old(root.sum) + weight - (if item in old(Content()) then old(Content())[item] else 0)
    {
      if item in idx {
        var k := idx[item];
        var m, _ := WeightTrees.SetWeight(root, k, weight);
        if weight == 0 {
          IndexedRemove(Flat(root), idx, item);
          idx := idx - {item};
        } else {
          IndexedChange(Flat(root), idx, item, weight);
        }
        root := m;
      } else if weight != 0 {
        AddItem(item, weight);
      }
    }

    method AddItem(item: Item, weight: nat)
      requires Valid() && item !in idx && weight > 0
      modifies this
      ensures Valid() && Content() == old(Content())[item := weight] && root.sum == old(root.sum) + weight
    {
      FlatFacts(root);
      CountBounds(Flat(root), 0);
      if root.count == Capacity(root.level) {
        Grow();
      }
      var m, k := Insert(root, item, weight);
      IndexedPut(Flat(root), idx, k, item, weight);
      root, idx := m, idx[item := k];
    }

    /** Adds a level above the root: no index changes. */
    method Grow()
      requires Valid()
      modifies this`root
      ensures Valid() && Content() == old(Content()) && root.sum == old(root.sum)
      ensures old(root.count) == Capacity(old(root.level)) ==> root.count < Capacity(root.level)
    {
      GrownKeeps(root);
      IndexedGrows(Flat(root), idx, (BRANCHES - 1) * Capacity(root.level));
      root := Grown(root);
    }

    /** Chooses an item at random.  An item whose weight has fallen is given its current weight and chosen
        only with the proportional chance; otherwise the choice is repeated. */
    method Choose(current: Item -> nat) returns (r: Option<Item>)
      requires Valid()
      modifies this
      ensures Valid() && Aged(Content(), old(Content()), current)
      ensures r == None <==> Content() == map[]
      ensures r == None ==> forall it :: it in old(Content()) ==> current(it) == 0
      ensures r.Some? ==> r.value in old(Content()) && current(r.value) > 0 && Content()[r.value] == current(r.value)
    {
      ghost var was := Content();
      while root.sum != 0
        invariant Valid() && Aged(Content(), was, current)
        decreases root.sum
      {
        var val: nat :| val < root.sum;
        ghost var before := Content();
        var choice, last, draw, accepted := ChooseOnce(val, current);
        AgedStep(Content(), before, was, current, choice);
        if accepted {
          return Some(choice);
        }
      }
      FlatFacts(root);
      NoWeightNoItems(Flat(root), idx);
      return None;
    }

    /** One attempt: the item whose share `val` falls into is given its current weight, and if that is lower
        than the stored one it is accepted for exactly the proportional part of the draws. */
    method ChooseOnce(val: nat, current: Item -> nat) returns (choice: Item, last: nat, draw: nat, accepted: bool)
      requires Valid() && val < root.sum
      modifies this
      ensures Valid() && val < Weight(old(Flat(root))) && old(Flat(root))[Pick(old(Flat(root)), val)] == Taken(choice, last)
      ensures choice in old(Content()) && old(Content())[choice] == last && draw < last
      ensures Content() == if current(choice) == 0 then old(Content()) - {choice} else old(Content())[choice := current(choice)]
      ensures root.sum == old(root.sum) + current(choice) - last
      ensures accepted <==> current(choice) >= last || draw < current(choice)
    {
      FlatFacts(root);
      choice, last := WeightTrees.Choose(root, val);
      ChoiceKnown(val);
      draw :| draw < last;
      var weight := current(choice);
      if weight != last {
        SetWeight(choice, weight);
      }
      accepted := weight >= last || draw < weight;
    }

    lemma ChoiceKnown(val: nat)
      requires Valid() && val < root.sum
      ensures val < Weight(Flat(root))
      ensures var c := Flat(root)[Pick(Flat(root), val)];
              c != Free ==> c.item in Content() && Content()[c.item] == c.weight && c.weight > 0
    {
      FlatFacts(root);
    }
  }

  lemma AgedStep(now: map<Item, nat>, before: map<Item, nat>, was: map<Item, nat>, current: Item -> nat, choice: Item)
    requires Aged(before, was, current) && choice in before
    requires now == if current(choice) == 0 then before - {choice} else before[choice := current(choice)]
    ensures Aged(now, was, current)
  {
  }
}
