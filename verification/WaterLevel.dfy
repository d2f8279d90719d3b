/** The water level: cutting the remote accounts' pending lists to one common length. */
module WaterLevels {
  import opened Transactions
  import opened Books
  import opened Sums

  function Sizes(m: Lists): map<Address, nat> {
    map a | a in m :: |m[a]|
  }

  ghost function Total(m: Lists): nat {
    Sum(Sizes(m))
  }

  lemma SizesMinus(m: Lists, a: Address)
    ensures Sizes(m - {a}) == Sizes(m) - {a}
  {
    var f, g := Sizes(m - {a}), Sizes(m) - {a};
    assert f.Keys == m.Keys - {a} && g.Keys == m.Keys - {a};
    forall x | x in f
      ensures f[x] == g[x]
    {
      assert x in m && (m - {a})[x] == m[x];
    }
  }

  lemma SizeAt(m: Lists, a: Address)
    ensures a in m ==> a in Sizes(m) && Sizes(m)[a] == |ListOf(m, a)|
    ensures a !in m ==> m - {a} == m && |ListOf(m, a)| == 0
  {
  }

  lemma TotalIsSum(m: Lists)
    ensures Total(m) == Sum(Sizes(m))
  {
    hide Sum;
  }

  lemma SizesWithout(m: Lists, a: Address)
    ensures Total(m) == |ListOf(m, a)| + Total(m - {a})
  {
    hide *;
    SizesMinus(m, a);
    SizeAt(m, a);
    TotalIsSum(m);
    TotalIsSum(m - {a});
    if a in m {
      SumTakeOut(Sizes(m), a);
    }
  }

  method CountTxs(m: Lists) returns (n: nat)
    ensures n == Total(m)
  {
    hide *;
    n := 0;
    var todo := m;
    NoneAtAll();
    while todo != map[]
      invariant n + Total(todo) == Total(m)
      decreases |todo|
    {
      var a :| a in todo;
      SizesWithout(todo, a);
      assert (todo - {a}).Keys == todo.Keys - {a};
      n := n + |ListOf(todo, a)|;
      todo := todo - {a};
    }
  }

  lemma NoneAtAll()
    ensures Total(map[]) == 0
  {
  }

  /** The length a list of `size` transactions is cut to at level `level`; local accounts are exempt. */
  function CutSize(size: nat, local: bool, level: nat): nat {
    if local || size <= level then size else level
  }

  /** All list sizes, with the remote ones cut to the level. */
  function SizesAt(was: Lists, locals: set<Address>, level: nat): map<Address, nat> {
    map a | a in was :: CutSize(|was[a]|, a in locals, level)
  }

  /** `m` consists of lowest nonces of `p`. */
  ghost predicate Prefix(m: TxMap, p: TxMap) {
    PartOf(m, p) && forall x, y :: x in m && y in p && y !in m ==> x < y
  }

  ghost predicate CutTo(m: TxMap, p: TxMap, local: bool, level: nat) {
    Prefix(m, p) && |m| == CutSize(|p|, local, level)
  }

  /** The lists of `now` are those of `was` with the remote ones cut to the level, highest nonces first. */
  ghost predicate Levelled(now: Lists, was: Lists, locals: set<Address>, level: nat) {
    now.Keys == was.Keys
    && forall a {:trigger CutTo(now[a], was[a], a in locals, level)} :: a in was ==> CutTo(now[a], was[a], a in locals, level)
  }

  lemma LevelledTotal(now: Lists, was: Lists, locals: set<Address>, level: nat)
    requires Levelled(now, was, locals, level)
    ensures Total(now) == TotalAt(was, locals, level)
  {
    forall a | a in was
      ensures Sizes(now)[a] == SizesAt(was, locals, level)[a]
    {
      assert CutTo(now[a], was[a], a in locals, level);
    }
    assert Sizes(now) == SizesAt(was, locals, level);
  }

  /** The number of transactions left at a level. */
  ghost function TotalAt(was: Lists, locals: set<Address>, level: nat): nat {
    Sum(SizesAt(was, locals, level))
  }

  /** What the pool's equalisation achieves.  The level is at least the guaranteed allowance; the total
      fits unless the level is that allowance; and if anything was dropped, one level higher would not fit. */
  ghost predicate IsWaterLevel(now: Lists, was: Lists, locals: set<Address>, slots: nat, limit: nat, level: nat) {
    && level >= slots && Levelled(now, was, locals, level)
    && (Total(now) <= limit || level == slots)
    && (now != was ==> TotalAt(was, locals, level + 1) > limit)
  }

  ghost predicate AllNonEmpty(m: Lists, cut: set<Address>) {
    cut <= m.Keys && forall a {:trigger m[a]} :: a in cut ==> m[a].Keys != {}
  }

  /** A list without its highest nonce. */
  function DropTop(m: TxMap): TxMap
    requires m.Keys != {}
  {
    m - {Greatest(m.Keys)}
  }

  lemma DropTopIsPrefix(m: TxMap, p: TxMap)
    requires m.Keys != {} && Prefix(m, p)
    ensures Prefix(DropTop(m), p) && |DropTop(m)| == |m| - 1
  {
    assert DropTop(m).Keys == m.Keys - {Greatest(m.Keys)};
  }

  /** One round: every listed account loses its highest nonce. */
  function Shaved(m: Lists, cut: set<Address>): Lists
    requires AllNonEmpty(m, cut)
  {
    map a | a in m :: if a in cut then DropTop(m[a]) else m[a]
  }

  lemma ShaveOne(m: Lists, cut: set<Address>, a: Address)
    requires AllNonEmpty(m, cut + {a}) && a !in cut
    ensures Shaved(m, cut)[a] == m[a]
    ensures Shaved(m, cut + {a}) == Shaved(m, cut)[a := DropTop(m[a])]
    ensures Total(Shaved(m, cut + {a})) == Total(Shaved(m, cut)) - 1
  {
    ShaveMore(m, cut, a);
    hide Shaved, DropTop, Total, AllNonEmpty;
    DropTopIsPrefix(m[a], m[a]);
    TotalPut(Shaved(m, cut), a, DropTop(m[a]));
  }

  lemma ShaveMore(m: Lists, cut: set<Address>, a: Address)
    requires AllNonEmpty(m, cut + {a}) && a !in cut
    ensures a in m && AllNonEmpty(m, cut) && m[a].Keys != {} && a in Shaved(m, cut) && Shaved(m, cut)[a] == m[a]
    ensures Shaved(m, cut + {a}) == Shaved(m, cut)[a := DropTop(m[a])]
  {
    hide DropTop;
  }

  lemma TotalPut(m: Lists, a: Address, l: TxMap)
    requires a in m
    ensures Total(m[a := l]) == Total(m) - |m[a]| + |l|
  {
    SizesPut(m, a, l);
    hide Sizes;
    SumPut(Sizes(m), a, |l|);
  }

  lemma SizesPut(m: Lists, a: Address, l: TxMap)
    requires a in m
    ensures Sizes(m[a := l]) == Sizes(m)[a := |l|] && a in Sizes(m) && Sizes(m)[a] == |m[a]|
  {
  }

  lemma ShaveNext(m: Lists, cut: set<Address>, done: set<Address>, a: Address)
    requires AllNonEmpty(m, cut) && a in cut && a !in done && done <= cut
    ensures AllNonEmpty(m, done) && AllNonEmpty(m, done + {a})
    ensures a in m && a in Shaved(m, done) && Shaved(m, done)[a] == m[a]
    ensures Shaved(m, done + {a}) == Shaved(m, done)[a := DropTop(m[a])]
    ensures Total(Shaved(m, done + {a})) == Total(Shaved(m, done)) - 1
  {
    ShaveOne(m, done, a);
  }

  lemma CutFurther(m: TxMap, p: TxMap, local: bool, level: nat, cut: bool)
    requires level > 0 && CutTo(m, p, local, level) && (cut <==> !local && |p| >= level)
    ensures cut ==> m.Keys != {}
    ensures CutTo(if cut then DropTop(m) else m, p, local, level - 1)
  {
    if cut {
      assert |m| == |m.Keys|;
      DropTopIsPrefix(m, p);
    }
  }

  /** When exactly the remote lists that reach the level are shaved, the level drops by one. */
  lemma RoundLowersLevel(now: Lists, was: Lists, locals: set<Address>, level: nat, cut: set<Address>)
    requires level > 0 && Levelled(now, was, locals, level) && AllNonEmpty(now, cut)
    requires forall a :: a in was ==> (a in cut <==> a !in locals && |was[a]| >= level)
    ensures Levelled(Shaved(now, cut), was, locals, level - 1)
  {
    var next := Shaved(now, cut);
    forall a | a in was
      ensures CutTo(next[a], was[a], a in locals, level - 1)
    {
      assert CutTo(now[a], was[a], a in locals, level);
      CutFurther(now[a], was[a], a in locals, level, a in cut);
    }
  }

  ghost predicate Distinct(s: seq<Address>) {
    forall i, j :: 0 <= i < j < |s| ==> s[i] != s[j]
  }

  ghost function Elems(s: seq<Address>): set<Address> {
    set x | x in s
  }

  lemma InElems(s: seq<Address>, i: nat)
    requires i < |s|
    ensures s[i] in Elems(s)
  {
  }

  lemma ElemsNext(s: seq<Address>, i: nat)
    requires Distinct(s) && i < |s|
    ensures s[i] in Elems(s) && s[i] !in Elems(s[..i]) && Elems(s[..i + 1]) == Elems(s[..i]) + {s[i]}
    ensures Elems(s[..i + 1]) <= Elems(s)
  {
    assert s[..i + 1] == s[..i] + [s[i]];
  }

  /** The offenders are remote accounts whose lists had at least `level` transactions, and every other
      remote list had at most `threshold`. */
  ghost predicate Tops(was: Lists, locals: set<Address>, cut: set<Address>, threshold: nat, level: nat) {
    && cut <= was.Keys - locals
    && (forall a {:trigger was[a]} :: a in cut ==> |was[a]| >= level)
    && (forall a {:trigger was[a]} :: a in was.Keys - locals - cut ==> |was[a]| <= threshold)
  }

  /** The offenders are at the level. */
  lemma OffenderAtLevel(now: Lists, was: Lists, locals: set<Address>, cut: set<Address>, threshold: nat, level: nat, x: Address)
    requires Tops(was, locals, cut, threshold, level) && Levelled(now, was, locals, level) && x in cut
    ensures x in now && |now[x]| == level
  {
    assert CutTo(now[x], was[x], x in locals, level);
  }

  lemma RoundReady(now: Lists, was: Lists, locals: set<Address>, cut: set<Address>, threshold: nat, level: nat)
    requires Tops(was, locals, cut, threshold, level) && Levelled(now, was, locals, level)
    requires 0 < threshold < level
    ensures AllNonEmpty(now, cut) && forall x {:trigger now[x]} :: x in cut ==> |now[x]| >= 2
    ensures Levelled(Shaved(now, cut), was, locals, level - 1)
    ensures Tops(was, locals, cut, threshold, level - 1)
  {
    forall x {:trigger now[x]} | x in cut
      ensures x in now && |now[x]| == level && now[x].Keys != {}
    {
      OffenderAtLevel(now, was, locals, cut, threshold, level, x);
      assert |now[x]| == |now[x].Keys|;
    }
    RoundLowersLevel(now, was, locals, level, cut);
  }

  /** The remote accounts above their guaranteed allowance. */
  function Spammers(was: Lists, locals: set<Address>, slots: nat): set<Address> {
    set a | a in was && a !in locals && |was[a]| > slots
  }

  /** The spammers, split at a level into those popped already and those still waiting. */
  ghost predicate Split(was: Lists, locals: set<Address>, slots: nat, spam: set<Address>, cut: set<Address>, level: nat) {
    && spam !! cut && spam + cut == Spammers(was, locals, slots)
    && (forall y {:trigger was[y]} :: y in spam ==> |was[y]| <= level)
    && (forall x {:trigger was[x]} :: x in cut ==> |was[x]| >= level)
  }

  lemma PopSplits(was: Lists, locals: set<Address>, slots: nat, spam: set<Address>, cut: set<Address>, level: nat, o: Address)
    requires Split(was, locals, slots, spam, cut, level) && o in spam
    requires forall y :: y in spam ==> y in was && |was[y]| <= |was[o]|
    ensures slots < |was[o]| <= level && o !in cut && o !in locals
    ensures Tops(was, locals, cut, |was[o]|, level)
    ensures Split(was, locals, slots, spam - {o}, cut + {o}, |was[o]|)
    ensures cut == {} ==> Levelled(was, was, locals, |was[o]|)
  {
    assert o in Spammers(was, locals, slots);
    assert cut <= spam + cut;
    assert (spam - {o}) + (cut + {o}) == spam + cut;
    if cut == {} {
      UncutLevel(was, locals, |was[o]|);
    }
  }

  lemma AllPopped(was: Lists, locals: set<Address>, slots: nat, cut: set<Address>, level: nat)
    requires Split(was, locals, slots, {}, cut, level)
    ensures Tops(was, locals, cut, slots, level)
    ensures cut == {} ==> Levelled(was, was, locals, slots)
  {
    assert {} + cut == cut;
    assert forall a :: a in was && a !in locals && a !in cut ==> a !in Spammers(was, locals, slots);
    if cut == {} {
      UncutLevel(was, locals, slots);
    }
  }

  lemma StartSplit(was: Lists, locals: set<Address>, slots: nat)
    ensures Split(was, locals, slots, Spammers(was, locals, slots), {}, Total(was) + slots)
    ensures Levelled(was, was, locals, Total(was) + slots) && Spammers(was, locals, slots) <= was.Keys
  {
    TotalBounds(was);
    UncutLevel(was, locals, Total(was) + slots);
    assert Spammers(was, locals, slots) + {} == Spammers(was, locals, slots);
  }

  lemma BelowLevelUncut(now: Lists, was: Lists, locals: set<Address>, level: nat, x: Address)
    requires Levelled(now, was, locals, level) && x in was && |was[x]| <= level
    ensures x in now && |now[x]| == |was[x]|
  {
    assert CutTo(now[x], was[x], x in locals, level);
  }

  lemma ElemsAppend(s: seq<Address>, x: Address)
    requires Distinct(s) && x !in Elems(s)
    ensures Distinct(s + [x]) && Elems(s + [x]) == Elems(s) + {x}
  {
  }

  lemma ElemsNone(s: seq<Address>)
    ensures s == [] <==> Elems(s) == {}
    ensures s == [] ==> Distinct(s)
  {
    if s != [] {
      assert s[0] in Elems(s);
    }
  }

  /** Nothing was dropped without need: one level higher would not have fitted. */
  ghost predicate Needed(now: Lists, was: Lists, locals: set<Address>, limit: nat, level: nat) {
    now != was ==> TotalAt(was, locals, level + 1) > limit
  }

  lemma NeededIf(now: Lists, was: Lists, locals: set<Address>, limit: nat, level: nat)
    requires now == was || TotalAt(was, locals, level + 1) > limit
    ensures Needed(now, was, locals, limit, level)
  {
  }

  lemma WaterLevelReached(now: Lists, was: Lists, locals: set<Address>, slots: nat, limit: nat, level: nat)
    requires level >= slots && Levelled(now, was, locals, level) && (Total(now) <= limit || level == slots)
    requires Needed(now, was, locals, limit, level)
    ensures IsWaterLevel(now, was, locals, slots, limit, level)
  {
  }

  /** Nothing is cut at a level no remote list exceeds. */
  lemma UncutLevel(was: Lists, locals: set<Address>, level: nat)
    requires forall a :: a in was && a !in locals ==> |was[a]| <= level
    ensures Levelled(was, was, locals, level)
  {
  }

  lemma TotalBounds(m: Lists)
    ensures forall a :: a in m ==> |m[a]| <= Total(m)
  {
    forall a | a in m
      ensures |m[a]| <= Total(m)
    {
      SumBounds(Sizes(m), a);
    }
  }

  /** A prefix is determined by its size. */
  lemma PrefixUnique(m: TxMap, k: TxMap, p: TxMap)
    requires Prefix(m, p) && Prefix(k, p) && |m| == |k|
    ensures m == k
  {
    if x :| x in m && x !in k {
      assert k.Keys <= m.Keys - {x};
      SubsetSize(k.Keys, m.Keys - {x});
      assert false;
    }
    if y :| y in k && y !in m {
      assert m.Keys <= k.Keys - {y};
      SubsetSize(m.Keys, k.Keys - {y});
      assert false;
    }
    assert m.Keys == k.Keys;
  }

  lemma {:induction false} SubsetSize(a: set<nat>, b: set<nat>)
    requires a <= b
    ensures |a| <= |b|
  {
    assert b == a + (b - a);
  }

  /** The two levels cut alike when no remote list tells them apart. */
  lemma SameCut(now: Lists, other: Lists, was: Lists, locals: set<Address>, level: nat, higher: nat)
    requires Levelled(now, was, locals, level) && Levelled(other, was, locals, higher)
    requires forall a :: a in was ==> CutSize(|was[a]|, a in locals, level) == CutSize(|was[a]|, a in locals, higher)
    ensures now == other
  {
    forall a | a in was
      ensures now[a] == other[a]
    {
      assert CutTo(now[a], was[a], a in locals, level);
      assert CutTo(other[a], was[a], a in locals, higher);
      PrefixUnique(now[a], other[a], was[a]);
    }
  }

  lemma LowerLevelWins(now: Lists, other: Lists, was: Lists, locals: set<Address>, slots: nat, limit: nat,
                       level: nat, higher: nat)
    requires IsWaterLevel(now, was, locals, slots, limit, level)
    requires IsWaterLevel(other, was, locals, slots, limit, higher)
    requires level <= higher
    ensures now == other
  {
    if level == higher {
      SameCut(now, other, was, locals, level, higher);
    } else if now == was {
      forall a | a in was
        ensures CutSize(|was[a]|, a in locals, level) == CutSize(|was[a]|, a in locals, higher)
      {
        assert CutTo(now[a], was[a], a in locals, level);
      }
      SameCut(now, other, was, locals, level, higher);
    } else {
      LevelledTotal(other, was, locals, higher);
      SumMonotone(SizesAt(was, locals, level + 1), SizesAt(was, locals, higher));
      assert false;
    }
  }

  /** The outcome does not depend on the order in which accounts are visited. */
  lemma WaterLevelUnique(now: Lists, other: Lists, was: Lists, locals: set<Address>, slots: nat, limit: nat,
                         level: nat, higher: nat)
    requires IsWaterLevel(now, was, locals, slots, limit, level)
    requires IsWaterLevel(other, was, locals, slots, limit, higher)
    ensures now == other
  {
    if level <= higher {
      LowerLevelWins(now, other, was, locals, slots, limit, level, higher);
    } else {
      LowerLevelWins(other, now, was, locals, slots, limit, higher, level);
    }
  }

  /** Pops the account with the longest list. */
  method PopLargest(spam: set<Address>, m: Lists) returns (o: Address)
    requires spam != {} && spam <= m.Keys
    ensures o in spam && forall y :: y in spam ==> |m[y]| <= |m[o]|
  {
    o :| o in spam;
    var todo := spam - {o};
    while todo != {}
      invariant o in spam && todo <= spam
      invariant forall y :: y in spam && y !in todo ==> |m[y]| <= |m[o]|
      decreases todo
    {
      var y :| y in todo;
      if |m[y]| > |m[o]| {
        o := y;
      }
      todo := todo - {y};
    }
  }

  /** One level higher, exactly the lists that were cut keep one transaction more. */
  lemma NextLevel(was: Lists, locals: set<Address>, level: nat)
    ensures TotalAt(was, locals, level + 1) == TotalAt(was, locals, level) + |Spammers(was, locals, level)|
  {
    hide Sum;
    SumRaised(SizesAt(was, locals, level), SizesAt(was, locals, level + 1), Spammers(was, locals, level));
  }

  /** What the water level means: local lists are untouched, the remote lists that lost transactions share
      one length and none exceeds it, the total fits unless all remote lists are down to their allowance, and
      it falls short of the limit by less than the number of lists that were cut. */
  lemma WaterLevelMeans(now: Lists, was: Lists, locals: set<Address>, slots: nat, limit: nat, level: nat)
    requires IsWaterLevel(now, was, locals, slots, limit, level)
    ensures now.Keys == was.Keys
    ensures forall a :: a in was && a in locals ==> now[a] == was[a]
    ensures forall a :: a in was && a !in locals ==> |now[a]| <= level && (now[a] != was[a] ==> |now[a]| == level && Prefix(now[a], was[a]))
    ensures Total(now) <= limit || forall a :: a in was && a !in locals ==> |now[a]| <= slots
    ensures now != was ==> limit < Total(now) + |Spammers(was, locals, level)|
  {
    hide Total, TotalAt, Spammers;
    forall a | a in was
      ensures a in locals ==> now[a] == was[a]
      ensures a !in locals ==> |now[a]| <= level && (now[a] != was[a] ==> |now[a]| == level && Prefix(now[a], was[a]))
    {
      assert CutTo(now[a], was[a], a in locals, level);
      WholePrefix(now[a], was[a]);
    }
    LevelledTotal(now, was, locals, level);
    NextLevel(was, locals, level);
  }

  lemma WholePrefix(m: TxMap, p: TxMap)
    requires Prefix(m, p)
    ensures |m| == |p| ==> m == p
  {
    if |m| == |p| {
      assert Prefix(p, p);
      PrefixUnique(m, p, p);
    }
  }
}
