/** The chain indexer: sections of the chain are processed without holding the lock, while reorganisations
    may arrive at any time. */
module ChainIndexers {
  import opened Options
  import opened Chain

  /** `k` parent steps lead from `h` to `g`, passing only known headers. */
  ghost predicate LinkedBy(h: Hash, k: nat, g: Hash) {
    if k == 0 then h == g else h.Of? && LinkedBy(h.header.parentHash, k - 1, g)
  }

  lemma {:induction false} LinkedTrans(h: Hash, k: nat, g: Hash, l: nat, f: Hash)
    requires LinkedBy(h, k, g) && LinkedBy(g, l, f)
    ensures LinkedBy(h, k + l, f)
    decreases k
  {
    if k > 0 {
      LinkedTrans(h.header.parentHash, k - 1, g, l, f);
    }
  }

  /** The head of the section before `s`; the zero hash stands before the first. */
  ghost function Before(heads: map<nat, Hash>, s: nat): Hash {
    if s > 0 && s - 1 in heads then heads[s - 1] else Zero
  }

  ghost predicate SectionOk(heads: map<nat, Hash>, size: nat, s: nat) {
    s in heads && (s > 0 ==> s - 1 in heads) && LinkedBy(heads[s], size, Before(heads, s))
  }

  /** What the index database promises at every moment, also across a crash: each section below the
      stored count has a head, and successive heads are one section of parent steps apart. */
  ghost predicate DbOk(count: nat, heads: map<nat, Hash>, size: nat) {
    forall s :: 0 <= s < count ==> SectionOk(heads, size, s)
  }

  /** Walking back from a section's head reaches the zero hash after exactly the sections' blocks. */
  lemma {:induction false} HeadDepth(count: nat, heads: map<nat, Hash>, size: nat, s: nat)
    requires DbOk(count, heads, size) && s < count
    ensures s in heads && LinkedBy(heads[s], (s + 1) * size, Zero)
  {
    assert SectionOk(heads, size, s);
    if s > 0 {
      HeadDepth(count, heads, size, s - 1);
      LinkedTrans(heads[s], size, heads[s - 1], s * size, Zero);
      assert (s + 1) * size == size + s * size;
    }
  }

  lemma {:induction false} DepthIsNumber(h: Hash, k: nat)
    requires LinkedBy(h, k, Zero) && Linked(h)
    ensures k == h.header.number + 1
    decreases k
  {
    if h.header.number > 0 {
      DepthIsNumber(h.header.parentHash, k - 1);
    }
  }

  /** If the chain database numbers headers properly, the head of section `s` is the section's last block. */
  lemma HeadNumber(count: nat, heads: map<nat, Hash>, size: nat, s: nat)
    requires DbOk(count, heads, size) && s < count && s in heads && Linked(heads[s])
    ensures heads[s].header.number == (s + 1) * size - 1
  {
    HeadDepth(count, heads, size, s);
    DepthIsNumber(heads[s], (s + 1) * size);
  }

  lemma LinkedHead(h: Hash, k: nat, g: Hash)
    requires LinkedBy(h, k, g) && k > 0
    ensures h != Zero
  {
  }

  /** Writing a head at or above the count, or removing one, leaves the counted sections alone. */
  lemma WritesAbove(count: nat, heads: map<nat, Hash>, after: map<nat, Hash>, size: nat)
    requires DbOk(count, heads, size)
    requires forall s :: 0 <= s < count && s in heads ==> s in after && after[s] == heads[s]
    ensures DbOk(count, after, size)
  {
    forall s | 0 <= s < count
      ensures SectionOk(after, size, s)
    {
      assert SectionOk(heads, size, s);
      if s > 0 {
        assert SectionOk(heads, size, s - 1);
      }
    }
  }

  datatype Phase =
    | Waiting
    | Processing(section: nat, oldHead: Hash, done: nat, last: Hash)

  /** A section in process: the headers seen so far are linked to the old head, and if a reorganisation has
      rolled the index back meanwhile, the heads it rolled back are gone. */
  ghost predicate PhaseOk(p: Phase, stored: nat, heads: map<nat, Hash>, size: nat) {
    p.Processing? ==>
      && p.done <= size && LinkedBy(p.last, p.done, p.oldHead)
      && (p.section == 0 <==> p.oldHead == Zero)
      && stored <= p.section
      && (forall s :: stored <= s < p.section ==> s !in heads)
      && (stored == p.section && stored > 0 ==> stored - 1 in heads && heads[stored - 1] == p.oldHead)
  }

  /** Finishing with an unchanged old head means nothing was rolled back. */
  lemma NoRollback(p: Phase, stored: nat, heads: map<nat, Hash>, size: nat)
    requires p.Processing? && PhaseOk(p, stored, heads, size) && p.oldHead == Before(heads, p.section)
    ensures stored == p.section
  {
  }

  lemma Completes(p: Phase, count: nat, heads: map<nat, Hash>, size: nat)
    requires p.Processing? && PhaseOk(p, count, heads, size) && count == p.section && p.done == size && DbOk(count, heads, size)
    requires count in heads && heads[count] == p.last
    ensures DbOk(count + 1, heads, size)
  {
    if count > 0 {
      assert SectionOk(heads, size, count - 1);
    }
    assert SectionOk(heads, size, count);
  }

  /** The state of the indexer: the stored count and section heads, the known sections, how far children have
      been told, and the section in process. */
  datatype Index = Index(count: nat, heads: map<nat, Hash>, known: nat, cascaded: nat, phase: Phase)

  /** A new head or a reorganisation, a crash, or a step of the update loop with what it finds. */
  datatype IndexEvent = Head(head: nat, reorg: bool) | Crash | Step(header: Option<Header>, committed: bool)

  /** One event: a reorganisation rolls back to the sections it leaves whole, a head makes sections known once they
      are confirmed, a crash loses what is not in the database.  A section is taken up on top of the head of its
      predecessor, followed header by header as long as each names the one before, and stored if processing
      succeeded and the index still ends at its predecessor; otherwise it is given up until the next head. */
  ghost predicate Advances(size: nat, confirms: nat, a: Index, e: IndexEvent, b: Index)
    requires size > 0
  {
    match e
    case Head(head, true) =>
      var whole := head / size;
      && b.phase == a.phase && b.count == (if whole < a.count then whole else a.count)
      && b.known == (if whole < a.known then whole else a.known)
      && b.cascaded == (if whole * size < a.cascaded then whole * size else a.cascaded)
      && b.heads == map s | s in a.heads && !(b.count <= s < a.count) :: a.heads[s]
    case Head(head, false) =>
      b == a.(known := if head >= confirms && (head + 1 - confirms) / size > a.known then (head + 1 - confirms) / size else a.known)
    case Crash => b == Index(a.count, a.heads, 0, 0, Waiting)
    case Step(header, committed) =>
      match a.phase
      case Waiting => b == a.(phase := if a.known > a.count then Processing(a.count, Before(a.heads, a.count), 0, Before(a.heads, a.count)) else Waiting)
      case Processing(section, _, done, last) =>
        if done < size then
          if header.Some? && header.value.parentHash == last then b == a.(phase := a.phase.(done := done + 1, last := Of(header.value)))
          else b == a.(phase := Waiting, known := a.count)
        else if committed && section == a.count then
          b == Index(section + 1, a.heads[section := last], a.known, (section + 1) * size - 1, Waiting)
        else b == a.(phase := Waiting, known := a.count)
  }

  class ChainIndexer {
    const sectionSize: nat
    const confirmsReq: nat
    // the index database
    var dbCount: nat
    var heads: map<nat, Hash>
    // the cached state
    var storedSections: nat
    var knownSections: nat
    var cascadedHead: nat
    var phase: Phase

    ghost predicate Valid()
      reads this
    {
      && sectionSize > 0 && DbOk(dbCount, heads, sectionSize) && storedSections == dbCount
      && PhaseOk(phase, storedSections, heads, sectionSize)
    }

    constructor (sectionSize: nat, confirmsReq: nat)
      requires sectionSize > 0
      ensures Valid() && storedSections == 0 && phase == Waiting
      ensures this.sectionSize == sectionSize && this.confirmsReq == confirmsReq
    {
      this.sectionSize, this.confirmsReq := sectionSize, confirmsReq;
      dbCount, heads := 0, map[];
      storedSections, knownSections, cascadedHead, phase := 0, 0, 0, Waiting;
    }

    function State(): Index
      reads this
    {
      Index(storedSections, heads, knownSections, cascadedHead, phase)
    }

    function SectionHead(section: nat): Hash
      reads this
    {
      if section in heads then heads[section] else Zero
    }

    // Each of the next three methods is one database write; its contract says that the database is in order
    // after it.

    method PutCount(count: nat)
      requires DbOk(count, heads, sectionSize)
      modifies this`dbCount
      ensures dbCount == count && DbOk(dbCount, heads, sectionSize)
    {
      dbCount := count;
    }

    method PutSectionHead(section: nat, hash: Hash)
      requires DbOk(dbCount, heads, sectionSize) && section >= dbCount
      modifies this`heads
      ensures heads == old(heads)[section := hash] && DbOk(dbCount, heads, sectionSize)
    {
      WritesAbove(dbCount, heads, heads[section := hash], sectionSize);
      heads := heads[section := hash];
    }

    method RemoveSectionHead(section: nat)
      requires DbOk(dbCount, heads, sectionSize) && section >= dbCount
      modifies this`heads
      ensures heads == old(heads) - {section} && DbOk(dbCount, heads, sectionSize)
    {
      WritesAbove(dbCount, heads, heads - {section}, sectionSize);
      heads := heads - {section};
    }

    /** Sets the number of valid sections, removing the heads of those rolled back. */
    method SetValidSections(sections: nat)
      requires DbOk(sections, heads, sectionSize)
      modifies this`dbCount, this`heads, this`storedSections
      ensures dbCount == storedSections == sections && DbOk(dbCount, heads, sectionSize)
      ensures forall s :: s in heads <==> s in old(heads) && !(sections <= s < old(storedSections))
      ensures forall s :: s in heads ==> heads[s] == old(heads)[s]
    {
      PutCount(sections);
      while storedSections > sections
        invariant DbOk(dbCount, heads, sectionSize) && dbCount == sections
        invariant sections <= storedSections || storedSections == old(storedSections)
        invariant storedSections <= old(storedSections)
        invariant forall s :: s in heads <==> s in old(heads) && !(storedSections <= s < old(storedSections))
        invariant forall s :: s in heads ==> heads[s] == old(heads)[s]
        decreases storedSections
      {
        storedSections := storedSections - 1;
        RemoveSectionHead(storedSections);
      }
      storedSections := sections;
    }

    /** A new chain head, or a reorganisation down to a common ancestor. */
    method NewHead(head: nat, reorg: bool)
      requires Valid()
      modifies this`dbCount, this`heads, this`storedSections, this`knownSections, this`cascadedHead
      ensures Valid()
      ensures Advances(sectionSize, confirmsReq, old(State()), Head(head, reorg), State())
    {
      if reorg {
        var changed := head / sectionSize;
        if changed < knownSections {
          knownSections := changed;
        }
        if changed < storedSections {
          FewerOk(dbCount, changed, heads, sectionSize);
          SetValidSections(changed);
        }
        if changed * sectionSize < cascadedHead {
          cascadedHead := changed * sectionSize;
        }
        return;
      }
      if head >= confirmsReq {
        var sections := (head + 1 - confirmsReq) / sectionSize;
        if sections > knownSections {
          knownSections := sections;
        }
      }
    }

    /** The update loop takes up the next section and releases the lock. */
    method Begin()
      requires Valid() && phase == Waiting
      modifies this`phase
      ensures Valid()
      ensures forall header, committed :: Advances(sectionSize, confirmsReq, old(State()), Step(header, committed), State())
    {
      if knownSections > storedSections {
        if storedSections > 0 {
          assert SectionOk(heads, sectionSize, storedSections - 1);
          LinkedHead(heads[storedSections - 1], sectionSize, Before(heads, storedSections - 1));
        }
        var oldHead := if storedSections > 0 then SectionHead(storedSections - 1) else Zero;
        phase := Processing(storedSections, oldHead, 0, oldHead);
      }
    }

    /** Reads the next canonical header of the section, whatever the chain database holds by then. */
    method ProcessHeader(header: Option<Header>)
      requires Valid() && phase.Processing? && phase.done < sectionSize
      modifies this`phase, this`knownSections
      ensures Valid()
      ensures forall committed :: Advances(sectionSize, confirmsReq, old(State()), Step(header, committed), State())
    {
      if header.None? || header.value.parentHash != phase.last {
        phase, knownSections := Waiting, storedSections;
        return;
      }
      phase := phase.(done := phase.done + 1, last := Of(header.value));
    }

    /** Takes the lock again: the section is stored unless its processing failed or its predecessor changed. */
    method Finish(committed: bool)
      requires Valid() && phase.Processing? && phase.done == sectionSize
      modifies this
      ensures Valid()
      ensures forall header :: Advances(sectionSize, confirmsReq, old(State()), Step(header, committed), State())
    {
      hide DbOk, LinkedBy;
      ghost var was := heads;
      var section, newHead := phase.section, phase.last;
      var previous := if section > 0 then SectionHead(section - 1) else Zero;
      if committed && phase.oldHead == previous {
        NoRollback(phase, storedSections, heads, sectionSize);
        PutSectionHead(section, newHead);
        Completes(phase, dbCount, heads, sectionSize);
        SetValidSections(section + 1);
        assert heads == was[section := newHead];
        assert (section + 1) * sectionSize >= sectionSize;
        cascadedHead := storedSections * sectionSize - 1;
      } else {
        knownSections := storedSections;
      }
      phase := Waiting;
    }

    /** A crash loses the cached state; a restart reloads the stored count. */
    method Restart()
      requires sectionSize > 0 && DbOk(dbCount, heads, sectionSize)
      modifies this`storedSections, this`knownSections, this`cascadedHead, this`phase
      ensures Valid() && State() == Index(dbCount, heads, 0, 0, Waiting)
    {
      storedSections, knownSections, cascadedHead, phase := dbCount, 0, 0, Waiting;
    }

    /** One event, whenever it comes. */
    method Handle(e: IndexEvent)
      requires Valid()
      modifies this
      ensures Valid() && Advances(sectionSize, confirmsReq, old(State()), e, State())
    {
      match e
      case Head(head, reorg) =>
        NewHead(head, reorg);
      case Crash =>
        Restart();
      case Step(header, committed) =>
        if phase == Waiting {
          Begin();
        } else if phase.done < sectionSize {
          ProcessHeader(header);
        } else {
          Finish(committed);
        }
    }

    /** Any interleaving of new heads, reorganisations, crashes and the steps of the update loop: every event does
        what it should, and the database is in order throughout. */
    method Run(events: seq<IndexEvent>) returns (ghost trace: seq<Index>)
      requires Valid()
      modifies this
      ensures Valid() && |trace| == |events| + 1 && trace[0] == old(State()) && trace[|events|] == State()
      ensures forall i :: 0 <= i < |events| ==> Advances(sectionSize, confirmsReq, trace[i], events[i], trace[i + 1])
      ensures forall i :: 0 <= i <= |events| ==> DbOk(trace[i].count, trace[i].heads, sectionSize)
    {
      hide Advances, DbOk, PhaseOk;
      trace := [State()];
      for i := 0 to |events|
        invariant Valid() && |trace| == i + 1 && trace[0] == old(State()) && trace[i] == State()
        invariant forall j :: 0 <= j < i ==> Advances(sectionSize, confirmsReq, trace[j], events[j], trace[j + 1])
        invariant forall j :: 0 <= j <= i ==> DbOk(trace[j].count, trace[j].heads, sectionSize)
      {
        Handle(events[i]);
        trace := trace + [State()];
      }
    }
  }

  lemma FewerOk(count: nat, fewer: nat, heads: map<nat, Hash>, size: nat)
    requires DbOk(count, heads, size) && fewer <= count
    ensures DbOk(fewer, heads, size)
  {
  }
}
