/** The event feed: one value delivered to every subscribed channel. */
module Feeds {
  type Channel = nat

  /** The channel over which a running send is told to drop a subscription. */
  const REMOVE_SUB: Channel := 0
  const FIRST_SUB: nat := 1

  /** The position of the first case for a channel, or -1. */
  method Find(cases: seq<Channel>, ch: Channel) returns (index: int)
    ensures -1 <= index < |cases|
    ensures index == -1 ==> ch !in cases
    ensures index >= 0 ==> cases[index] == ch && ch !in cases[..index]
  {
    for i := 0 to |cases|
      invariant ch !in cases[..i]
    {
      if cases[i] == ch {
        return i;
      }
    }
    return -1;
  }

  function Delete(cases: seq<Channel>, index: nat): (r: seq<Channel>)
    requires index < |cases|
    ensures |r| == |cases| - 1
  {
    cases[..index] + cases[index + 1..]
  }

  /** The list without the first case of a channel. */
  function Without(cases: seq<Channel>, ch: Channel): seq<Channel> {
    if cases == [] then [] else if cases[0] == ch then cases[1..] else [cases[0]] + Without(cases[1..], ch)
  }

  lemma {:induction false} DeleteFirst(cases: seq<Channel>, index: nat)
    requires index < |cases| && cases[index] !in cases[..index]
    ensures Delete(cases, index) == Without(cases, cases[index])
    decreases |cases|
  {
    if index > 0 {
      var tail := cases[1..];
      assert tail[..index - 1] == cases[1..index];
      DeleteFirst(tail, index - 1);
      assert cases[..index] == [cases[0]] + tail[..index - 1];
    }
  }

  lemma {:induction false} WithoutNone(cases: seq<Channel>, ch: Channel)
    requires ch !in cases
    ensures Without(cases, ch) == cases
    decreases |cases|
  {
    if cases != [] {
      WithoutNone(cases[1..], ch);
    }
  }

  /** What happens to the inbox during a send: a channel subscribes, or a subscription that is still in the inbox ends. */
  datatype InboxOp = Join(ch: Channel) | Leave(ch: Channel)

  /** The inbox after these operations, starting empty. */
  function InboxAfter(ops: seq<InboxOp>): seq<Channel>
    decreases |ops|
  {
    if ops == [] then []
    else
      var before := InboxAfter(ops[..|ops| - 1]);
      match ops[|ops| - 1]
      case Join(ch) => before + [ch]
      case Leave(ch) => Without(before, ch)
  }

  lemma {:induction false} WithoutPart(cases: seq<Channel>, ch: Channel, x: Channel)
    ensures x in Without(cases, ch) ==> x in cases
    decreases |cases|
  {
    if cases != [] && cases[0] != ch {
      WithoutPart(cases[1..], ch, x);
    }
  }

  /** Only channels that subscribed are in the inbox, and without a departure all of them, in order. */
  lemma {:induction false} InboxMeans(ops: seq<InboxOp>, x: Channel)
    ensures x in InboxAfter(ops) ==> Join(x) in ops
    ensures (forall op :: op in ops ==> op.Join?) ==> |InboxAfter(ops)| == |ops| && forall i :: 0 <= i < |ops| ==> InboxAfter(ops)[i] == ops[i].ch
    decreases |ops|
  {
    if ops != [] {
      var front, last := ops[..|ops| - 1], ops[|ops| - 1];
      InboxMeans(front, x);
      assert ops == front + [last] && last in ops;
      if last.Leave? {
        WithoutPart(InboxAfter(front), last.ch, x);
      }
    }
  }

  /** Swaps a case with the last active one. */
  function Deactivate(cases: seq<Channel>, active: nat, index: nat): (r: seq<Channel>)
    requires index < active <= |cases|
    ensures |r| == |cases|
  {
    cases[index := cases[active - 1]][active - 1 := cases[index]]
  }

  ghost function Active(cases: seq<Channel>, active: nat): multiset<Channel>
    requires FIRST_SUB <= active <= |cases|
  {
    multiset(cases[FIRST_SUB..active])
  }

  ghost function Idle(cases: seq<Channel>, active: nat): multiset<Channel>
    requires active <= |cases|
  {
    multiset(cases[active..])
  }

  lemma SplitAt(s: seq<Channel>, i: nat)
    requires i < |s|
    ensures multiset(s) == multiset(s[..i]) + multiset{s[i]} + multiset(s[i + 1..])
  {
    assert s == s[..i] + [s[i]] + s[i + 1..];
  }

  lemma DeleteOne(s: seq<Channel>, i: nat)
    requires i < |s|
    ensures multiset(Delete(s, i)) == multiset(s) - multiset{s[i]} && forall x :: x in Delete(s, i) ==> x in s
  {
    SplitAt(s, i);
  }

  lemma SwapKeeps(s: seq<Channel>, i: nat, j: nat)
    requires i <= j < |s|
    ensures multiset(s[i := s[j]][j := s[i]]) == multiset(s)
  {
    var t := s[i := s[j]][j := s[i]];
    if i == j {
      assert t == s;
    } else {
      SplitAt(s, j);
      SplitAt(t, j);
      SplitAt(s[..j], i);
      SplitAt(t[..j], i);
      assert t[..j][..i] == s[..j][..i] && t[..j][i + 1..] == s[..j][i + 1..] && t[j + 1..] == s[j + 1..];
    }
  }

  /** Swapping an element to the end and leaving it off takes it out. */
  lemma SwapOut(s: seq<Channel>, i: nat)
    requires i < |s|
    ensures var t := s[i := s[|s| - 1]][|s| - 1 := s[i]];
            multiset(s) == multiset(t[..|s| - 1]) + multiset{s[i]}
  {
    var t := s[i := s[|s| - 1]][|s| - 1 := s[i]];
    SwapKeeps(s, i, |s| - 1);
    assert t == t[..|s| - 1] + [s[i]];
  }

  lemma DeactivateParts(cases: seq<Channel>, active: nat, index: nat)
    requires FIRST_SUB <= index < active <= |cases|
    ensures var r, a := Deactivate(cases, active, index), cases[FIRST_SUB..active];
            && r[FIRST_SUB..active - 1] == a[index - 1 := a[|a| - 1]][|a| - 1 := a[index - 1]][..|a| - 1]
            && r[active - 1..] == [cases[index]] + cases[active..] && r[0] == cases[0]
  {
  }

  /** Deactivating a case moves one channel from the active to the idle ones. */
  lemma DeactivateMoves(cases: seq<Channel>, active: nat, index: nat)
    requires FIRST_SUB <= index < active <= |cases|
    ensures var r := Deactivate(cases, active, index);
            && Active(cases, active) == Active(r, active - 1) + multiset{cases[index]}
            && Idle(r, active - 1) == Idle(cases, active) + multiset{cases[index]}
            && r[0] == cases[0]
  {
    hide Deactivate;
    DeactivateParts(cases, active, index);
    SwapOut(cases[FIRST_SUB..active], index - 1);
  }

  lemma DeleteActive(cases: seq<Channel>, active: nat, index: nat)
    requires FIRST_SUB <= index < active <= |cases|
    ensures var r := Delete(cases, index);
            && Active(cases, active) == Active(r, active - 1) + multiset{cases[index]}
            && Idle(r, active - 1) == Idle(cases, active) && r[0] == cases[0]
  {
    var r := Delete(cases, index);
    var a := cases[FIRST_SUB..active];
    SplitAt(a, index - 1);
    assert a[..index - 1] == cases[FIRST_SUB..index] && a[index..] == cases[index + 1..active];
    assert r[FIRST_SUB..active - 1] == a[..index - 1] + a[index..];
    assert r[active - 1..] == cases[active..];
  }

  lemma DeleteIdle(cases: seq<Channel>, active: nat, index: nat)
    requires FIRST_SUB <= active <= index < |cases|
    ensures var r := Delete(cases, index);
            && Active(r, active) == Active(cases, active)
            && Idle(cases, active) == Idle(r, active) + multiset{cases[index]} && r[0] == cases[0]
  {
    var r := Delete(cases, index);
    var a := cases[active..];
    SplitAt(a, index - active);
    assert r[active..] == a[..index - active] + a[index - active + 1..];
    assert r[FIRST_SUB..active] == cases[FIRST_SUB..active];
  }

  /** What one send amounts to.  Each channel subscribed at the start is either delivered to once or was
      unsubscribed before its turn, and those delivered to stay subscribed unless unsubscribed afterwards. */
  ghost predicate SentOnce(start: multiset<Channel>, end: multiset<Channel>, delivered: multiset<Channel>,
                           before: multiset<Channel>, after: multiset<Channel>) {
    start == delivered + before && delivered == end + after
  }

  /** Half-way through a send: the cases before `active` still wait, the ones behind have been served. */
  ghost predicate InFlight(cases: seq<Channel>, active: nat, start: multiset<Channel>, delivered: multiset<Channel>,
                           before: multiset<Channel>, after: multiset<Channel>) {
    && FIRST_SUB <= active <= |cases| && cases[0] == REMOVE_SUB && start[REMOVE_SUB] == 0
    && start == Active(cases, active) + delivered + before && delivered == Idle(cases, active) + after
  }

  lemma Landed(cases: seq<Channel>, start: multiset<Channel>, delivered: multiset<Channel>,
               before: multiset<Channel>, after: multiset<Channel>)
    requires InFlight(cases, FIRST_SUB, start, delivered, before, after)
    ensures |cases| >= FIRST_SUB && cases[0] == REMOVE_SUB && REMOVE_SUB !in cases[FIRST_SUB..]
    ensures SentOnce(start, multiset(cases[FIRST_SUB..]), delivered, before, after)
  {
    assert Active(cases, FIRST_SUB) == multiset{};
    assert multiset(cases[FIRST_SUB..])[REMOVE_SUB] <= start[REMOVE_SUB];
  }

  /** A channel for which no request to unsubscribe comes in gets the value exactly once per subscription and
      stays subscribed; any other one misses at most one delivery per request. */
  lemma StayersServed(start: multiset<Channel>, end: multiset<Channel>, delivered: multiset<Channel>,
                      before: multiset<Channel>, after: multiset<Channel>, requests: seq<Channel>, ch: Channel)
    requires SentOnce(start, end, delivered, before, after) && before + after <= multiset(requests)
    ensures ch !in requests ==> delivered[ch] == start[ch] == end[ch]
    ensures start[ch] <= end[ch] + multiset(requests)[ch] && end[ch] <= delivered[ch] <= start[ch]
  {
    assert start[ch] == delivered[ch] + before[ch] && delivered[ch] == end[ch] + after[ch];
    assert (before + after)[ch] <= multiset(requests)[ch];
  }

  /** The requests taken so far are those that made subscriptions leave, and the next one is still listed. */
  lemma NextRequested(cases: seq<Channel>, active: nat, start: multiset<Channel>, delivered: multiset<Channel>,
                      before: multiset<Channel>, after: multiset<Channel>, requests: seq<Channel>, taken: nat)
    requires InFlight(cases, active, start, delivered, before, after) && multiset(requests) <= start
    requires taken < |requests| && before + after == multiset(requests[..taken])
    ensures requests[taken] in cases[FIRST_SUB..] && requests[taken] != REMOVE_SUB
    ensures before + after + multiset{requests[taken]} == multiset(requests[..taken + 1])
  {
    var ch := requests[taken];
    assert requests[..taken + 1] == requests[..taken] + [ch];
    assert requests == requests[..taken] + [ch] + requests[taken + 1..];
    assert multiset(requests)[ch] >= (before + after)[ch] + 1;
    assert cases[FIRST_SUB..] == cases[FIRST_SUB..active] + cases[active..];
    assert multiset(cases[FIRST_SUB..])[ch] == Active(cases, active)[ch] + Idle(cases, active)[ch];
    assert start[ch] == Active(cases, active)[ch] + delivered[ch] + before[ch];
    assert delivered[ch] == Idle(cases, active)[ch] + after[ch];
    assert multiset(cases[FIRST_SUB..])[ch] > 0;
  }

  lemma TakenOff(cases: seq<Channel>, inbox: seq<Channel>, start: multiset<Channel>)
    requires |cases| >= FIRST_SUB && cases[0] == REMOVE_SUB && REMOVE_SUB !in cases[FIRST_SUB..] && REMOVE_SUB !in inbox
    requires start == multiset(cases[FIRST_SUB..]) + multiset(inbox)
    ensures InFlight(cases + inbox, |cases + inbox|, start, multiset{}, multiset{}, multiset{})
  {
    var all := cases + inbox;
    assert all[FIRST_SUB..|all|] == cases[FIRST_SUB..] + inbox;
    assert all[|all|..] == [];
  }

  lemma Served(cases: seq<Channel>, active: nat, index: nat, start: multiset<Channel>, delivered: multiset<Channel>,
               before: multiset<Channel>, after: multiset<Channel>)
    requires InFlight(cases, active, start, delivered, before, after) && FIRST_SUB <= index < active
    ensures InFlight(Deactivate(cases, active, index), active - 1, start, delivered + multiset{cases[index]}, before, after)
  {
    DeactivateMoves(cases, active, index);
    hide Active, Idle, Deactivate;
  }

  lemma LeftEarly(cases: seq<Channel>, active: nat, index: nat, start: multiset<Channel>, delivered: multiset<Channel>,
                  before: multiset<Channel>, after: multiset<Channel>)
    requires InFlight(cases, active, start, delivered, before, after) && FIRST_SUB <= index < active
    ensures InFlight(Delete(cases, index), active - 1, start, delivered, before + multiset{cases[index]}, after)
  {
    DeleteActive(cases, active, index);
    hide Active, Idle, Delete;
  }

  lemma LeftLate(cases: seq<Channel>, active: nat, index: nat, start: multiset<Channel>, delivered: multiset<Channel>,
                 before: multiset<Channel>, after: multiset<Channel>)
    requires InFlight(cases, active, start, delivered, before, after) && active <= index < |cases|
    ensures InFlight(Delete(cases, index), active, start, delivered, before, after + multiset{cases[index]})
  {
    DeleteIdle(cases, active, index);
    hide Active, Idle, Delete;
  }

  class Feed {
    var sendCases: seq<Channel>
    var inbox: seq<Channel>
    /** How many values each channel has been handed. */
    var received: multiset<Channel>

    ghost predicate Valid()
      reads this
    {
      && |sendCases| >= FIRST_SUB && sendCases[0] == REMOVE_SUB
      && REMOVE_SUB !in sendCases[FIRST_SUB..] && REMOVE_SUB !in inbox
    }

    /** The subscriptions a send has already taken over, and all of them. */
    ghost function Listed(): multiset<Channel>
      reads this
      requires Valid()
    {
      multiset(sendCases[FIRST_SUB..])
    }

    ghost function Subscribed(): multiset<Channel>
      reads this
      requires Valid()
    {
      Listed() + multiset(inbox)
    }

    constructor ()
      ensures Valid() && Subscribed() == multiset{} && received == multiset{}
    {
      sendCases, inbox, received := [REMOVE_SUB], [], multiset{};
    }

    method Subscribe(ch: Channel)
      requires Valid() && ch != REMOVE_SUB
      modifies this`inbox
      ensures Valid() && Subscribed() == old(Subscribed()) + multiset{ch} && Listed() == old(Listed())
    {
      inbox := inbox + [ch];
    }

    /** Ends a subscription while no send is running. */
    method Remove(ch: Channel)
      requires Valid() && ch in Subscribed()
      modifies this`sendCases, this`inbox
      ensures Valid() && Subscribed() == old(Subscribed()) - multiset{ch}
    {
      var index := Find(inbox, ch);
      if index != -1 {
        DeleteOne(inbox, index);
        inbox := Delete(inbox, index);
        return;
      }
      DropCase(ch);
    }

    method DropCase(ch: Channel)
      requires Valid() && ch in Listed()
      modifies this`sendCases
      ensures Valid() && Listed() == old(Listed()) - multiset{ch}
    {
      var index := Find(sendCases, ch);
      DeleteIdle(sendCases, FIRST_SUB, index);
      sendCases := Delete(sendCases, index);
    }

    /** Some of the operations that other goroutines do on the inbox. */
    method Others(ops: seq<InboxOp>, done: nat) returns (now: nat)
      requires done <= |ops| && inbox == InboxAfter(ops[..done]) && Join(REMOVE_SUB) !in ops && REMOVE_SUB !in inbox
      modifies this`inbox
      ensures done <= now <= |ops| && inbox == InboxAfter(ops[..now]) && REMOVE_SUB !in inbox
    {
      now := done;
      var upTo: nat := *;
      while now < |ops| && now < upTo
        invariant done <= now <= |ops| && inbox == InboxAfter(ops[..now])
      {
        assert ops[..now + 1][..now] == ops[..now];
        match ops[now] {
        case Join(ch) =>
          inbox := inbox + [ch];
        case Leave(ch) =>
          var index := Find(inbox, ch);
          if index != -1 {
            DeleteFirst(inbox, index);
            inbox := Delete(inbox, index);
          } else {
            WithoutNone(inbox, ch);
          }
        }
        now := now + 1;
      }
      InboxMeans(ops[..now], REMOVE_SUB);
    }

    /** The fast path: tries every waiting channel once, without blocking. */
    method TryAll(waiting: nat, ghost start: multiset<Channel>, ghost served: multiset<Channel>,
                  ghost before: multiset<Channel>, ghost after: multiset<Channel>, ghost base: multiset<Channel>)
      returns (active: nat, sent: nat, ghost delivered: multiset<Channel>)
      requires InFlight(sendCases, waiting, start, served, before, after) && received == base + served
      modifies this`sendCases, this`received
      ensures InFlight(sendCases, active, start, delivered, before, after) && FIRST_SUB <= active <= waiting
      ensures |sendCases| == |old(sendCases)| && |delivered| == |served| + sent
      ensures received == base + delivered
    {
      hide Active, Idle, Deactivate;
      active, sent, delivered := waiting, 0, served;
      var i := FIRST_SUB;
      while i < active
        invariant FIRST_SUB <= i <= active <= waiting && |sendCases| == |old(sendCases)| && |delivered| == |served| + sent
        invariant received == base + delivered
        invariant InFlight(sendCases, active, start, delivered, before, after)
        decreases active - i
      {
        var ok: bool := *;
        if ok {
          Served(sendCases, active, i, start, delivered, before, after);
          HandOver(base, delivered, received, sendCases[i]);
          delivered := delivered + multiset{sendCases[i]};
          received := received + multiset{sendCases[i]};
          sendCases := Deactivate(sendCases, active, i);
          active, sent := active - 1, sent + 1;
        } else {
          i := i + 1;
        }
      }
    }

    /** Serves a request to unsubscribe that interrupts the send. */
    method Interrupt(ch: Channel, waiting: nat, ghost start: multiset<Channel>, ghost delivered: multiset<Channel>,
                     ghost before: multiset<Channel>, ghost after: multiset<Channel>)
      returns (active: nat, ghost early: multiset<Channel>, ghost late: multiset<Channel>)
      requires InFlight(sendCases, waiting, start, delivered, before, after) && ch in sendCases[FIRST_SUB..] && ch != REMOVE_SUB
      modifies this`sendCases
      ensures InFlight(sendCases, active, start, delivered, early, late) && FIRST_SUB <= active <= |sendCases|
      ensures |sendCases| == |old(sendCases)| - 1 && active <= waiting && early + late == before + after + multiset{ch}
    {
      hide Active, Idle, Delete;
      var index := Find(sendCases, ch);
      active, early, late := waiting, before, after;
      if index < active {
        LeftEarly(sendCases, active, index, start, delivered, before, after);
        sendCases := Delete(sendCases, index);
        active, early := active - 1, before + multiset{ch};
      } else {
        LeftLate(sendCases, active, index, start, delivered, before, after);
        sendCases := Delete(sendCases, index);
        late := after + multiset{ch};
      }
    }

    /** Delivers a value to every subscribed channel, whatever the order in which receivers become ready
        and whichever of them unsubscribe meanwhile.  `requests` are the channels whose subscriptions are
        ended during the send; as many of them as come in time, `taken`, interrupt it.  `ops` are the
        operations on the inbox meanwhile, of which `done` come before the end. */
    method Send(requests: seq<Channel>, ops: seq<InboxOp>)
      returns (nsent: nat, taken: nat, done: nat, ghost delivered: multiset<Channel>, ghost before: multiset<Channel>, ghost after: multiset<Channel>)
      requires Valid() && multiset(requests) <= Subscribed() && Join(REMOVE_SUB) !in ops
      modifies this
      ensures Valid() && nsent == |delivered| && received == old(received) + delivered
      ensures SentOnce(old(Subscribed()), Listed(), delivered, before, after)
      ensures done <= |ops| && inbox == InboxAfter(ops[..done])
      ensures taken <= |requests| && before + after == multiset(requests[..taken])
      ensures forall ch :: ch !in requests ==> received[ch] == old(received)[ch] + old(Subscribed())[ch] && Listed()[ch] == old(Subscribed())[ch]
    {
      hide Active, Idle, Deactivate, InFlight, SentOnce, Tallied, InboxAfter;
      ghost var start, base := Subscribed(), received;
      TakenOff(sendCases, inbox, start);
      sendCases, inbox := sendCases + inbox, [];
      nsent, taken, done, delivered, before, after := 0, 0, 0, multiset{}, multiset{}, multiset{};
      InboxEmpty();
      StartTally(requests, base);
      var active: nat := |sendCases|;
      while active != FIRST_SUB
        invariant InFlight(sendCases, active, start, delivered, before, after) && REMOVE_SUB !in inbox && FIRST_SUB <= active <= |sendCases|
        invariant done <= |ops| && inbox == InboxAfter(ops[..done])
        invariant taken <= |requests| && Tallied(received, base, delivered, nsent, before, after, requests, taken)
        decreases |sendCases| + active
      {
        TallyMeans(received, base, delivered, nsent, before, after, requests, taken);
        var sent;
        active, sent, delivered := TryAll(active, start, delivered, before, after, base);
        nsent := nsent + sent;
        TallyIs(received, base, delivered, nsent, before, after, requests, taken);
        if active == FIRST_SUB {
          break;
        }
        done := Others(ops, done);
        var interrupted: bool := *;
        if interrupted && taken < |requests| {
          NextRequested(sendCases, active, start, delivered, before, after, requests, taken);
          active, before, after := Interrupt(requests[taken], active, start, delivered, before, after);
          taken := taken + 1;
          TallyIs(received, base, delivered, nsent, before, after, requests, taken);
        } else {
          var chosen: nat :| FIRST_SUB <= chosen < active;
          active, delivered := Deliver(chosen, active, start, delivered, before, after, base);
          nsent := nsent + 1;
          TallyIs(received, base, delivered, nsent, before, after, requests, taken);
        }
      }
      TallyMeans(received, base, delivered, nsent, before, after, requests, taken);
      Landed(sendCases, start, delivered, before, after);
      AllStayersServed(start, Listed(), delivered, before, after, requests, taken, base, received);
    }

    /** Hands the value to a chosen receiver. */
    method Deliver(chosen: nat, waiting: nat, ghost start: multiset<Channel>, ghost served: multiset<Channel>,
                   ghost before: multiset<Channel>, ghost after: multiset<Channel>, ghost base: multiset<Channel>)
      returns (active: nat, ghost delivered: multiset<Channel>)
      requires InFlight(sendCases, waiting, start, served, before, after) && received == base + served && FIRST_SUB <= chosen < waiting
      modifies this`sendCases, this`received
      ensures InFlight(sendCases, active, start, delivered, before, after) && active == waiting - 1
      ensures |sendCases| == |old(sendCases)| && |delivered| == |served| + 1 && received == base + delivered
    {
      hide Active, Idle, Deactivate;
      Served(sendCases, waiting, chosen, start, served, before, after);
      HandOver(base, served, received, sendCases[chosen]);
      delivered := served + multiset{sendCases[chosen]};
      received := received + multiset{sendCases[chosen]};
      sendCases := Deactivate(sendCases, waiting, chosen);
      active := waiting - 1;
    }
  }

  /** The accounts of a running send: values handed over, their number, and the requests taken. */
  ghost predicate Tallied(received: multiset<Channel>, base: multiset<Channel>, delivered: multiset<Channel>, nsent: nat,
                          before: multiset<Channel>, after: multiset<Channel>, requests: seq<Channel>, taken: nat)
    requires taken <= |requests|
  {
    received == base + delivered && nsent == |delivered| && before + after == multiset(requests[..taken])
  }

  lemma InboxEmpty()
    ensures InboxAfter([]) == []
  {
  }

  lemma StartTally(requests: seq<Channel>, base: multiset<Channel>)
    ensures Tallied(base, base, multiset{}, 0, multiset{}, multiset{}, requests, 0)
  {
  }

  lemma TallyIs(received: multiset<Channel>, base: multiset<Channel>, delivered: multiset<Channel>, nsent: nat,
                before: multiset<Channel>, after: multiset<Channel>, requests: seq<Channel>, taken: nat)
    requires taken <= |requests| && received == base + delivered && nsent == |delivered| && before + after == multiset(requests[..taken])
    ensures Tallied(received, base, delivered, nsent, before, after, requests, taken)
  {
  }

  lemma TallyMeans(received: multiset<Channel>, base: multiset<Channel>, delivered: multiset<Channel>, nsent: nat,
                   before: multiset<Channel>, after: multiset<Channel>, requests: seq<Channel>, taken: nat)
    requires taken <= |requests| && Tallied(received, base, delivered, nsent, before, after, requests, taken)
    ensures received == base + delivered && nsent == |delivered| && before + after == multiset(requests[..taken])
  {
  }

  lemma AllStayersServed(start: multiset<Channel>, end: multiset<Channel>, delivered: multiset<Channel>, before: multiset<Channel>,
                         after: multiset<Channel>, requests: seq<Channel>, taken: nat, base: multiset<Channel>, received: multiset<Channel>)
    requires SentOnce(start, end, delivered, before, after) && received == base + delivered
    requires taken <= |requests| && before + after == multiset(requests[..taken])
    ensures forall ch :: ch !in requests ==> received[ch] == base[ch] + start[ch] && end[ch] == start[ch]
  {
    assert requests == requests[..taken] + requests[taken..];
    forall ch | ch !in requests
      ensures delivered[ch] == start[ch] == end[ch]
    {
      StayersServed(start, end, delivered, before, after, requests, ch);
    }
  }

  /** One value handed to a channel is one delivery more. */
  lemma HandOver(base: multiset<Channel>, delivered: multiset<Channel>, received: multiset<Channel>, ch: Channel)
    requires received == base + delivered
    ensures received + multiset{ch} == base + (delivered + multiset{ch}) && |delivered + multiset{ch}| == |delivered| + 1
  {
  }
}
