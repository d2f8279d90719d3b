/** The request distributor: requests are served in creation order, each by a suitable peer. */
module Distributors {
  import opened Options
  import opened WeightTrees
  import opened WeightedSelects

  type Req = nat
  type Peer = nat

  /** What the peers say during one look at the queue: whether a peer could take a request now or later, how
      long it would have to wait, and its weight among the peers that need not wait. */
  datatype Offers = Offers(able: (Req, Peer) -> bool, wait: (Req, Peer) -> nat, weight: (Req, Peer) -> nat)

  /** The position of the first request a peer can serve, or the length of the queue. */
  function FirstFor(queue: seq<Req>, p: Peer, o: Offers): (i: nat)
    ensures i <= |queue|
  {
    if queue == [] || o.able(queue[0], p) then 0 else 1 + FirstFor(queue[1..], p, o)
  }

  lemma {:induction false} FirstForIs(queue: seq<Req>, p: Peer, o: Offers, i: nat)
    requires i <= |queue| && (forall j :: 0 <= j < i ==> !o.able(queue[j], p)) && (i < |queue| ==> o.able(queue[i], p))
    ensures FirstFor(queue, p, o) == i
    decreases |queue|
  {
    if i > 0 {
      FirstForIs(queue[1..], p, o, i - 1);
    }
  }

  lemma {:induction false} FirstForFacts(queue: seq<Req>, p: Peer, o: Offers)
    ensures var i := FirstFor(queue, p, o);
            (forall j :: 0 <= j < i ==> !o.able(queue[j], p)) && (i < |queue| ==> o.able(queue[i], p))
    decreases |queue|
  {
    if queue != [] && !o.able(queue[0], p) {
      FirstForFacts(queue[1..], p, o);
    }
  }

  /** The request a peer would be given. */
  ghost predicate Due(queue: seq<Req>, p: Peer, r: Req, o: Offers) {
    var i := FirstFor(queue, p, o);
    i < |queue| && queue[i] == r
  }

  /** No peer can serve the request. */
  ghost predicate Hopeless(r: Req, peers: set<Peer>, o: Offers) {
    forall p :: p in peers ==> !o.able(r, p)
  }

  datatype Next = Nothing | Send(peer: Peer, req: Req) | Wait(peer: Peer, req: Req, time: nat)

  /** What a look at the queue should yield: a peer that need not wait for the request due to it, if there is
      one; otherwise the shortest wait; and nothing if no peer can serve any request. */
  ghost predicate Rightly(next: Next, queue: seq<Req>, peers: set<Peer>, o: Offers) {
    match next
    case Send(p, r) => p in peers && Due(queue, p, r, o) && o.wait(r, p) == 0
    case Wait(p, r, t) =>
      && p in peers && Due(queue, p, r, o) && o.wait(r, p) == t > 0
      && (forall q, s :: q in peers && Due(queue, q, s, o) ==> o.wait(s, q) >= t)
    case Nothing => forall q, s :: q in peers ==> !Due(queue, q, s, o)
  }

  /** The queue is strictly sorted by creation order, and no two requests share a place in that order. */
  ghost predicate Ordered(queue: seq<Req>, order: map<Req, nat>, last: nat) {
    && (forall r :: r in queue ==> r in order)
    && (forall i, j :: 0 <= i < j < |queue| ==> order[queue[i]] < order[queue[j]])
    && (forall r :: r in order ==> 1 <= order[r] <= last)
    && (forall r, s :: r in order && s in order && order[r] == order[s] ==> r == s)
  }

  lemma NewOrder(queue: seq<Req>, order: map<Req, nat>, last: nat, r: Req)
    requires Ordered(queue, order, last) && r !in order
    ensures r !in queue && Ordered(queue, order[r := last + 1], last + 1)
  {
  }

  lemma InsertOrdered(queue: seq<Req>, order: map<Req, nat>, last: nat, r: Req, k: nat)
    requires Ordered(queue, order, last) && r in order && r !in queue && k <= |queue|
    requires forall j :: 0 <= j < k ==> order[queue[j]] < order[r]
    requires k < |queue| ==> order[queue[k]] >= order[r]
    ensures Ordered(queue[..k] + [r] + queue[k..], order, last)
  {
    var more := queue[..k] + [r] + queue[k..];
    forall j | k <= j < |queue|
      ensures order[r] < order[queue[j]]
    {
      assert queue[j] in queue && queue[k] in queue;
    }
    forall x | x in more
      ensures x in order
    {
      assert x in queue || x == r;
    }
    forall i, j | 0 <= i < j < |more|
      ensures order[more[i]] < order[more[j]]
    {
      assert more[i] == if i < k then queue[i] else if i == k then r else queue[i - 1];
      assert more[j] == if j < k then queue[j] else if j == k then r else queue[j - 1];
    }
  }

  lemma TwinDisorders(queue: seq<Req>, order: map<Req, nat>, last: nat, r: Req, k: nat)
    requires Ordered(queue, order, last) && r in queue && k <= |queue|
    requires forall j :: 0 <= j < k ==> order[queue[j]] < order[r]
    requires k < |queue| ==> order[queue[k]] >= order[r]
    ensures k < |queue| && queue[k] == r && !Ordered(queue[..k] + [r] + queue[k..], order, last)
  {
    var i :| 0 <= i < |queue| && queue[i] == r;
    assert i == k;
    var more := queue[..k] + [r] + queue[k..];
    assert more[k] == r && more[k + 1] == r;
  }

  lemma DropOrdered(queue: seq<Req>, order: map<Req, nat>, last: nat, i: nat)
    requires Ordered(queue, order, last) && i < |queue|
    ensures Ordered(queue[..i] + queue[i + 1..], order, last)
  {
  }

  // ------------------------------------------------------------------ the look at the queue

  /** For every peer found so far, `pos` is the place of the first request it can serve; every other peer can
      serve none before place `i`. */
  ghost predicate Looked(queue: seq<Req>, i: nat, pos: map<Peer, nat>, peers: set<Peer>, o: Offers) {
    && pos.Keys <= peers && i <= |queue|
    && (forall p :: p in pos ==> pos[p] < i && FirstAt(queue, pos[p], p, o))
    && (forall p :: p in peers && p !in pos ==> NoneBefore(queue, i, p, o))
  }

  ghost predicate NoneBefore(queue: seq<Req>, i: nat, p: Peer, o: Offers) {
    i <= |queue| && forall j :: 0 <= j < i ==> !o.able(queue[j], p)
  }

  ghost predicate FirstAt(queue: seq<Req>, i: nat, p: Peer, o: Offers) {
    i < |queue| && o.able(queue[i], p) && NoneBefore(queue, i, p, o)
  }

  /** In the middle of looking at the request at place `i`: the peers of `todo` have not been asked yet. */
  ghost predicate Looking(queue: seq<Req>, i: nat, pos: map<Peer, nat>, todo: set<Peer>, peers: set<Peer>, o: Offers) {
    && pos.Keys <= peers && i < |queue|
    && (forall p :: p in pos ==> pos[p] <= i && FirstAt(queue, pos[p], p, o))
    && (forall p :: p in peers && p !in pos ==> NoneBefore(queue, if p in todo then i else i + 1, p, o))
  }

  /** The peers that need not wait. */
  ghost function Ready(queue: seq<Req>, pos: map<Peer, nat>, o: Offers): set<Peer>
    requires forall p :: p in pos ==> pos[p] < |queue|
  {
    set p | p in pos && o.wait(queue[pos[p]], p) == 0
  }

  /** The peer with the shortest wait among those that have to wait. */
  ghost predicate Shortest(best: Option<Peer>, queue: seq<Req>, pos: map<Peer, nat>, o: Offers)
    requires forall p :: p in pos ==> pos[p] < |queue|
  {
    match best
    case None => forall p :: p in pos ==> o.wait(queue[pos[p]], p) == 0
    case Some(b) =>
      && b in pos && o.wait(queue[pos[b]], b) > 0
      && forall p :: p in pos && o.wait(queue[pos[p]], p) > 0 ==> o.wait(queue[pos[p]], p) >= o.wait(queue[pos[b]], b)
  }

  lemma AskedAble(queue: seq<Req>, i: nat, pos: map<Peer, nat>, todo: set<Peer>, peers: set<Peer>, o: Offers, p: Peer)
    requires Looking(queue, i, pos, todo, peers, o) && p in todo && p in peers && p !in pos && o.able(queue[i], p)
    ensures Looking(queue, i, pos[p := i], todo - {p}, peers, o)
  {
  }

  lemma AskedUnable(queue: seq<Req>, i: nat, pos: map<Peer, nat>, todo: set<Peer>, peers: set<Peer>, o: Offers, p: Peer)
    requires Looking(queue, i, pos, todo, peers, o) && p in todo && p in peers && (p in pos || !o.able(queue[i], p))
    ensures Looking(queue, i, pos, todo - {p}, peers, o)
  {
  }

  /** The finished look tells which request is due to which peer. */
  lemma LookedDue(queue: seq<Req>, pos: map<Peer, nat>, peers: set<Peer>, o: Offers, p: Peer, r: Req)
    requires Looked(queue, |queue|, pos, peers, o) && p in peers
    ensures Due(queue, p, r, o) <==> p in pos && queue[pos[p]] == r
  {
    if p in pos {
      FirstForIs(queue, p, o, pos[p]);
    } else {
      FirstForIs(queue, p, o, |queue|);
    }
  }

  lemma SendRightly(queue: seq<Req>, pos: map<Peer, nat>, peers: set<Peer>, o: Offers, p: Peer)
    requires Looked(queue, |queue|, pos, peers, o) && p in Ready(queue, pos, o)
    ensures Rightly(Send(p, queue[pos[p]]), queue, peers, o)
  {
    LookedDue(queue, pos, peers, o, p, queue[pos[p]]);
  }

  lemma WaitRightly(queue: seq<Req>, pos: map<Peer, nat>, peers: set<Peer>, o: Offers, best: Option<Peer>)
    requires Looked(queue, |queue|, pos, peers, o) && Ready(queue, pos, o) == {} && Shortest(best, queue, pos, o)
    ensures best == None ==> Rightly(Nothing, queue, peers, o)
    ensures best.Some? ==> best.value in pos
    ensures best.Some? ==> Rightly(Wait(best.value, queue[pos[best.value]], o.wait(queue[pos[best.value]], best.value)), queue, peers, o)
  {
    forall q, s | q in peers
      ensures Due(queue, q, s, o) <==> q in pos && queue[pos[q]] == s
      ensures q in pos ==> o.wait(queue[pos[q]], q) > 0
    {
      LookedDue(queue, pos, peers, o, q, s);
      assert q !in Ready(queue, pos, o);
    }
  }

  /** `zero` are the peers that need not wait and `best` is the one with the shortest wait. */
  ghost predicate Tally(queue: seq<Req>, pos: map<Peer, nat>, zero: set<Peer>, best: Option<Peer>, o: Offers) {
    (forall p :: p in pos ==> pos[p] < |queue|) && zero == Ready(queue, pos, o) && Shortest(best, queue, pos, o)
  }

  lemma TallyReady(queue: seq<Req>, pos: map<Peer, nat>, zero: set<Peer>, best: Option<Peer>, o: Offers, p: Peer, i: nat)
    requires Tally(queue, pos, zero, best, o) && p !in pos && i < |queue| && o.wait(queue[i], p) == 0
    ensures Tally(queue, pos[p := i], zero + {p}, best, o)
  {
  }

  /** Whether a wait beats the best so far. */
  predicate Better(wait: nat, queue: seq<Req>, pos: map<Peer, nat>, best: Option<Peer>, o: Offers) {
    best == None || (best.value in pos && pos[best.value] < |queue| && wait < o.wait(queue[pos[best.value]], best.value))
  }

  lemma TallyWaits(queue: seq<Req>, pos: map<Peer, nat>, zero: set<Peer>, best: Option<Peer>, o: Offers, p: Peer, i: nat)
    requires Tally(queue, pos, zero, best, o) && p !in pos && i < |queue| && o.wait(queue[i], p) > 0
    ensures Tally(queue, pos[p := i], zero, if Better(o.wait(queue[i], p), queue, pos, best, o) then Some(p) else best, o)
  {
  }

  lemma TallyNone(queue: seq<Req>, o: Offers)
    ensures Tally(queue, map[], {}, None, o)
  {
  }

  lemma StartAsking(queue: seq<Req>, i: nat, pos: map<Peer, nat>, peers: set<Peer>, o: Offers)
    requires Looked(queue, i, pos, peers, o) && i < |queue|
    ensures Looking(queue, i, pos, peers, peers, o)
  {
  }

  lemma DoneAsking(queue: seq<Req>, i: nat, pos: map<Peer, nat>, todo: set<Peer>, peers: set<Peer>, o: Offers)
    requires Looking(queue, i, pos, todo, peers, o) && todo == {}
    ensures Looked(queue, i + 1, pos, peers, o)
    ensures pos == map[] ==> Hopeless(queue[i], peers, o)
  {
    forall p | p in peers && p !in pos
      ensures NoneBefore(queue, i + 1, p, o)
    {
      assert p !in todo;
    }
  }

  lemma StartLook(queue: seq<Req>, peers: set<Peer>, o: Offers)
    ensures Looked(queue, 0, map[], peers, o)
  {
  }

  lemma TallyEmpty(queue: seq<Req>, zero: set<Peer>, best: Option<Peer>, o: Offers)
    requires Tally(queue, map[], zero, best, o)
    ensures zero == {} && best == None
  {
  }

  lemma Chances(zero: set<Peer>, queue: seq<Req>, pos: map<Peer, nat>, best: Option<Peer>, o: Offers)
    requires Tally(queue, pos, zero, best, o)
    ensures forall p :: p in pos ==> pos[p] < |queue|
    ensures zero == Ready(queue, pos, o) && zero <= pos.Keys && Shortest(best, queue, pos, o)
  {
  }

  lemma FrontServed(queue: seq<Req>, pos: map<Peer, nat>, peers: set<Peer>, o: Offers)
    requires queue != [] && Looked(queue, 1, pos, peers, o) && pos != map[]
    ensures !Hopeless(queue[0], peers, o)
  {
    var p :| p in pos;
    assert FirstAt(queue, pos[p], p, o);
  }

  lemma LookIsDone(queue: seq<Req>, i: nat, pos: map<Peer, nat>, peers: set<Peer>, o: Offers)
    requires Looked(queue, i, pos, peers, o) && (i == 0 <==> pos == map[]) && !((peers != {} || i == 0) && i < |queue|)
    ensures i == |queue| && Looked(queue, |queue|, pos, peers, o)
  {
    if peers == {} {
      assert pos.Keys == {};
    }
  }

  /** The queue without the first occurrence of a request. */
  function Without(queue: seq<Req>, r: Req): (rest: seq<Req>)
    ensures forall x :: x in rest ==> x in queue
    ensures forall x :: x in queue ==> x in rest || x == r
  {
    if queue == [] then [] else if queue[0] == r then queue[1..] else [queue[0]] + Without(queue[1..], r)
  }

  lemma {:induction false} WithoutAt(queue: seq<Req>, i: nat)
    requires i < |queue| && forall j :: 0 <= j < i ==> queue[j] != queue[i]
    ensures Without(queue, queue[i]) == queue[..i] + queue[i + 1..]
    decreases |queue|
  {
    if i == 0 {
      assert queue[..i] + queue[i + 1..] == queue[1..];
    } else {
      var tail := queue[1..];
      WithoutAt(tail, i - 1);
      assert Without(queue, queue[i]) == [queue[0]] + (tail[..i - 1] + tail[i..]);
      assert queue[..i] == [queue[0]] + tail[..i - 1] && queue[i + 1..] == tail[i..];
    }
  }

  lemma {:induction false} WithoutNone(queue: seq<Req>, r: Req)
    requires r !in queue
    ensures Without(queue, r) == queue
    decreases |queue|
  {
    if queue != [] {
      WithoutNone(queue[1..], r);
    }
  }

  /** A look at the queue that drops the requests at its front that no peer can serve, and sends one. */
  datatype Sending = Sending(before: seq<Req>, dropped: nat, peer: Peer, req: Req)

  ghost predicate Drops(before: seq<Req>, dropped: nat, after: seq<Req>, peers: set<Peer>, o: Offers) {
    && dropped <= |before| && after == before[dropped..]
    && (forall j :: 0 <= j < dropped ==> Hopeless(before[j], peers, o)) && (after == [] || !Hopeless(after[0], peers, o))
  }

  ghost predicate Sends(s: Sending, after: seq<Req>, peers: set<Peer>, o: Offers) {
    && s.dropped <= |s.before| && Drops(s.before, s.dropped, s.before[s.dropped..], peers, o)
    && Rightly(Send(s.peer, s.req), s.before[s.dropped..], peers, o) && after == Without(s.before[s.dropped..], s.req)
  }

  function QueueAt(log: seq<Sending>, k: nat, end: seq<Req>): seq<Req> {
    if k < |log| then log[k].before else end
  }

  /** One sending after another; what the peers offer may change from look to look. */
  ghost predicate Series(log: seq<Sending>, end: seq<Req>, peers: set<Peer>, offers: nat -> Offers) {
    forall k :: 0 <= k < |log| ==> Sends(log[k], QueueAt(log, k + 1, end), peers, offers(k))
  }

  lemma SeriesGrows(log: seq<Sending>, end: seq<Req>, peers: set<Peer>, offers: nat -> Offers, s: Sending, after: seq<Req>)
    requires Series(log, end, peers, offers) && s.before == end && Sends(s, after, peers, offers(|log|))
    ensures Series(log + [s], after, peers, offers)
  {
    hide Sends;
    var more := log + [s];
    forall k | 0 <= k < |more|
      ensures Sends(more[k], QueueAt(more, k + 1, after), peers, offers(k))
    {
      if k < |log| {
        assert more[k] == log[k] && QueueAt(more, k + 1, after) == QueueAt(log, k + 1, end);
      }
    }
  }

  /** The request was sent in the series, or no peer could serve it at some look. */
  ghost predicate Gone(r: Req, log: seq<Sending>, peers: set<Peer>, offers: nat -> Offers) {
    exists k :: 0 <= k < |log| && (log[k].req == r || Hopeless(r, peers, offers(k)))
  }

  /** A series loses no request but those sent and the hopeless ones. */
  lemma {:induction false} SeriesLoses(log: seq<Sending>, end: seq<Req>, peers: set<Peer>, offers: nat -> Offers, k: nat, r: Req)
    requires Series(log, end, peers, offers) && k <= |log| && r in QueueAt(log, k, end)
    ensures r in end || Gone(r, log, peers, offers)
    decreases |log| - k
  {
    hide Sends, Hopeless;
    if k < |log| {
      assert Sends(log[k], QueueAt(log, k + 1, end), peers, offers(k));
      SendLoses(log[k], QueueAt(log, k + 1, end), peers, offers(k), r);
      if log[k].req != r && !Hopeless(r, peers, offers(k)) {
        SeriesLoses(log, end, peers, offers, k + 1, r);
      }
    }
  }

  lemma SendLoses(s: Sending, after: seq<Req>, peers: set<Peer>, o: Offers, r: Req)
    requires Sends(s, after, peers, o) && r in s.before
    ensures r in after || r == s.req || Hopeless(r, peers, o)
  {
    hide Rightly, Hopeless;
    var i :| 0 <= i < |s.before| && s.before[i] == r;
    if i >= s.dropped {
      assert s.before[s.dropped..][i - s.dropped] == r;
    }
  }

  /** The peer need not wait, and it could serve no earlier request of the queue. */
  ghost predicate InTurn(s: Sending, peers: set<Peer>, o: Offers) {
    && s.peer in peers && o.wait(s.req, s.peer) == 0 && o.able(s.req, s.peer)
    && exists i :: 0 <= i < |s.before| && s.before[i] == s.req && forall j :: 0 <= j < i ==> !o.able(s.before[j], s.peer)
  }

  lemma SentInTurn(s: Sending, after: seq<Req>, peers: set<Peer>, o: Offers)
    requires Sends(s, after, peers, o)
    ensures InTurn(s, peers, o)
  {
    var q := s.before[s.dropped..];
    FirstForFacts(q, s.peer, o);
    var i := FirstFor(q, s.peer, o) + s.dropped;
    forall j | 0 <= j < i
      ensures !o.able(s.before[j], s.peer)
    {
      if j < s.dropped {
        assert Hopeless(s.before[j], peers, o);
      } else {
        assert s.before[j] == q[j - s.dropped];
      }
    }
    assert s.before[i] == s.req;
  }

  lemma DropsIs(before: seq<Req>, dropped: nat, after: seq<Req>, peers: set<Peer>, o: Offers)
    requires dropped <= |before| && after == before[dropped..]
    requires (forall j :: 0 <= j < dropped ==> Hopeless(before[j], peers, o)) && (after == [] || !Hopeless(after[0], peers, o))
    ensures Drops(before, dropped, after, peers, o)
  {
  }

  lemma DropsMeans(before: seq<Req>, dropped: nat, after: seq<Req>, peers: set<Peer>, o: Offers)
    requires Drops(before, dropped, after, peers, o)
    ensures |before| - |after| == dropped
  {
  }

  lemma SendsIs(s: Sending, queue: seq<Req>, dropped: nat, peers: set<Peer>, o: Offers)
    requires Drops(s.before, dropped, queue, peers, o) && Rightly(Send(s.peer, s.req), queue, peers, o) && s.dropped == |s.before| - |queue|
    ensures Sends(s, Without(queue, s.req), peers, o) && s.req in queue && |Without(queue, s.req)| < |s.before|
  {
    FirstForFacts(queue, s.peer, o);
    WithoutShrinks(queue, s.req);
  }

  lemma {:induction false} WithoutShrinks(queue: seq<Req>, r: Req)
    requires r in queue
    ensures |Without(queue, r)| < |queue|
    decreases |queue|
  {
    if queue[0] != r {
      WithoutShrinks(queue[1..], r);
    }
  }

  lemma NoSending(queue: seq<Req>, peers: set<Peer>, offers: nat -> Offers)
    ensures QueueAt([], 0, queue) == queue && Series([], queue, peers, offers)
  {
  }

  lemma QueueGrows(log: seq<Sending>, s: Sending, start: seq<Req>, after: seq<Req>)
    requires QueueAt(log, 0, s.before) == start
    ensures QueueAt(log + [s], 0, after) == start
  {
  }

  lemma Weighty(offers: nat -> Offers, k: nat)
    requires forall k, r, p :: offers(k).weight(r, p) > 0
    ensures forall r, p :: offers(k).weight(r, p) > 0
  {
  }

  datatype DistState = DistState(queue: seq<Req>, order: map<Req, nat>, last: nat, peers: set<Peer>)

  datatype DistEvent = Ask(req: Req) | Abandon(req: Req) | Loop(offers: nat -> Offers) | Connect(peer: Peer) | Disconnect(peer: Peer)

  /** A request is put at its place; a new one is younger than all others. */
  ghost predicate Queued(a: DistState, r: Req, b: DistState) {
    && b.peers == a.peers && r in b.order && b.order == a.order[r := b.order[r]]
    && (if r in a.order then b.order[r] == a.order[r] && b.last == a.last else b.order[r] == b.last == a.last + 1)
    && exists k :: PutAt(a.queue, k, r, b.queue)
  }

  ghost predicate PutAt(queue: seq<Req>, k: nat, r: Req, after: seq<Req>) {
    k <= |queue| && after == queue[..k] + [r] + queue[k..]
  }

  /** A series of sendings until nobody is ready. */
  ghost predicate Served(a: DistState, offers: nat -> Offers, b: DistState) {
    && b == a.(queue := b.queue)
    && exists log, next, last, dropped :: ServedAs(a, offers, b.queue, log, next, last, dropped)
  }

  ghost predicate ServedAs(a: DistState, offers: nat -> Offers, queue: seq<Req>, log: seq<Sending>, next: Next, last: seq<Req>, dropped: nat) {
    && QueueAt(log, 0, last) == a.queue && Series(log, last, a.peers, offers)
    && !next.Send? && Rightly(next, queue, a.peers, offers(|log|)) && Drops(last, dropped, queue, a.peers, offers(|log|))
  }

  /** One event; a request that is still queued is not queued again. */
  ghost predicate Works(a: DistState, e: DistEvent, b: DistState) {
    match e
    case Ask(r) => if r in a.queue then b == a else Queued(a, r, b)
    case Abandon(r) => b == a.(queue := Without(a.queue, r))
    case Loop(offers) => Served(a, offers, b)
    case Connect(p) => b == a.(peers := a.peers + {p})
    case Disconnect(p) => b == a.(peers := a.peers - {p})
  }

  lemma ServedIs(a: DistState, offers: nat -> Offers, b: DistState, log: seq<Sending>, next: Next, last: seq<Req>, dropped: nat)
    requires b == a.(queue := b.queue) && QueueAt(log, 0, last) == a.queue && Series(log, last, a.peers, offers)
    requires !next.Send? && Rightly(next, b.queue, a.peers, offers(|log|)) && Drops(last, dropped, b.queue, a.peers, offers(|log|))
    ensures Served(a, offers, b)
  {
    hide Series, Rightly, Drops;
    assert ServedAs(a, offers, b.queue, log, next, last, dropped);
  }

  class Distributor {
    var queue: seq<Req>
    var order: map<Req, nat>
    var lastOrder: nat
    var peers: set<Peer>

    ghost predicate Valid()
      reads this
    {
      Ordered(queue, order, lastOrder)
    }

    function State(): DistState
      reads this
    {
      DistState(queue, order, lastOrder, peers)
    }

    constructor ()
      ensures Valid() && queue == [] && order == map[] && peers == {}
    {
      queue, order, lastOrder, peers := [], map[], 0, {};
    }

    /** Queues a request; one that was queued before keeps its place in the creation order.  The queue
        stays strictly sorted if and only if the request is not in it already; otherwise a twin is put
        right in front. */
    method Queue(r: Req) returns (k: nat)
      requires Valid()
      modifies this`queue, this`order, this`lastOrder
      ensures Valid() <==> r !in old(queue)
      ensures k <= |old(queue)| && queue == old(queue)[..k] + [r] + old(queue)[k..]
      ensures r in old(queue) ==> k < |old(queue)| && old(queue)[k] == r
      ensures lastOrder == (if r in old(order) then old(lastOrder) else old(lastOrder) + 1) && (r !in old(order) ==> order[r] == lastOrder)
      ensures r in order && order == old(order)[r := order[r]] && (r in old(order) ==> order[r] == old(order)[r])
      ensures r !in old(order) ==> k == |old(queue)| && forall s :: s in old(order) ==> old(order)[s] < order[r]
    {
      Number(r);
      if queue == [] || order[r] > order[queue[|queue| - 1]] {
        k := |queue|;
        assert queue[..k] + [r] + queue[k..] == queue + [r];
      } else {
        k := Place(r);
      }
      if r in queue {
        TwinDisorders(queue, order, lastOrder, r, k);
      } else {
        InsertOrdered(queue, order, lastOrder, r, k);
      }
      queue := queue[..k] + [r] + queue[k..];
    }

    /** Gives a new request the next place in the creation order. */
    method Number(r: Req)
      requires Valid()
      modifies this`order, this`lastOrder
      ensures Valid() && r in order && order == old(order)[r := order[r]] && (r in old(order) ==> order[r] == old(order)[r])
      ensures r !in old(order) ==> forall s :: s in old(order) ==> old(order)[s] < order[r]
      ensures lastOrder == (if r in old(order) then old(lastOrder) else old(lastOrder) + 1) && (r !in old(order) ==> order[r] == lastOrder)
    {
      if r !in order {
        NewOrder(queue, order, lastOrder, r);
        lastOrder := lastOrder + 1;
        order := order[r := lastOrder];
      }
    }

    /** Finds the first queued request that is not older. */
    method Place(r: Req) returns (k: nat)
      requires Valid() && r in order && queue != [] && order[queue[|queue| - 1]] >= order[r]
      ensures k < |queue| && order[queue[k]] >= order[r] && forall j :: 0 <= j < k ==> order[queue[j]] < order[r]
    {
      k := 0;
      while order[queue[k]] < order[r]
        invariant k < |queue| && forall j :: 0 <= j < k ==> order[queue[j]] < order[r]
        decreases |queue| - k
      {
        k := k + 1;
      }
    }

    /** Takes a request out of the queue. */
    method Remove(i: nat)
      requires Valid() && i < |queue|
      modifies this`queue
      ensures Valid() && queue == old(queue)[..i] + old(queue)[i + 1..]
    {
      DropOrdered(queue, order, lastOrder, i);
      queue := queue[..i] + queue[i + 1..];
    }

    /** Cancels a request, unless it has been sent or dropped already. */
    method Cancel(r: Req) returns (ok: bool)
      requires Valid()
      modifies this`queue
      ensures Valid() && ok == (r in old(queue)) && r !in queue
      ensures queue == Without(old(queue), r) && |queue| == |old(queue)| - if ok then 1 else 0
    {
      if r !in queue {
        WithoutNone(queue, r);
      }
      for i := 0 to |queue|
        invariant queue == old(queue) && forall j :: 0 <= j < i ==> queue[j] != r
      {
        if queue[i] == r {
          WithoutAt(queue, i);
          Remove(i);
          return true;
        }
      }
      return false;
    }

    /** Asks the peers about the request at place `i`, in an arbitrary order. */
    method Ask(i: nat, found: map<Peer, nat>, first: Option<Peer>, sel: WeightedRandomSelect, o: Offers)
      returns (pos: map<Peer, nat>, best: Option<Peer>, able: bool)
      requires i < |queue| && Looked(queue, i, found, peers, o) && forall r, p :: o.weight(r, p) > 0
      requires sel.Valid() && Tally(queue, found, sel.Content().Keys, first, o)
      modifies sel
      ensures Looked(queue, i + 1, pos, peers, o)
      ensures sel.Valid() && Tally(queue, pos, sel.Content().Keys, best, o)
      ensures !able ==> pos == found && best == first && sel.Content() == old(sel.Content())
      ensures !able && found == map[] ==> Hopeless(queue[i], peers, o)
      ensures able ==> pos != map[]
    {
      hide *;
      pos, best, able := found, first, false;
      var todo := peers;
      StartAsking(queue, i, found, peers, o);
      while todo != {}
        invariant Looking(queue, i, pos, todo, peers, o) && todo <= peers
        invariant sel.Valid() && Tally(queue, pos, sel.Content().Keys, best, o)
        invariant !able ==> pos == found && best == first && sel.Content() == old(sel.Content())
        invariant able ==> pos != map[]
        decreases todo
      {
        var peer :| peer in todo;
        if peer !in pos && o.able(queue[i], peer) {
          AskedAble(queue, i, pos, todo, peers, o, peer);
          var wait := o.wait(queue[i], peer);
          if wait == 0 {
            ghost var zero := sel.Content().Keys;
            TallyReady(queue, pos, zero, best, o, peer, i);
            sel.SetWeight(peer, o.weight(queue[i], peer));
            assert sel.Content().Keys == zero + {peer};
          } else {
            TallyWaits(queue, pos, sel.Content().Keys, best, o, peer, i);
            if Better(wait, queue, pos, best, o) {
              best := Some(peer);
            }
          }
          pos, able := pos[peer := i], true;
          assert peer in pos;
        } else {
          AskedUnable(queue, i, pos, todo, peers, o, peer);
        }
        todo := todo - {peer};
      }
      DoneAsking(queue, i, pos, todo, peers, o);
    }

    /** Looks through the queue for a request that can be sent, dropping requests at its front that no peer
        can serve. */
    method NextRequest(o: Offers) returns (next: Next, ghost dropped: nat)
      requires Valid() && forall r, p :: o.weight(r, p) > 0
      modifies this`queue
      ensures Valid() && Rightly(next, queue, peers, o) && Drops(old(queue), dropped, queue, peers, o)
    {
      hide *;
      var sel := new WeightedRandomSelect();
      var pos: map<Peer, nat>, best: Option<Peer>, i := map[], None, 0;
      dropped := 0;
      assert sel.Content().Keys == {};
      TallyNone(queue, o);
      StartLook(queue, peers, o);
      while (peers != {} || i == 0) && i < |queue|
        invariant Valid() && dropped <= |old(queue)| && queue == old(queue)[dropped..] && i <= |queue|
        invariant forall j :: 0 <= j < dropped ==> Hopeless(old(queue)[j], peers, o)
        invariant Looked(queue, i, pos, peers, o) && sel.Valid() && fresh(sel) && Tally(queue, pos, sel.Content().Keys, best, o)
        invariant i == 0 <==> pos == map[]
        invariant i > 0 ==> !Hopeless(queue[0], peers, o)
        decreases |queue| - i
      {
        var able;
        pos, best, able := Ask(i, pos, best, sel, o);
        if !able && i == 0 {
          TallyEmpty(queue, sel.Content().Keys, best, o);
          dropped := dropped + 1;
          Remove(0);
          TallyNone(queue, o);
          StartLook(queue, peers, o);
        } else {
          if i == 0 {
            FrontServed(queue, pos, peers, o);
          }
          i := i + 1;
        }
      }
      LookIsDone(queue, i, pos, peers, o);
      DropsIs(old(queue), dropped, queue, peers, o);
      next := Pick(pos, best, sel, o);
    }

    /** Picks a peer that need not wait, at random by weight, or else the shortest wait. */
    method Pick(pos: map<Peer, nat>, best: Option<Peer>, sel: WeightedRandomSelect, o: Offers) returns (next: Next)
      requires Looked(queue, |queue|, pos, peers, o) && forall r, p :: o.weight(r, p) > 0
      requires sel.Valid() && Tally(queue, pos, sel.Content().Keys, best, o)
      modifies sel
      ensures Rightly(next, queue, peers, o)
    {
      hide *;
      var q := queue;
      ghost var zero := sel.Content().Keys;
      Chances(zero, q, pos, best, o);
      sel.EmptyContent();
      if sel.Empty() {
        WaitRightly(q, pos, peers, o, best);
        if best == None {
          return Nothing;
        }
        return Wait(best.value, q[pos[best.value]], o.wait(q[pos[best.value]], best.value));
      }
      var weights: Peer -> nat := p => if p in pos && pos[p] < |q| then o.weight(q[pos[p]], p) else 0;
      var choice := sel.Choose(weights);
      SendRightly(q, pos, peers, o, choice.value);
      return Send(choice.value, q[pos[choice.value]]);
    }

    /** Sends requests as long as some peer can take one without waiting, and says what to wait for then.
        `offers(k)` is what the peers say at look `k`. */
    method Serve(offers: nat -> Offers) returns (log: seq<Sending>, next: Next, ghost last: seq<Req>, ghost dropped: nat)
      requires Valid() && forall k, r, p :: offers(k).weight(r, p) > 0
      modifies this`queue
      ensures Valid() && QueueAt(log, 0, last) == old(queue) && Series(log, last, peers, offers)
      ensures !next.Send? && Rightly(next, queue, peers, offers(|log|)) && Drops(last, dropped, queue, peers, offers(|log|))
      ensures forall k :: 0 <= k < |log| ==> InTurn(log[k], peers, offers(k))
    {
      hide *;
      log := [];
      NoSending(queue, peers, offers);
      while true
        invariant Valid() && QueueAt(log, 0, queue) == old(queue) && Series(log, queue, peers, offers)
        invariant forall k :: 0 <= k < |log| ==> InTurn(log[k], peers, offers(k))
        decreases |queue|
      {
        var before := queue;
        last := queue;
        Weighty(offers, |log|);
        next, dropped := NextRequest(offers(|log|));
        if !next.Send? {
          return;
        }
        DropsMeans(before, dropped, queue, peers, offers(|log|));
        var s := Sending(before, |before| - |queue|, next.peer, next.req);
        SendsIs(s, queue, dropped, peers, offers(|log|));
        SentInTurn(s, Without(queue, next.req), peers, offers(|log|));
        SeriesGrows(log, last, peers, offers, s, Without(queue, next.req));
        QueueGrows(log, s, old(queue), Without(queue, next.req));
        log := log + [s];
        var ok := Cancel(next.req);
      }
    }

    /** One event. */
    method Handle(e: DistEvent)
      requires Valid() && (e.Loop? ==> forall k, r, p :: e.offers(k).weight(r, p) > 0)
      modifies this
      ensures Valid() && Works(old(State()), e, State())
    {
      hide Ordered, Series, Rightly, Drops, InTurn;
      match e {
      case Ask(r) =>
        if r !in queue {
          var k := Queue(r);
          assert PutAt(old(queue), k, r, queue);
        }
      case Abandon(r) =>
        var ok := Cancel(r);
      case Loop(offers) =>
        var log, next;
        ghost var last, dropped;
        log, next, last, dropped := Serve(offers);
        ServedIs(old(State()), offers, State(), log, next, last, dropped);
      case Connect(p) =>
        peers := peers + {p};
      case Disconnect(p) =>
        peers := peers - {p};
      }
    }

    /** In any run of queueing, cancelling, sending and changes of the peers every event does what it should, and the
        queue stays in creation order. */
    method Run(events: seq<DistEvent>) returns (ghost trace: seq<DistState>)
      requires Valid() && forall i :: 0 <= i < |events| && events[i].Loop? ==> forall k, r, p :: events[i].offers(k).weight(r, p) > 0
      modifies this
      ensures Valid() && |trace| == |events| + 1 && trace[0] == old(State()) && trace[|events|] == State()
      ensures forall i :: 0 <= i < |events| ==> Works(trace[i], events[i], trace[i + 1])
      ensures forall i :: 0 <= i <= |events| ==> Ordered(trace[i].queue, trace[i].order, trace[i].last)
    {
      hide Works, Ordered;
      trace := [State()];
      for i := 0 to |events|
        invariant Valid() && |trace| == i + 1 && trace[0] == old(State()) && trace[i] == State()
        invariant forall j :: 0 <= j < i ==> Works(trace[j], events[j], trace[j + 1])
        invariant forall j :: 0 <= j <= i ==> Ordered(trace[j].queue, trace[j].order, trace[j].last)
      {
        Handle(events[i]);
        trace := trace + [State()];
      }
    }
  }
}
