/** The header chain: a database of headers, total difficulties and the canonical number index,
    fronted by two caches, together with the current head. */
module HeaderChains {
  import opened Options
  import opened Chain

  const MISSING_NUMBER: nat := 0xffff_ffff_ffff_ffff

  /** `number - 1` in unsigned 64-bit arithmetic. */
  function Pred(number: nat): (p: nat)
  {
    if number == 0 then MISSING_NUMBER else number - 1
  }

  type Key = (nat, Hash)

  function KeyOf(h: Hash): Key
    requires h.Of?
  {
    (h.header.number, h)
  }

  predicate StoredIn(headers: map<Key, Header>, h: Hash) {
    h.Of? && KeyOf(h) in headers
  }

  ghost predicate AncestorsIn(headers: map<Key, Header>, h: Hash) {
    Linked(h) && forall n: nat :: n in Path(h) ==> KeyOf(Path(h)[n]) in headers
  }

  /** Each header sits under its own key. */
  ghost predicate KeysOk(headers: map<Key, Header>) {
    forall k :: k in headers ==> k == KeyOf(Of(headers[k]))
  }

  /** Every stored header descends from the genesis header. */
  ghost predicate Rooted(headers: map<Key, Header>, genesis: Header) {
    forall k :: k in headers ==> Linked(k.1) && Genesis(k.1) == Of(genesis)
  }

  /** A total difficulty is stored for exactly the stored headers, and is the sum along the path. */
  ghost predicate TdsOk(headers: map<Key, Header>, tds: map<Key, nat>) {
    tds.Keys == headers.Keys && forall k :: k in tds ==> tds[k] == TotalDifficulty(k.1)
  }

  /** The index maps exactly the heights up to the head's, each to the head's ancestor there. */
  ghost predicate NumberingExact(canonical: map<nat, Hash>, head: Hash) {
    Linked(head) && canonical == Path(head)
  }

  /** Every cached value is what the database holds for that hash. */
  ghost predicate HeaderCacheOk(headers: map<Key, Header>, cache: map<Hash, Header>) {
    forall h :: h in cache ==> StoredIn(headers, h) && cache[h] == headers[KeyOf(h)]
  }

  /** A cached header is one whose hash it is cached under. */
  ghost predicate HeaderCacheSound(cache: map<Hash, Header>) {
    forall h :: h in cache ==> h == Of(cache[h])
  }

  ghost predicate TdCacheOk(tds: map<Key, nat>, cache: map<Hash, nat>) {
    forall h :: h in cache ==> h.Of? && KeyOf(h) in tds && cache[h] == tds[KeyOf(h)]
  }

  /** No stored header outweighs the head. */
  ghost predicate Heaviest(headers: map<Key, Header>, head: Hash) {
    forall k :: k in headers ==> TotalDifficulty(k.1) <= TotalDifficulty(head)
  }

  lemma ParentsIn(headers: map<Key, Header>, h: Hash)
    requires AncestorsIn(headers, h) && h.header.number > 0
    ensures Linked(h.header.parentHash) && AncestorsIn(headers, h.header.parentHash)
    ensures Genesis(h.header.parentHash) == Genesis(h)
  {
    var p := Path(h.header.parentHash);
    forall n: nat | n in p
      ensures KeyOf(p[n]) in headers
    {
      assert p[n] == Path(h)[n];
    }
  }

  /** Storing a header whose ancestors are all stored keeps its ancestry, and everybody else's, stored. */
  lemma StoringKeepsAncestry(headers: map<Key, Header>, header: Header, other: Hash)
    requires header.parentHash.Of? && header.number == header.parentHash.header.number + 1
    requires AncestorsIn(headers, other)
    ensures AncestorsIn(headers[KeyOf(Of(header)) := header], other)
    ensures AncestorsIn(headers, header.parentHash) ==>
              AncestorsIn(headers[KeyOf(Of(header)) := header], Of(header)) && Genesis(Of(header)) == Genesis(header.parentHash)
  {
    var after := headers[KeyOf(Of(header)) := header];
    forall n: nat | n in Path(other)
      ensures KeyOf(Path(other)[n]) in after
    {
      assert KeyOf(Path(other)[n]) in headers;
    }
    if AncestorsIn(headers, header.parentHash) {
      assert Linked(Of(header)) && Path(Of(header)) == Path(header.parentHash)[header.number := Of(header)];
      forall n: nat | n in Path(Of(header))
        ensures KeyOf(Path(Of(header))[n]) in after
      {
        assert n < header.number ==> KeyOf(Path(header.parentHash)[n]) in headers;
      }
      assert Genesis(Of(header)) == Genesis(header.parentHash);
    }
  }

  /** A new header's records fit the old ones. */
  lemma NewRootKept(headers: map<Key, Header>, genesis: Header, header: Header)
    requires KeysOk(headers) && Rooted(headers, genesis) && StoredIn(headers, header.parentHash)
    requires header.number == header.parentHash.header.number + 1
    ensures KeysOk(headers[KeyOf(Of(header)) := header]) && Rooted(headers[KeyOf(Of(header)) := header], genesis)
  {
    assert KeyOf(header.parentHash) in headers;
  }

  lemma NewTdKept(headers: map<Key, Header>, tds: map<Key, nat>, header: Header)
    requires TdsOk(headers, tds)
    ensures TdsOk(headers[KeyOf(Of(header)) := header], tds[KeyOf(Of(header)) := TotalDifficulty(Of(header))])
  {
  }

  lemma CachesStayOk(headers: map<Key, Header>, headerCache: map<Hash, Header>,
                     tds: map<Key, nat>, tdCache: map<Hash, nat>, header: Header)
    requires KeysOk(headers) && HeaderCacheOk(headers, headerCache)
    requires TdCacheOk(tds, tdCache) && (KeyOf(Of(header)) in tds ==> tds[KeyOf(Of(header))] == TotalDifficulty(Of(header)))
    ensures HeaderCacheOk(headers[KeyOf(Of(header)) := header], headerCache)
    ensures TdCacheOk(tds[KeyOf(Of(header)) := TotalDifficulty(Of(header))], tdCache[Of(header) := TotalDifficulty(Of(header))])
  {
  }

  /** Every stored header but the genesis has its parent stored. */
  ghost predicate Closed(headers: map<Key, Header>) {
    forall h {:trigger StoredIn(headers, h.header.parentHash)} ::
      StoredIn(headers, h) && h.header.number > 0 ==> StoredIn(headers, h.header.parentHash)
  }

  lemma {:induction false} ClosedHasAncestors(headers: map<Key, Header>, h: Hash)
    requires Closed(headers) && StoredIn(headers, h) && Linked(h)
    ensures AncestorsIn(headers, h)
    decreases h
  {
    if h.header.number > 0 {
      assert StoredIn(headers, h.header.parentHash);
      ClosedHasAncestors(headers, h.header.parentHash);
    }
  }

  lemma StoringKeepsClosed(headers: map<Key, Header>, header: Header)
    requires Closed(headers) && StoredIn(headers, header.parentHash)
    ensures Closed(headers[KeyOf(Of(header)) := header])
  {
    var after := headers[KeyOf(Of(header)) := header];
    forall h | StoredIn(after, h) && h.header.number > 0
      ensures StoredIn(after, h.header.parentHash)
    {
      assert StoredIn(headers, h) ==> StoredIn(headers, h.header.parentHash);
    }
  }

  /** The heavier of the old head and a new header is a heaviest head of the enlarged tree. */
  lemma HeavierStaysHeaviest(headers: map<Key, Header>, head: Hash, header: Header, newHead: Hash)
    requires Heaviest(headers, head)
    requires TotalDifficulty(head) <= TotalDifficulty(newHead) && TotalDifficulty(Of(header)) <= TotalDifficulty(newHead)
    ensures Heaviest(headers[KeyOf(Of(header)) := header], newHead)
  {
  }

  /** `m` without the records of the headers on `path` above height `k`. */
  function Rewound<V>(m: map<Key, V>, path: map<nat, Hash>, k: int): map<Key, V> {
    map key | key in m && !(k < key.0 && key.0 in path && path[key.0] == key.1) :: m[key]
  }

  lemma RewoundNone<V>(m: map<Key, V>, h: Hash)
    requires Linked(h)
    ensures Rewound(m, Path(h), h.header.number) == m
  {
  }

  lemma RewoundStep<V>(m: map<Key, V>, h: Hash, k: nat)
    requires Linked(h) && k in Path(h)
    ensures Rewound(m, Path(h), k) - {KeyOf(Path(h)[k])} == Rewound(m, Path(h), k - 1)
  {
  }

  lemma DropOne(headers: map<Key, Header>, h: Hash, k: nat)
    requires KeysOk(headers) && AncestorsIn(headers, h) && k in Path(h) && k > 0
    ensures Rewound(headers, Path(h), k) - {KeyOf(Path(h)[k])} == Rewound(headers, Path(h), k - 1)
    ensures KeysOk(Rewound(headers, Path(h), k - 1))
    ensures var parent := Path(h)[k].header.parentHash;
            && parent == Path(h)[k - 1]
            && KeyOf(parent) in Rewound(headers, Path(h), k - 1)
            && Rewound(headers, Path(h), k - 1)[KeyOf(parent)] == parent.header
  {
    RewoundStep(headers, h, k);
    PathStep(h, k);
    assert KeyOf(Path(h)[k - 1]) in headers;
  }

  lemma CacheIsSound(headers: map<Key, Header>, cache: map<Hash, Header>)
    requires KeysOk(headers) && HeaderCacheOk(headers, cache)
    ensures HeaderCacheSound(cache)
  {
  }

  /** The records are those of the start without the branch above height `k`. */
  ghost predicate DroppedTo(headers: map<Key, Header>, tds: map<Key, nat>, headers0: map<Key, Header>, tds0: map<Key, nat>, h: Hash, k: nat) {
    Linked(h) && headers == Rewound(headers0, Path(h), k) && tds == Rewound(tds0, Path(h), k)
  }

  lemma DroppedNone(headers: map<Key, Header>, tds: map<Key, nat>, h: Hash)
    requires AncestorsIn(headers, h)
    ensures h.Of? && Linked(h) && DroppedTo(headers, tds, headers, tds, h, h.header.number)
  {
    RewoundNone(headers, h);
    RewoundNone(tds, h);
  }

  lemma DroppedWhat(headers: map<Key, Header>, tds: map<Key, nat>, headers0: map<Key, Header>, tds0: map<Key, nat>, h: Hash, k: nat)
    requires DroppedTo(headers, tds, headers0, tds0, h, k)
    ensures Linked(h) && headers == Rewound(headers0, Path(h), k) && tds == Rewound(tds0, Path(h), k)
  {
  }

  lemma DroppedNext(headers: map<Key, Header>, tds: map<Key, nat>, headers0: map<Key, Header>, tds0: map<Key, nat>, h: Hash, k: nat)
    requires KeysOk(headers0) && AncestorsIn(headers0, h) && k > 0 && DroppedTo(headers, tds, headers0, tds0, h, k) && k in Path(h)
    ensures var x, parent := Path(h)[k], Path(h)[k - 1];
            && DroppedTo(headers - {KeyOf(x)}, tds - {KeyOf(x)}, headers0, tds0, h, k - 1) && KeysOk(headers - {KeyOf(x)})
            && x.Of? && parent.Of? && x.header.parentHash == parent && x.header.number == parent.header.number + 1
            && KeyOf(parent) in headers && headers[KeyOf(parent)] == parent.header
  {
    RewoundStep(tds0, h, k);
    DropOne(headers0, h, k);
    hide Rewound, AncestorsIn, KeysOk;
  }

  /** Rewinding a branch to height `k` leaves the records of its lower part, which stay consistent. */
  lemma RewoundRecords(headers: map<Key, Header>, tds: map<Key, nat>, genesis: Header, h: Hash, k: nat)
    requires KeysOk(headers) && Rooted(headers, genesis) && TdsOk(headers, tds)
    ensures Linked(h) ==> KeysOk(Rewound(headers, Path(h), k)) && Rooted(Rewound(headers, Path(h), k), genesis)
    ensures Linked(h) ==> TdsOk(Rewound(headers, Path(h), k), Rewound(tds, Path(h), k))
  {
    if Linked(h) {
      assert Rewound(headers, Path(h), k).Keys == Rewound(tds, Path(h), k).Keys;
    }
  }

  lemma RewoundHead(headers: map<Key, Header>, h: Hash, k: nat)
    requires AncestorsIn(headers, h) && k in Path(h)
    ensures AncestorsIn(Rewound(headers, Path(h), k), Path(h)[k])
    ensures Genesis(Path(h)[k]) == Genesis(h)
    ensures UpTo(Path(h), k) == Path(Path(h)[k])
  {
    hide Linked, Path, Genesis;
    var a := Path(h)[k];
    PathStep(h, k);
    forall n: nat | n <= k
      ensures n in Path(a) && Path(a)[n] == Path(h)[n]
    {
      AncestorPath(h, k, n);
    }
    AncestorPath(h, k, 0);
    PathStartsAtGenesis(a);
    PathStartsAtGenesis(h);
  }

  /** No header off the path has its parent on the path above height `k`. */
  ghost predicate NoBranchAbove(headers: map<Key, Header>, h: Hash, k: nat)
    requires Linked(h)
  {
    forall g {:trigger IsAncestor(g.header.parentHash, h)} :: StoredIn(headers, g) && g.header.number > 0 && !IsAncestor(g, h) ==>
      !(IsAncestor(g.header.parentHash, h) && g.header.parentHash.header.number > k)
  }

  /** Deleting a branch above a height keeps the store closed under parents if and only if no other branch
      leaves it above that height. */
  lemma RewoundClosed(headers: map<Key, Header>, h: Hash, k: nat)
    requires Closed(headers) && Linked(h) && k in Path(h)
    ensures Closed(Rewound(headers, Path(h), k)) <==> NoBranchAbove(headers, h, k)
  {
    hide Path, Linked;
    var after := Rewound(headers, Path(h), k);
    assert forall g :: StoredIn(after, g) <==> StoredIn(headers, g) && !(IsAncestor(g, h) && g.header.number > k);
    if Closed(after) {
      forall g | StoredIn(headers, g) && g.header.number > 0 && !IsAncestor(g, h)
        ensures !(IsAncestor(g.header.parentHash, h) && g.header.parentHash.header.number > k)
      {
        assert StoredIn(after, g) && StoredIn(after, g.header.parentHash);
      }
    }
    if NoBranchAbove(headers, h, k) {
      forall g | StoredIn(after, g) && g.header.number > 0
        ensures StoredIn(after, g.header.parentHash)
      {
        assert StoredIn(headers, g.header.parentHash);
        if IsAncestor(g, h) {
          PathStep(h, g.header.number);
        } else {
          assert !(IsAncestor(g.header.parentHash, h) && g.header.parentHash.header.number > k);
        }
      }
    }
  }

  /** A side branch that loses its parent: rewinding to the root deletes block 1, and its other child stays. */
  lemma RewindOrphans()
    ensures exists headers: map<Key, Header>, h: Hash ::
              Closed(headers) && AncestorsIn(headers, h) && !Closed(Rewound(headers, Path(h), 0))
  {
    var g := Of(Header(Zero, 0, 1, [], 0));
    var a1 := Of(Header(g, 1, 1, [], 0));
    var a2, b2 := Of(Header(a1, 2, 1, [], 0)), Of(Header(a1, 2, 1, [], 1));
    var headers := map[KeyOf(g) := g.header, KeyOf(a1) := a1.header, KeyOf(a2) := a2.header, KeyOf(b2) := b2.header];
    assert Linked(g) && Linked(a1) && Linked(a2);
    assert Path(g) == map[0 := g] && Path(a1) == Path(g)[1 := a1] && Path(a2) == Path(a1)[2 := a2];
    assert Closed(headers) by {
      forall x | StoredIn(headers, x) && x.header.number > 0
        ensures StoredIn(headers, x.header.parentHash)
      {
        assert x == a1 || x == a2 || x == b2;
      }
    }
    assert AncestorsIn(headers, a2);
    assert !NoBranchAbove(headers, a2, 0) by {
      assert StoredIn(headers, b2) && !IsAncestor(b2, a2) && IsAncestor(b2.header.parentHash, a2);
    }
    RewoundClosed(headers, a2, 0);
  }

  lemma OverlayStep(was: map<nat, Hash>, path: map<nat, Hash>, k: nat)
    requires k in path
    ensures Overlay(was, path, k)[k := path[k]] == Overlay(was, path, k - 1)
  {
  }

  /** The index covers the old head's path, cut off just above `hash`. */
  ghost predicate CutOff(index: map<nat, Hash>, oldHead: Hash, hash: Hash) {
    Linked(hash) && Linked(oldHead) && Genesis(hash) == Genesis(oldHead) &&
    index == UpTo(Path(oldHead), hash.header.number + 1)
  }

  lemma OverwriteStep(was: map<nat, Hash>, hash: Hash, k: nat, oldHead: Hash)
    requires CutOff(was, oldHead, hash) && k in Path(hash)
    requires !(k in was && was[k] == Path(hash)[k])
    ensures k > 0 && Path(hash)[k].header.parentHash == Path(hash)[k - 1]
    ensures Overlay(was, Path(hash), k)[k := Path(hash)[k]] == Overlay(was, Path(hash), k - 1)
  {
    PathStep(hash, k);
    PathStartsAtGenesis(hash);
    PathStartsAtGenesis(oldHead);
    OverlayStep(was, Path(hash), k);
  }

  lemma HasRoot(headers: map<Key, Header>, h: Hash)
    requires AncestorsIn(headers, h)
    ensures h.Of? && Linked(h)
  {
  }

  lemma OverlayNone(was: map<nat, Hash>, h: Hash)
    requires Linked(h)
    ensures Overlay(was, Path(h), h.header.number) == was
  {
  }

  /** At and below height `k` an overlay is the index it was laid over. */
  lemma OverlayAt(was: map<nat, Hash>, path: map<nat, Hash>, k: nat)
    ensures k in Overlay(was, path, k) <==> k in was
    ensures k in was ==> Overlay(was, path, k)[k] == was[k]
  {
  }

  /** Below the first height where the index agrees with the path, it agrees throughout. */
  lemma OverwriteDone(was: map<nat, Hash>, hash: Hash, k: nat, oldHead: Hash)
    requires CutOff(was, oldHead, hash) && k in Path(hash)
    requires k in was && was[k] == Path(hash)[k]
    ensures Overlay(was, Path(hash), k) == was + Path(hash)
  {
    hide Linked, Path, Genesis, Overlay;
    forall n: nat | n <= k
      ensures n in was && was[n] == Path(hash)[n]
    {
      AgreeBelow(oldHead, hash, k, n);
    }
    OverlayIsMerge(was, Path(hash), k);
  }

  /** From the top of the branch down to height `m` the index agrees with the branch nowhere, so the
      overwriting walk follows the header at that height. */
  ghost predicate Followed(canonical: map<nat, Hash>, h: Hash, m: nat)
    requires Linked(h)
  {
    forall n: nat :: n in Path(h) && m <= n ==> n !in canonical || canonical[n] != Path(h)[n]
  }

  /** The headers the overwriting walk follows are all stored if and only if all ancestors are. */
  lemma WalkNeedsAncestors(headers: map<Key, Header>, canonical: map<nat, Hash>, head: Hash, h: Hash)
    requires NumberingExact(canonical, head) && AncestorsIn(headers, head) && Linked(h)
    ensures AncestorsIn(headers, h) <==>
            forall m: nat :: m in Path(h) && Followed(canonical, h, m) ==> KeyOf(Path(h)[m]) in headers
  {
    hide Path, Linked;
    forall m: nat | m in Path(h) && !Followed(canonical, h, m)
      ensures KeyOf(Path(h)[m]) in headers
    {
      var n: nat :| n in Path(h) && m <= n && n in canonical && canonical[n] == Path(h)[n];
      AgreeBelow(head, h, n, m);
    }
  }

  lemma OverlayIsMerge(was: map<nat, Hash>, path: map<nat, Hash>, k: nat)
    requires forall n: nat :: n in path && n <= k ==> n in was && was[n] == path[n]
    ensures Overlay(was, path, k) == was + path
  {
  }

  /** Cutting an index off at a header's height and laying the header's path over it leaves that path. */
  lemma PathReplacesIndex(index: map<nat, Hash>, h: Hash)
    requires Linked(h) && h.header.number > 0
    ensures Linked(h.header.parentHash)
    ensures (UpTo(index, h.header.number) + Path(h.header.parentHash))[h.header.number := h] == Path(h)
  {
    assert Path(h) == Path(h.header.parentHash)[h.header.number := h];
    hide Path, Linked;
    LaidUnder(index, Path(h.header.parentHash), h.header.number, h);
  }

  lemma LaidUnder(index: map<nat, Hash>, path: map<nat, Hash>, n: nat, h: Hash)
    requires forall k: nat :: k in path <==> k < n
    ensures (UpTo(index, n) + path)[n := h] == path[n := h]
  {
  }

  lemma HasPath(headers: map<Key, Header>, h: Hash, k: nat)
    requires AncestorsIn(headers, h) && k <= h.header.number
    ensures Linked(h) && k in Path(h)
    ensures Closed(headers) ==> (Closed(Rewound(headers, Path(h), k)) <==> NoBranchAbove(headers, h, k))
  {
    if Closed(headers) {
      RewoundClosed(headers, h, k);
    }
  }

  class HeaderChain {
    // The database.
    var headers: map<Key, Header>
    var tds: map<Key, nat>
    var canonical: map<nat, Hash>
    var headHeaderHash: Hash
    // The in-memory head.
    const genesis: Header
    var currentHeader: Header
    var currentHeaderHash: Hash
    // The caches; entries may be evicted at any time.
    var headerCache: map<Hash, Header>
    var tdCache: map<Hash, nat>

    ghost predicate RecordsOk()
      reads this
    {
      KeysOk(headers) && Rooted(headers, genesis) && TdsOk(headers, tds)
    }

    ghost predicate CachesOk()
      reads this
    {
      HeaderCacheOk(headers, headerCache) && TdCacheOk(tds, tdCache)
    }

    ghost predicate HeadOk()
      reads this
    {
      && currentHeaderHash == Of(currentHeader) == headHeaderHash
      && AncestorsIn(headers, currentHeaderHash)
      && Genesis(currentHeaderHash) == Of(genesis)
      && NumberingExact(canonical, currentHeaderHash)
    }

    ghost predicate Valid()
      reads this
    {
      RecordsOk() && CachesOk() && HeadOk()
    }

    constructor (g: Header)
      requires g.number == 0 && g.parentHash == Zero
      ensures Valid() && Heaviest(headers, currentHeaderHash) && genesis == g && currentHeader == g
      ensures headers == map[KeyOf(Of(g)) := g]
    {
      genesis := g;
      headers := map[KeyOf(Of(g)) := g];
      tds := map[KeyOf(Of(g)) := g.difficulty];
      canonical := map[0 := Of(g)];
      headHeaderHash := Of(g);
      currentHeader := g;
      currentHeaderHash := Of(g);
      headerCache := map[];
      tdCache := map[];
    }

    function DbTd(hash: Hash, number: nat): Option<nat>
      reads this
    {
      if (number, hash) in tds then Some(tds[(number, hash)]) else None
    }

    function DbHeader(hash: Hash, number: nat): Option<Header>
      reads this
    {
      if (number, hash) in headers then Some(headers[(number, hash)]) else None
    }

    function CanonicalHash(number: nat): Hash
      reads this
    {
      if number in canonical then canonical[number] else Zero
    }

    /** Asked with a header's own number, the cached lookup answers as the database does. */
    method GetTd(hash: Hash, number: nat) returns (td: Option<nat>)
      requires TdsOk(headers, tds) && KeysOk(headers) && TdCacheOk(tds, tdCache)
      modifies this`tdCache
      ensures TdCacheOk(tds, tdCache)
      ensures hash !in old(tdCache) ==> td == DbTd(hash, number)
      ensures hash in old(tdCache) ==> hash.Of? && td == DbTd(hash, hash.header.number)
      ensures hash.Of? && number == hash.header.number ==> td == DbTd(hash, number)
    {
      if hash in tdCache {
        return Some(tdCache[hash]);
      }
      td := DbTd(hash, number);
      if td == None {
        return;
      }
      var evicted: set<Hash> := *;
      tdCache := tdCache[hash := td.value] - evicted;
    }

    /** As `GetTd`; during a rewind the cache may still hold deleted headers, but never wrong ones. */
    method GetHeader(hash: Hash, number: nat) returns (header: Option<Header>)
      requires KeysOk(headers) && HeaderCacheSound(headerCache)
      modifies this`headerCache
      ensures HeaderCacheSound(headerCache)
      ensures HeaderCacheOk(headers, old(headerCache)) ==> HeaderCacheOk(headers, headerCache)
      ensures hash !in old(headerCache) ==> header == DbHeader(hash, number)
      ensures hash in old(headerCache) ==> hash.Of? && header == Some(hash.header)
      ensures hash in old(headerCache) && HeaderCacheOk(headers, old(headerCache)) ==> header == DbHeader(hash, hash.header.number)
    {
      if hash in headerCache {
        return Some(headerCache[hash]);
      }
      header := DbHeader(hash, number);
      if header == None {
        return;
      }
      var evicted: set<Hash> := *;
      headerCache := headerCache[hash := header.value] - evicted;
    }

    method GetHeaderByNumber(number: nat) returns (header: Option<Header>)
      requires KeysOk(headers) && HeaderCacheOk(headers, headerCache) && HeadOk()
      modifies this`headerCache
      ensures HeaderCacheOk(headers, headerCache)
      ensures number <= currentHeader.number ==> header == Some(Path(currentHeaderHash)[number].header)
      ensures number > currentHeader.number ==> header == None
    {
      var hash := CanonicalHash(number);
      if hash == Zero {
        return None;
      }
      header := GetHeader(hash, number);
    }

    /** Drops the number assignments above `number`, stopping at the first absent one. */
    method DeleteCanonicalAbove(number: nat)
      requires NumberingExact(canonical, currentHeaderHash)
      modifies this`canonical
      ensures canonical == UpTo(old(canonical), number)
    {
      var i := number + 1;
      while CanonicalHash(i) != Zero
        invariant i > number
        invariant forall n: nat :: n in canonical <==> n in old(canonical) && !(number < n < i)
        invariant forall n: nat :: n in canonical ==> canonical[n] == old(canonical)[n]
        decreases currentHeaderHash.header.number - i
      {
        canonical := canonical - {i};
        i := i + 1;
      }
    }

    /** Walks from `hash` towards the root, overwriting assignments, until one already agrees. */
    method OverwriteStale(hash: Hash, ghost oldHead: Hash)
      requires KeysOk(headers) && HeaderCacheOk(headers, headerCache)
      requires AncestorsIn(headers, hash) && CutOff(canonical, oldHead, hash)
      modifies this`canonical, this`headerCache
      ensures HeaderCacheOk(headers, headerCache)
      ensures canonical == old(canonical) + Path(hash)
    {
      hide KeysOk, HeaderCacheOk, AncestorsIn, CutOff, Overlay, Genesis;
      HasRoot(headers, hash);
      ghost var path, was := Path(hash), canonical;
      var headHash: Hash, headNumber: nat := hash, hash.header.number;
      var headHeader := ReadAncestor(headHash, headNumber, hash);
      OverlayNone(was, hash);
      while CanonicalHash(headNumber) != headHash
        invariant HeaderCacheOk(headers, headerCache)
        invariant headNumber in path && headHash == path[headNumber] && headHash.Of?
        invariant headHeader == Some(headHash.header)
        invariant canonical == Overlay(was, path, headNumber)
        decreases headNumber
      {
        OverlayAt(was, path, headNumber);
        OverwriteStep(was, hash, headNumber, oldHead);
        canonical := canonical[headNumber := headHash];
        headHash := headHeader.value.parentHash;
        headNumber := headHeader.value.number - 1;
        headHeader := ReadAncestor(headHash, headNumber, hash);
      }
      OverlayAt(was, path, headNumber);
      OverwriteDone(was, hash, headNumber, oldHead);
    }

    /** Reads a header of a branch that is stored completely. */
    method ReadAncestor(hash: Hash, number: nat, ghost tip: Hash) returns (header: Option<Header>)
      requires KeysOk(headers) && HeaderCacheOk(headers, headerCache) && AncestorsIn(headers, tip)
      requires IsAncestor(hash, tip) && number == hash.header.number
      modifies this`headerCache
      ensures HeaderCacheOk(headers, headerCache) && header == Some(hash.header)
    {
      CacheIsSound(headers, headerCache);
      header := GetHeader(hash, number);
    }

    /** Makes a stored header the head and re-routes the number index onto its branch. */
    method Reroute(header: Header)
      requires KeysOk(headers) && HeaderCacheOk(headers, headerCache) && HeadOk()
      requires AncestorsIn(headers, Of(header)) && Genesis(Of(header)) == Of(genesis)
      requires header.number > 0
      modifies this`canonical, this`headerCache, this`headHeaderHash, this`currentHeader, this`currentHeaderHash
      ensures HeaderCacheOk(headers, headerCache) && HeadOk()
      ensures currentHeader == header
    {
      hide KeysOk, Rooted, TdsOk, HeaderCacheOk, HeaderCacheSound, TdCacheOk, Genesis;
      var hash := Of(header);
      ParentsIn(headers, hash);
      PathReplacesIndex(canonical, hash);
      ghost var oldHead := currentHeaderHash;
      DeleteCanonicalAbove(header.number);
      OverwriteStale(header.parentHash, oldHead);
      canonical := canonical[header.number := hash];
      headHeaderHash := hash;
      currentHeaderHash, currentHeader := hash, header;
    }

    /** Stores a header with its total difficulty and number, irrespective of the head. */
    method Record(header: Header, td: nat)
      requires RecordsOk() && CachesOk() && StoredIn(headers, header.parentHash)
      requires header.number == header.parentHash.header.number + 1 && td == TotalDifficulty(Of(header))
      modifies this`headers, this`tds, this`tdCache
      ensures RecordsOk() && CachesOk()
      ensures headers == old(headers)[KeyOf(Of(header)) := header]
    {
      var hash := Of(header);
      NewRootKept(headers, genesis, header);
      NewTdKept(headers, tds, header);
      CachesStayOk(headers, headerCache, tds, tdCache, header);
      tds := tds[KeyOf(hash) := td];
      var evicted: set<Hash> := *;
      tdCache := tdCache[hash := td] - evicted;
      headers := headers[KeyOf(hash) := header];
    }

    /** Records a header and makes it the head if it outweighs the current one; a coin decides ties. */
    method Adopt(header: Header, externTd: nat, localTd: nat) returns (status: WriteStatus)
      requires Valid() && StoredIn(headers, header.parentHash)
      requires externTd >= localTd ==> AncestorsIn(headers, header.parentHash)
      requires header.number == header.parentHash.header.number + 1
      requires externTd == TotalDifficulty(Of(header)) && localTd == TotalDifficulty(currentHeaderHash)
      modifies this
      ensures Valid()
      ensures headers == old(headers)[KeyOf(Of(header)) := header]
      ensures status == CanonStat || status == SideStat
      ensures currentHeader == if status == CanonStat then header else old(currentHeader)
      ensures externTd > localTd ==> status == CanonStat
      ensures externTd < localTd ==> status == SideStat
    {
      hide AncestorsIn, KeysOk, TdsOk, HeaderCacheSound, TdCacheOk, NumberingExact, Path, TotalDifficulty;
      StoringKeepsAncestry(headers, header, currentHeaderHash);
      Record(header, externTd);
      var coin: bool := *;
      if externTd > localTd || (externTd == localTd && coin) {
        Reroute(header);
        status := CanonStat;
      } else {
        status := SideStat;
      }
      var evicted: set<Hash> := *;
      headerCache := headerCache[Of(header) := header] - evicted;
    }

    /** Writes a header whose parent is known and, if it outweighs the head, makes it the head. */
    method WriteHeader(header: Header) returns (status: WriteStatus, err: WriteError)
      requires Valid()
      requires header.parentHash.Of? ==> header.number == header.parentHash.header.number + 1
      requires StoredIn(headers, header.parentHash) && TotalDifficulty(Of(header)) >= TotalDifficulty(currentHeaderHash) ==>
                 AncestorsIn(headers, header.parentHash)
      modifies this
      ensures Valid()
      ensures err == UnknownAncestor <==> !StoredIn(old(headers), header.parentHash)
      ensures err == UnknownAncestor <==> status == NonStat
      ensures err == NoError || err == UnknownAncestor
      ensures headers == if err == NoError then old(headers)[KeyOf(Of(header)) := header] else old(headers)
      ensures currentHeader == if status == CanonStat then header else old(currentHeader)
      ensures status != NonStat && TotalDifficulty(Of(header)) > TotalDifficulty(old(currentHeaderHash)) ==> status == CanonStat
      ensures status != NonStat && TotalDifficulty(Of(header)) < TotalDifficulty(old(currentHeaderHash)) ==> status == SideStat
      ensures Heaviest(old(headers), old(currentHeaderHash)) ==> Heaviest(headers, currentHeaderHash)
    {
      var ptd := GetTd(header.parentHash, Pred(header.number));
      if ptd == None {
        return NonStat, UnknownAncestor;
      }
      var localTd := GetTd(currentHeaderHash, currentHeader.number);
      var externTd := header.difficulty + ptd.value;
      ghost var before, head := headers, currentHeaderHash;
      status := Adopt(header, externTd, localTd.value);
      if Heaviest(before, head) {
        HeavierStaysHeaviest(before, head, header, currentHeaderHash);
      }
      return status, NoError;
    }

    /** Deletes headers from the head downwards until one at or below `head` is reached. */
    method DropHeadersAbove(head: nat, ghost path: map<nat, Hash>) returns (cur: Option<Header>)
      requires KeysOk(headers) && HeaderCacheSound(headerCache)
      requires AncestorsIn(headers, Of(currentHeader)) && path == Path(Of(currentHeader)) && head < currentHeader.number
      modifies this`headers, this`tds, this`headerCache
      ensures headers == Rewound(old(headers), path, head)
      ensures tds == Rewound(old(tds), path, head)
      ensures cur == Some(path[head].header)
    {
      hide *;
      ghost var h, k: nat := Of(currentHeader), currentHeader.number;
      ghost var headers0, tds0 := headers, tds;
      cur := Some(currentHeader);
      DroppedNone(headers0, tds0, h);
      while cur != None && cur.value.number > head
        invariant head <= k && k in path && cur == Some(path[k].header)
        invariant DroppedTo(headers, tds, headers0, tds0, h, k) && HeaderCacheSound(headerCache)
        decreases k
      {
        DroppedNext(headers, tds, headers0, tds0, h, k);
        cur := DropHeader(cur.value, path[k - 1]);
        k := k - 1;
      }
      DroppedWhat(headers, tds, headers0, tds0, h, k);
    }

    /** Deletes one header and moves on to its parent. */
    method DropHeader(header: Header, ghost parent: Hash) returns (cur: Option<Header>)
      requires KeysOk(headers - {KeyOf(Of(header))}) && HeaderCacheSound(headerCache)
      requires header.parentHash == parent && parent.Of? && header.number == parent.header.number + 1
      requires KeyOf(parent) in headers && headers[KeyOf(parent)] == parent.header
      modifies this`headers, this`tds, this`headerCache
      ensures headers == old(headers) - {KeyOf(Of(header))}
      ensures tds == old(tds) - {KeyOf(Of(header))}
      ensures cur == Some(parent.header) && HeaderCacheSound(headerCache)
    {
      headers := headers - {(header.number, Of(header))};
      tds := tds - {(header.number, Of(header))};
      cur := GetHeader(header.parentHash, header.number - 1);
    }

    /** Rewinds the chain to height `head`, deleting the canonical headers above it. */
    method SetHead(head: nat)
      requires Valid()
      modifies this
      ensures Valid()
      ensures head >= old(currentHeader).number ==> currentHeader == old(currentHeader) && headers == old(headers)
      ensures head < old(currentHeader).number ==>
                && currentHeaderHash == Path(old(currentHeaderHash))[head]
                && headers == Rewound(old(headers), Path(old(currentHeaderHash)), head)
                && (Closed(old(headers)) ==> (Closed(headers) <==> NoBranchAbove(old(headers), old(currentHeaderHash), head)))
    {
      hide Rewound, KeysOk, Rooted, TdsOk, AncestorsIn, Genesis, NumberingExact, Linked, Closed, NoBranchAbove;
      if currentHeader.number > head {
        HasPath(headers, currentHeaderHash, head);
        Rewind(head);
      }
      headerCache := map[];
      tdCache := map[];
      currentHeaderHash := Of(currentHeader);
      headHeaderHash := currentHeaderHash;
    }

    /** Deletes the canonical headers and numbers above a height. */
    method Rewind(head: nat)
      requires Valid() && head < currentHeader.number
      modifies this`headers, this`tds, this`headerCache, this`canonical, this`currentHeader
      ensures RecordsOk() && AncestorsIn(headers, Of(currentHeader)) && Genesis(Of(currentHeader)) == Of(genesis)
      ensures NumberingExact(canonical, Of(currentHeader)) && Of(currentHeader) == Path(currentHeaderHash)[head]
      ensures headers == Rewound(old(headers), Path(currentHeaderHash), head)
    {
      hide AncestorsIn, KeysOk, Rooted, TdsOk, HeaderCacheOk, HeaderCacheSound, TdCacheOk, Linked, Path, Genesis, Rewound, UpTo;
      var height := currentHeader.number;
      CacheIsSound(headers, headerCache);
      RewoundRecords(headers, tds, genesis, currentHeaderHash, head);
      RewoundHead(headers, currentHeaderHash, head);
      PathStep(currentHeaderHash, head);
      ghost var path := Path(currentHeaderHash);
      var cur := DropHeadersAbove(head, path);
      DropNumbersAbove(head, height);
      currentHeader := if cur == None then genesis else cur.value;
      assert currentHeader == path[head].header;
    }

    /** Rolls the number index back, from `height` down to just above `head`. */
    method DropNumbersAbove(head: nat, height: nat)
      requires head < height && forall n: nat :: n in canonical ==> n <= height
      modifies this`canonical
      ensures canonical == UpTo(old(canonical), head)
    {
      var i := height;
      while i > head
        invariant head <= i <= height
        invariant canonical == UpTo(old(canonical), i)
      {
        canonical := canonical - {i};
        i := i - 1;
      }
    }

    /** Imports a contiguous run of headers, skipping those already known.  An interrupt that comes before header
        `stop` aborts the import there. */
    method InsertHeaderChain(chain: seq<Header>, stop: nat) returns (index: nat, err: WriteError)
      requires Valid() && Closed(headers)
      requires |chain| > 0 && Contiguous(chain)
      requires chain[0].parentHash.Of? ==> chain[0].number == chain[0].parentHash.header.number + 1
      modifies this
      ensures Valid() && Closed(headers)
      ensures err == UnknownAncestor <==>
                stop > 0 && !StoredIn(old(headers), chain[0].parentHash) && !StoredIn(old(headers), Of(chain[0]))
      ensures err == Aborted <==> err != UnknownAncestor && stop < |chain|
      ensures err == NoError || err == Aborted || err == UnknownAncestor
      ensures index == if err == Aborted then stop else 0
      ensures headers.Keys == old(headers).Keys +
                if err == UnknownAncestor then {} else set i | 0 <= i < |chain| && i < stop :: KeyOf(Of(chain[i]))
      ensures Heaviest(old(headers), old(currentHeaderHash)) ==> Heaviest(headers, currentHeaderHash)
    {
      hide Closed, Heaviest, KeysOk, Rooted, TdsOk, HeaderCacheOk, TdCacheOk, AncestorsIn, NumberingExact, Genesis, Linked, TotalDifficulty;
      for i := 0 to |chain|
        invariant Valid() && Closed(headers) && i <= stop
        invariant headers.Keys == old(headers).Keys + set j | 0 <= j < i :: KeyOf(Of(chain[j]))
        invariant i > 0 ==> StoredIn(old(headers), chain[0].parentHash) || StoredIn(old(headers), Of(chain[0]))
        invariant Heaviest(old(headers), old(currentHeaderHash)) ==> Heaviest(headers, currentHeaderHash)
      {
        if i == stop {
          return i, Aborted;
        }
        assert i > 0 ==> Follows(chain[i - 1], chain[i]) && KeyOf(Of(chain[i - 1])) in headers.Keys;
        index, err := InsertOne(chain[i], i);
        if err != NoError {
          return;
        }
      }
      return 0, NoError;
    }

    method InsertOne(header: Header, i: nat) returns (index: nat, err: WriteError)
      requires Valid() && Closed(headers)
      requires header.parentHash.Of? ==> header.number == header.parentHash.header.number + 1
      modifies this
      ensures Valid() && Closed(headers) && index == i
      ensures err == UnknownAncestor <==> !StoredIn(old(headers), header.parentHash) && !StoredIn(old(headers), Of(header))
      ensures err == NoError || err == UnknownAncestor
      ensures err == UnknownAncestor ==> headers == old(headers)
      ensures err == NoError ==> headers == old(headers)[KeyOf(Of(header)) := header]
      ensures Heaviest(old(headers), old(currentHeaderHash)) ==> Heaviest(headers, currentHeaderHash)
    {
      index := i;
      var known := GetHeader(Of(header), header.number);
      if known != None {
        assert headers == headers[KeyOf(Of(header)) := header];
        return index, NoError;
      }
      ghost var before := headers;
      if StoredIn(headers, header.parentHash) {
        assert KeyOf(header.parentHash) in headers;
        ClosedHasAncestors(headers, header.parentHash);
        StoringKeepsClosed(headers, header);
      }
      var status;
      status, err := WriteHeader(header);
    }
  }
}
