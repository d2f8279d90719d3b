/** Block headers, their content hashes and the ancestry relation they induce.

    A hash is modelled symbolically: it is either the all-zero hash or the hash of one
    particular header.  Hashing is therefore injective and never yields zero, which is the
    idealisation of a collision-free hash function.  A header commits to the transactions of
    its block. */
module Chain {

  /** Whether a written block became the head, went to a side branch, or was not written. */
  datatype WriteStatus = NonStat | CanonStat | SideStat

  datatype WriteError = NoError | UnknownAncestor | InvalidChain | Aborted

  /** A transaction, identified by its content hash. */
  datatype TxId = TxId(id: nat)

  datatype Hash = Zero | Of(header: Header)

  datatype Header = Header(parentHash: Hash, number: nat, difficulty: nat, txs: seq<TxId>, extra: nat)

  /** Every step from `h` towards the root lowers the number by one, and the root has number 0. */
  predicate Linked(h: Hash) {
    match h
    case Zero => false
    case Of(x) =>
      if x.number == 0 then x.parentHash == Zero
      else Linked(x.parentHash) && x.parentHash.header.number == x.number - 1
  }

  /** The path from the root to `h`: its ancestor-or-self at each height. */
  function Path(h: Hash): (p: map<nat, Hash>)
    requires Linked(h)
    ensures forall n: nat :: n in p <==> n <= h.header.number
    ensures forall n: nat :: n in p ==> p[n].Of? && p[n].header.number == n
    ensures p[h.header.number] == h
    decreases h
  {
    if h.header.number == 0 then map[0 := h]
    else Path(h.header.parentHash)[h.header.number := h]
  }

  /** Consecutive entries of a path are child and parent. */
  lemma {:induction false} PathStep(h: Hash, n: nat)
    requires Linked(h) && n in Path(h)
    ensures Linked(Path(h)[n])
    ensures n > 0 ==> Path(h)[n].header.parentHash == Path(h)[n - 1]
    ensures n == 0 ==> Path(h)[n].header.parentHash == Zero
    decreases h
  {
    if n < h.header.number {
      PathStep(h.header.parentHash, n);
    }
  }

  /** The sum of the difficulties on the path from the root to `h`. */
  function TotalDifficulty(h: Hash): nat
  {
    match h
    case Zero => 0
    case Of(x) => x.difficulty + TotalDifficulty(x.parentHash)
  }

  /** The root of the tree `h` belongs to. */
  function Genesis(h: Hash): (g: Hash)
    requires Linked(h)
    decreases h
  {
    if h.header.number == 0 then h else Genesis(h.header.parentHash)
  }

  lemma {:induction false} PathStartsAtGenesis(h: Hash)
    requires Linked(h)
    ensures Path(h)[0] == Genesis(h)
    decreases h
  {
    if h.header.number > 0 {
      PathStartsAtGenesis(h.header.parentHash);
    }
  }

  /** `a` lies on the path from the root to `h`. */
  predicate IsAncestor(a: Hash, h: Hash)
    requires Linked(h)
  {
    a.Of? && a.header.number in Path(h) && Path(h)[a.header.number] == a
  }

  /** Two branches that agree at one height agree at every lower height. */
  lemma {:induction false} AgreeBelow(a: Hash, b: Hash, m: nat, n: nat)
    requires Linked(a) && Linked(b) && n <= m && m in Path(a) && m in Path(b)
    requires Path(a)[m] == Path(b)[m]
    ensures Path(a)[n] == Path(b)[n]
    decreases m
  {
    if n < m {
      PathStep(a, m);
      PathStep(b, m);
      AgreeBelow(a, b, m - 1, n);
    }
  }

  /** The path to an ancestor is the lower part of the path. */
  lemma AncestorPath(h: Hash, m: nat, n: nat)
    requires Linked(h) && n <= m && m in Path(h)
    ensures Linked(Path(h)[m]) && n in Path(Path(h)[m]) && Path(Path(h)[m])[n] == Path(h)[n]
  {
    PathStep(h, m);
    AgreeBelow(Path(h)[m], h, m, n);
  }

  /** The index `was` with the heights above `k` overwritten by `path`. */
  function Overlay(was: map<nat, Hash>, path: map<nat, Hash>, k: int): map<nat, Hash> {
    was + map n | n in path && k < n :: path[n]
  }

  predicate Follows(parent: Header, child: Header) {
    child.parentHash == Of(parent) && child.number == parent.number + 1
  }

  /** Each header but the first is the child of its predecessor. */
  predicate Contiguous(chain: seq<Header>) {
    forall i :: 0 < i < |chain| ==> Follows(chain[i - 1], chain[i])
  }

  /** The assignments of an index up to height `k`. */
  function UpTo(index: map<nat, Hash>, k: nat): map<nat, Hash> {
    map n | n in index && n <= k :: index[n]
  }

  /** The assignments of an index above height `k`. */
  function UpFrom(index: map<nat, Hash>, k: nat): map<nat, Hash> {
    map n | n in index && n > k :: index[n]
  }
}
