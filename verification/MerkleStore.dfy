/** The content-addressed store: an object with a disk and an in-process cache, and the round trip
    from a document through the store and back. */
module MerkleStore {
  import opened Json
  import opened Text
  import opened MerkleEncoding
  import opened MerkleTree
  import opened MerkleDisk
  import opened MerkleIdentity

  // ---------------------------------------------------------------- reading back

  /** The document stored under a hash. The rank bounds the recursion. */
  ghost function Rebuild(disk: Disk, rank: map<NodeHash, nat>, h: NodeHash): Value
    requires ClosedAndAcyclic(disk, rank) && h in disk
    decreases if h in rank then rank[h] else 0
  {
    assert RankedAt(disk, rank, h);
    match disk[h]
    case MNull => Null
    case MBool(b) => Bool(b)
    case MNumber(c) => Num(Decanonicalize(c))
    case MString(s) => Str(s)
    case MArray(cs) =>
      Arr(seq(|cs|, i requires 0 <= i < |cs| => assert ChildHashes(disk[h])[i] == cs[i]; Rebuild(disk, rank, cs[i])))
    case MObject(es) =>
      Obj(seq(|es|, i requires 0 <= i < |es| =>
        assert ChildHashes(disk[h])[i] == es[i].hash; Field(es[i].key, Rebuild(disk, rank, es[i].hash))))
  }

  /** The files of a stored document can all be read; `good` are the hashes that can. */
  ghost predicate Readable(disk: Disk, rank: map<NodeHash, nat>, h: NodeHash, good: set<NodeHash>)
    requires ClosedAndAcyclic(disk, rank)
    decreases if h in rank then rank[h] else 0, 1
  {
    h in disk && h in good && ChildrenReadable(disk, rank, h, good)
  }

  ghost predicate ChildrenReadable(disk: Disk, rank: map<NodeHash, nat>, h: NodeHash, good: set<NodeHash>)
    requires ClosedAndAcyclic(disk, rank) && h in disk
    decreases if h in rank then rank[h] else 0, 0
  {
    assert RankedAt(disk, rank, h);
    forall i :: 0 <= i < |ChildHashes(disk[h])| ==> Readable(disk, rank, ChildHashes(disk[h])[i], good)
  }

  /** When no read fails, exactly what is on disk can be read back. */
  lemma {:induction false} AllReadable(disk: Disk, rank: map<NodeHash, nat>, h: NodeHash, good: set<NodeHash>)
    requires ClosedAndAcyclic(disk, rank) && disk.Keys <= good
    ensures Readable(disk, rank, h, good) <==> h in disk
    decreases if h in rank then rank[h] else 0
  {
    if h in disk {
      assert RankedAt(disk, rank, h);
      forall i | 0 <= i < |ChildHashes(disk[h])| ensures Readable(disk, rank, ChildHashes(disk[h])[i], good) {
        AllReadable(disk, rank, ChildHashes(disk[h])[i], good);
      }
    }
  }

  /** A larger disk, however it grew, gives back the same document. */
  lemma {:induction false} RebuildStable(disk: Disk, rank: map<NodeHash, nat>, disk': Disk, rank': map<NodeHash, nat>,
          h: NodeHash)
    requires ClosedAndAcyclic(disk, rank) && ClosedAndAcyclic(disk', rank') && SubDisk(disk, disk') && h in disk
    ensures Rebuild(disk', rank', h) == Rebuild(disk, rank, h)
    decreases if h in rank then rank[h] else 0
  {
    assert RankedAt(disk, rank, h);
    match disk[h]
    case MArray(cs) =>
      forall i | 0 <= i < |cs| ensures cs[i] in disk && Rebuild(disk', rank', cs[i]) == Rebuild(disk, rank, cs[i]) {
        assert ChildHashes(disk[h])[i] == cs[i];
        RebuildStable(disk, rank, disk', rank', cs[i]);
      }
    case MObject(es) =>
      forall i | 0 <= i < |es|
        ensures es[i].hash in disk && Rebuild(disk', rank', es[i].hash) == Rebuild(disk, rank, es[i].hash)
      {
        assert ChildHashes(disk[h])[i] == es[i].hash;
        RebuildStable(disk, rank, disk', rank', es[i].hash);
      }
    case _ =>
  }

  lemma {:induction false} EntriesDistinct(disk: Disk, rank: map<NodeHash, nat>, h: NodeHash, env: Platform)
    requires Sound(disk, rank, env) && h in disk && disk[h].MObject?
    ensures Distinct(Rebuild(disk, rank, h).fields)
  {
    assert AddressedAt(disk, h, env);
    var es := disk[h].entries;
    var fs := Rebuild(disk, rank, h).fields;
    SortedDistinct(EntryKeys(es));
    forall i, j | 0 <= i < j < |fs| ensures fs[i].key != fs[j].key { assert EntryKeys(es)[i] != EntryKeys(es)[j]; }
  }

  /** Whatever a sound store gives back is a proper document. */
  lemma {:induction false} RebuiltWellFormed(disk: Disk, rank: map<NodeHash, nat>, h: NodeHash, env: Platform)
    requires Sound(disk, rank, env) && h in disk
    ensures WellFormed(Rebuild(disk, rank, h))
    decreases if h in rank then rank[h] else 0
  {
    assert RankedAt(disk, rank, h);
    match disk[h]
    case MArray(cs) =>
      forall i | 0 <= i < |cs| ensures cs[i] in disk && WellFormed(Rebuild(disk, rank, cs[i])) {
        assert ChildHashes(disk[h])[i] == cs[i];
        RebuiltWellFormed(disk, rank, cs[i], env);
      }
    case MObject(es) =>
      EntriesDistinct(disk, rank, h, env);
      forall i | 0 <= i < |es| ensures es[i].hash in disk && WellFormed(Rebuild(disk, rank, es[i].hash)) {
        assert ChildHashes(disk[h])[i] == es[i].hash;
        RebuiltWellFormed(disk, rank, es[i].hash, env);
      }
    case _ =>
  }

  /** Every subtree of the document is on disk under its own root. */
  ghost predicate Holds(disk: Disk, v: Value, env: Platform)
    decreases v
  {
    && RootHash(v, env) in disk && disk[RootHash(v, env)] == NodeOf(v, env)
    && forall i :: 0 <= i < KidCount(v) ==> Holds(disk, Kid(v, i), env)
  }

  lemma {:induction false} HoldsGrows(disk: Disk, disk': Disk, v: Value, env: Platform)
    requires SubDisk(disk, disk') && Holds(disk, v, env)
    ensures Holds(disk', v, env)
    decreases v
  {
    forall i | 0 <= i < KidCount(v) ensures Holds(disk', Kid(v, i), env) {
      HoldsGrows(disk, disk', Kid(v, i), env);
    }
  }

  lemma {:induction false} RebuildHeld(disk: Disk, rank: map<NodeHash, nat>, v: Value, env: Platform)
    requires ClosedAndAcyclic(disk, rank) && Holds(disk, v, env)
    ensures Rebuild(disk, rank, RootHash(v, env)) == Restored(v, env)
    decreases v
  {
    match v
    case Num(n) => NumberRoundTrip(n, env);
    case Arr(items) =>
      var cs := ItemHashes(items, env);
      forall i | 0 <= i < |items| ensures cs[i] in disk && Rebuild(disk, rank, cs[i]) == Restored(items[i], env) {
        assert Holds(disk, Kid(v, i), env);
        RebuildHeld(disk, rank, items[i], env);
      }
    case Obj(fs) =>
      SortedEntryAt(fs, env);
      var es, r := SortEntries(RawEntries(fs, env)), SortOrder(FieldKeys(fs));
      forall i | 0 <= i < |es|
        ensures es[i].hash in disk
        ensures Field(es[i].key, Rebuild(disk, rank, es[i].hash)) == Field(fs[r[i]].key, Restored(fs[r[i]].value, env))
      {
        assert Holds(disk, Kid(v, r[i]), env);
        RebuildHeld(disk, rank, fs[r[i]].value, env);
      }
    case _ =>
  }

  // ---------------------------------------------------------------- ingest, then read back

  ghost function Nodes(disk: Disk): set<MerkleNode> {
    disk.Values
  }

  lemma NoCollisionSubset(small: set<MerkleNode>, large: set<MerkleNode>, env: Platform)
    requires NoCollision(large, env) && small <= large
    ensures NoCollision(small, env)
  {
  }

  lemma PutNodes(disk: Disk, n: MerkleNode, env: Platform)
    ensures Nodes(Put(disk, n, env)) <= Nodes(disk) + {n}
  {
  }

  lemma {:induction false} IngestNodes(disk: Disk, v: Value, env: Platform)
    ensures Nodes(IngestDisk(disk, v, env)) <= Nodes(disk) + NodesOf(v, env)
    decreases v, 1, 0
  {
    IngestKidsNodes(disk, v, KidCount(v), env);
    PutNodes(IngestKids(disk, v, KidCount(v), env), NodeOf(v, env), env);
  }

  lemma Within<T>(x: set<T>, a: set<T>, b: set<T>, c: set<T>, d: set<T>)
    requires x <= a + b && a <= c + d
    ensures x <= c + (d + b)
  {
  }

  lemma {:induction false} IngestKidsNodes(disk: Disk, v: Value, i: nat, env: Platform)
    requires i <= KidCount(v)
    ensures Nodes(IngestKids(disk, v, i, env)) <= Nodes(disk) + KidNodes(v, i, env)
    decreases v, 0, i
  {
    if i > 0 {
      var kids, kid := IngestKids(disk, v, i - 1, env), Kid(v, i - 1);
      IngestKidsNodes(disk, v, i - 1, env);
      IngestNodes(kids, kid, env);
      Within(Nodes(IngestDisk(kids, kid, env)), Nodes(kids), NodesOf(kid, env), Nodes(disk), KidNodes(v, i - 1, env));
    }
  }

  lemma {:induction false} KidNodesWithin(v: Value, i: nat, env: Platform)
    requires i <= KidCount(v)
    ensures KidNodes(v, i, env) <= NodesOf(v, env)
    decreases KidCount(v) - i
  {
    if i < KidCount(v) {
      KidNodesWithin(v, i + 1, env);
    }
  }

  /** If a document's root is on disk before its own node is written, it is there with that node. */
  lemma {:induction false} NodeAgrees(disk: Disk, v: Value, env: Platform)
    requires NoCollision(Nodes(disk) + NodesOf(v, env), env)
    requires ContentAddressed(IngestKids(disk, v, KidCount(v), env), env)
    requires RootHash(v, env) in IngestKids(disk, v, KidCount(v), env)
    ensures IngestKids(disk, v, KidCount(v), env)[RootHash(v, env)] == NodeOf(v, env)
  {
    var kids := IngestKids(disk, v, KidCount(v), env);
    IngestKidsNodes(disk, v, KidCount(v), env);
    assert kids[RootHash(v, env)] in Nodes(kids);
    assert AddressedAt(kids, RootHash(v, env), env);
    HashIdentifies(Nodes(disk) + NodesOf(v, env), kids[RootHash(v, env)], NodeOf(v, env), env);
  }

  lemma {:induction false} KidNoCollision(disk: Disk, v: Value, i: nat, env: Platform)
    requires NoCollision(Nodes(disk) + NodesOf(v, env), env) && i < KidCount(v)
    ensures NoCollision(Nodes(IngestKids(disk, v, i, env)) + NodesOf(Kid(v, i), env), env)
  {
    IngestKidsNodes(disk, v, i, env);
    KidNodesWithin(v, i, env);
    NodesOfKid(v, i, env);
    NoCollisionSubset(Nodes(IngestKids(disk, v, i, env)) + NodesOf(Kid(v, i), env), Nodes(disk) + NodesOf(v, env), env);
  }

  /** What an ingest that stopped half-way guarantees: nothing is lost or changed, and only
      subtrees of the document were added. */
  ghost predicate PartlyGrown(before: Disk, after: Disk, hashes: set<NodeHash>) {
    SubDisk(before, after) && after.Keys <= before.Keys + hashes
  }

  lemma {:induction false} KidHashesReach(v: Value, i: nat, env: Platform)
    requires i <= KidCount(v)
    ensures KidHashes(v, i, env) <= KidHashes(v, KidCount(v), env)
    decreases KidCount(v) - i
  {
    if i < KidCount(v) { KidHashesReach(v, i + 1, env); }
  }

  lemma {:induction false} PartlyGrownKid(before: Disk, after: Disk, v: Value, i: nat, env: Platform)
    requires i < KidCount(v) && PartlyGrown(IngestKids(before, v, i, env), after, SubHashes(Kid(v, i), env))
    ensures PartlyGrown(before, after, SubHashes(v, env))
  {
    IngestKidsExtends(before, v, i, env);
    IngestKidsAddSubtrees(before, v, i, env);
    KidHashesReach(v, i + 1, env);
  }

  lemma {:induction false} PartlyGrownKids(before: Disk, v: Value, env: Platform)
    ensures PartlyGrown(before, IngestKids(before, v, KidCount(v), env), SubHashes(v, env))
  {
    IngestKidsExtends(before, v, KidCount(v), env);
    IngestKidsAddSubtrees(before, v, KidCount(v), env);
  }

  lemma {:induction false} IngestAddressed(disk: Disk, v: Value, env: Platform)
    requires ContentAddressed(disk, env)
    ensures ContentAddressed(IngestDisk(disk, v, env), env)
    decreases v, 1, 0
  {
    IngestKidsAddressed(disk, v, KidCount(v), env);
    NodeOfSorted(v, env);
    AddAddressed(IngestKids(disk, v, KidCount(v), env), RootHash(v, env), NodeOf(v, env), env);
  }

  lemma {:induction false} IngestKidsAddressed(disk: Disk, v: Value, i: nat, env: Platform)
    requires ContentAddressed(disk, env) && i <= KidCount(v)
    ensures ContentAddressed(IngestKids(disk, v, i, env), env)
    decreases v, 0, i
  {
    if i > 0 {
      IngestKidsAddressed(disk, v, i - 1, env);
      IngestAddressed(IngestKids(disk, v, i - 1, env), Kid(v, i - 1), env);
    }
  }

  ghost predicate KidsHeld(disk: Disk, v: Value, i: nat, env: Platform)
    requires i <= KidCount(v)
  {
    i == 0 || (KidsHeld(disk, v, i - 1, env) && Holds(disk, Kid(v, i - 1), env))
  }

  lemma {:induction false} KidHeldAt(disk: Disk, v: Value, i: nat, j: nat, env: Platform)
    requires j < i <= KidCount(v) && KidsHeld(disk, v, i, env)
    ensures Holds(disk, Kid(v, j), env)
  {
    if j < i - 1 { KidHeldAt(disk, v, i - 1, j, env); }
  }

  lemma {:induction false} KidsHeldGrow(disk: Disk, disk': Disk, v: Value, i: nat, env: Platform)
    requires SubDisk(disk, disk') && i <= KidCount(v) && KidsHeld(disk, v, i, env)
    ensures KidsHeld(disk', v, i, env)
  {
    if i > 0 {
      KidsHeldGrow(disk, disk', v, i - 1, env);
      HoldsGrows(disk, disk', Kid(v, i - 1), env);
    }
  }

  /** After an ingest every subtree is on disk under its root, unless hashes collide. */
  lemma {:induction false} IngestHolds(disk: Disk, v: Value, env: Platform)
    requires ContentAddressed(disk, env) && NoCollision(Nodes(disk) + NodesOf(v, env), env)
    ensures Holds(IngestDisk(disk, v, env), v, env)
    decreases v, 1, 0, 0
  {
    var n := KidCount(v);
    var kids, after := IngestKids(disk, v, n, env), IngestDisk(disk, v, env);
    IngestKidsHold(disk, v, n, env);
    RootHeld(disk, v, env);
    KidsHeldGrow(kids, after, v, n, env);
    forall i | 0 <= i < n ensures Holds(after, Kid(v, i), env) { KidHeldAt(after, v, n, i, env); }
  }

  /** An ingest puts the node under its hash, or finds it there. */
  lemma {:induction false} RootHeld(disk: Disk, v: Value, env: Platform)
    requires ContentAddressed(disk, env) && NoCollision(Nodes(disk) + NodesOf(v, env), env)
    ensures SubDisk(IngestKids(disk, v, KidCount(v), env), IngestDisk(disk, v, env))
    ensures var after := IngestDisk(disk, v, env);
      RootHash(v, env) in after && after[RootHash(v, env)] == NodeOf(v, env)
  {
    IngestKidsAddressed(disk, v, KidCount(v), env);
    if RootHash(v, env) in IngestKids(disk, v, KidCount(v), env) { NodeAgrees(disk, v, env); }
  }

  lemma {:induction false} KidReady(disk: Disk, v: Value, i: nat, env: Platform)
    requires ContentAddressed(disk, env) && NoCollision(Nodes(disk) + NodesOf(v, env), env) && i < KidCount(v)
    ensures ContentAddressed(IngestKids(disk, v, i, env), env)
    ensures NoCollision(Nodes(IngestKids(disk, v, i, env)) + NodesOf(Kid(v, i), env), env)
  {
    IngestKidsAddressed(disk, v, i, env);
    KidNoCollision(disk, v, i, env);
  }

  lemma {:induction false} IngestKidsHold(disk: Disk, v: Value, i: nat, env: Platform)
    requires ContentAddressed(disk, env) && NoCollision(Nodes(disk) + NodesOf(v, env), env) && i <= KidCount(v)
    ensures KidsHeld(IngestKids(disk, v, i, env), v, i, env)
    decreases v, 0, i, 1
  {
    if i > 0 {
      IngestKidsHold(disk, v, i - 1, env);
      NextKidHeld(disk, v, i, env);
    }
  }

  lemma NextKidHeld(disk: Disk, v: Value, i: nat, env: Platform)
    requires ContentAddressed(disk, env) && NoCollision(Nodes(disk) + NodesOf(v, env), env)
    requires 0 < i <= KidCount(v) && KidsHeld(IngestKids(disk, v, i - 1, env), v, i - 1, env)
    ensures KidsHeld(IngestKids(disk, v, i, env), v, i, env)
    decreases v, 0, i, 0
  {
    IngestExtends(IngestKids(disk, v, i - 1, env), Kid(v, i - 1), env);
    KidsHeldGrow(IngestKids(disk, v, i - 1, env), IngestKids(disk, v, i, env), v, i - 1, env);
    IngestKidHolds(disk, v, i, env);
  }

  lemma {:induction false} IngestKidHolds(disk: Disk, v: Value, i: nat, env: Platform)
    requires ContentAddressed(disk, env) && NoCollision(Nodes(disk) + NodesOf(v, env), env)
    requires 0 < i <= KidCount(v)
    ensures Holds(IngestKids(disk, v, i, env), Kid(v, i - 1), env)
    decreases v, 0, 0, 0
  {
    KidReady(disk, v, i - 1, env);
    IngestHolds(IngestKids(disk, v, i - 1, env), Kid(v, i - 1), env);
  }

  ghost function IngestAllDisk(disk: Disk, vs: seq<Value>, env: Platform): Disk {
    if |vs| == 0 then disk else IngestDisk(IngestAllDisk(disk, vs[..|vs| - 1], env), vs[|vs| - 1], env)
  }

  lemma LaterIngests(disk: Disk, rank: map<NodeHash, nat>, vs: seq<Value>, env: Platform)
    returns (rank': map<NodeHash, nat>)
    requires Sound(disk, rank, env)
    ensures Sound(IngestAllDisk(disk, vs, env), rank', env) && SubDisk(disk, IngestAllDisk(disk, vs, env))
  {
    rank' := rank;
    if |vs| != 0 {
      rank' := LaterIngests(disk, rank, vs[..|vs| - 1], env);
      var before := IngestAllDisk(disk, vs[..|vs| - 1], env);
      IngestExtends(before, vs[|vs| - 1], env);
      rank' := IngestKeepsSound(before, rank', vs[|vs| - 1], env);
    }
  }

  /** From any sound store, ingesting `v` and then any other documents leaves a sound store that
      gives `v` back; it differs from `v` by more than key order exactly when a number is too large. */
  lemma StoreRoundTrip(disk: Disk, rank: map<NodeHash, nat>, v: Value, later: seq<Value>,
          env: Platform)
    returns (rank': map<NodeHash, nat>)
    requires Sound(disk, rank, env) && WellFormed(v) && NoCollision(Nodes(disk) + NodesOf(v, env), env)
    ensures var final := IngestAllDisk(IngestDisk(disk, v, env), later, env);
      && Sound(final, rank', env) && RootHash(v, env) in final
      && Rebuild(final, rank', RootHash(v, env)) == Restored(v, env)
      && (Canon(Rebuild(final, rank', RootHash(v, env)), true) == Canon(v, true) <==> Storable(v))
  {
    var rank1 := IngestKeepsSound(disk, rank, v, env);
    var after := IngestDisk(disk, v, env);
    IngestHolds(disk, v, env);
    rank' := LaterIngests(after, rank1, later, env);
    var final := IngestAllDisk(after, later, env);
    HoldsGrows(after, final, v, env);
    RebuildHeld(final, rank', v, env);
    RestoredIsSame(v, env);
  }

  // ---------------------------------------------------------------- the store object

  datatype IoResult<+T> = Ok(value: T) | Err

  /** `map.insert`: an existing key keeps its place. */
  function MapInsert(fs: seq<Field>, k: string, v: Value): seq<Field> {
    match Find(fs, k)
    case Some(i) => fs[i := Field(k, v)]
    case None => fs + [Field(k, v)]
  }

  /** Entries are sorted by key, so each one read is new to the map built so far. */
  lemma InsertsAtEnd(fs: seq<Field>, es: seq<Entry>, i: nat, v: Value)
    requires StrictlySorted(EntryKeys(es)) && |fs| == i < |es| && forall j :: 0 <= j < i ==> fs[j].key == es[j].key
    ensures MapInsert(fs, es[i].key, v) == fs + [Field(es[i].key, v)]
  {
    SortedDistinct(EntryKeys(es));
    forall j | 0 <= j < i ensures fs[j].key != es[i].key { assert EntryKeys(es)[j] != EntryKeys(es)[i]; }
  }

  ghost predicate KidRoots(hashes: seq<NodeHash>, v: Value, env: Platform) {
    |hashes| <= KidCount(v) && forall j :: 0 <= j < |hashes| ==> hashes[j] == RootHash(Kid(v, j), env)
  }

  lemma {:induction false} NextKidRoot(hashes: seq<NodeHash>, v: Value, env: Platform)
    requires KidRoots(hashes, v, env) && |hashes| < KidCount(v)
    ensures KidRoots(hashes + [RootHash(Kid(v, |hashes|), env)], v, env)
  {
  }

  /** The first children, whose hashes these are, have turned `before` into `after`, and all nodes are cached. */
  ghost predicate KidsDone(before: Disk, after: Disk, cached: set<NodeHash>, hashes: seq<NodeHash>, v: Value,
          env: Platform)
  {
    && KidRoots(hashes, v, env)
    && after == IngestKids(before, v, |hashes|, env) && KidHashes(v, |hashes|, env) <= cached
  }

  lemma {:induction false} OneMoreKid(before: Disk, disk: Disk, cached: set<NodeHash>, cached': set<NodeHash>,
          hashes: seq<NodeHash>, v: Value, env: Platform)
    requires KidsDone(before, disk, cached, hashes, v, env) && |hashes| < KidCount(v)
    requires cached <= cached' && SubHashes(Kid(v, |hashes|), env) <= cached'
    ensures var kid := Kid(v, |hashes|);
      KidsDone(before, IngestDisk(disk, kid, env), cached', hashes + [RootHash(kid, env)], v, env)
  {
    var i := |hashes| + 1;
    NextKidRoot(hashes, v, env);
    assert IngestKids(before, v, i, env) == IngestDisk(disk, Kid(v, i - 1), env);
    assert KidHashes(v, i, env) == KidHashes(v, i - 1, env) + SubHashes(Kid(v, i - 1), env);
  }

  class MerkleCasStore {
    const env: Platform
    var disk: Disk
    var cache: Disk
    /** How many more files can be written before the file system fails. */
    var writesLeft: nat
    /** The files that exist but cannot be read, or do not decode. */
    const unreadable: set<NodeHash>
    ghost var rank: map<NodeHash, nat>

    ghost predicate Valid()
      reads this
    {
      Sound(disk, rank, env) && cache.Keys <= disk.Keys && ContentAddressed(cache, env)
    }

    /** The cache holds what the disk holds. */
    ghost predicate Coherent()
      reads this
    {
      SubDisk(cache, disk)
    }

    /** The hashes that `load` gives a node for. */
    ghost function Good(): set<NodeHash>
      reads this
    {
      cache.Keys + (disk.Keys - unreadable)
    }

    /** `new` on a directory that may already hold objects: the cache starts empty. */
    constructor (env: Platform, disk: Disk, writesLeft: nat, unreadable: set<NodeHash>, ghost rank: map<NodeHash, nat>)
      requires Sound(disk, rank, env)
      ensures Valid() && Coherent() && Good() == disk.Keys - unreadable
      ensures this.env == env && this.disk == disk && this.writesLeft == writesLeft && this.rank == rank
      ensures this.unreadable == unreadable
    {
      this.unreadable := unreadable;
      this.env := env;
      this.disk := disk;
      this.writesLeft := writesLeft;
      this.rank := rank;
      this.cache := map[];
    }

    method Load(h: NodeHash) returns (r: IoResult<MerkleNode>)
      requires Valid()
      modifies this
      ensures Valid() && disk == old(disk) && rank == old(rank) && writesLeft == old(writesLeft)
      ensures r.Ok? <==> h in old(Good())
      ensures Good() == old(Good())
      ensures old(Coherent()) ==> Coherent() && (r.Ok? ==> r.value == disk[h])
    {
      if h in cache {
        return Ok(cache[h]);
      }
      if h !in disk || h in unreadable {
        return Err;
      }
      assert AddressedAt(disk, h, env);
      AddAddressed(cache, h, disk[h], env);
      cache := cache[h := disk[h]];
      r := Ok(disk[h]);
    }

    method WriteIfAbsent(h: NodeHash, n: MerkleNode) returns (ok: bool)
      requires Valid() && h == HashOf(n, env) && NodeSorted(n) && ChildrenOnDisk(n, disk)
      modifies this
      ensures Valid()
      ensures ok ==> disk == Put(old(disk), n, env) && h in disk
      ensures old(cache).Keys <= cache.Keys && (ok ==> h in cache)
      ensures !ok ==> disk == old(disk) && old(writesLeft) == 0 && h !in disk
      ensures disk == old(disk) ==> writesLeft == old(writesLeft)
      ensures old(Coherent()) && (h in old(disk) ==> old(disk)[h] == n) ==> Coherent()
    {
      if h in cache {
        return true;
      }
      AddAddressed(cache, h, n, env);
      if h in disk {
        cache := cache[h := n];
        return true;
      }
      if writesLeft == 0 {
        return false;
      }
      writesLeft := writesLeft - 1;
      PutKeepsSound(disk, rank, n, env);
      rank := PutRank(disk, rank, n, env);
      disk := disk[h := n];
      cache := cache[h := n];
      ok := true;
    }

    method Ingest(v: Value) returns (r: IoResult<NodeHash>)
      requires Valid()
      modifies this
      ensures Valid()
      ensures r.Ok? ==> r.value == RootHash(v, env) && disk == IngestDisk(old(disk), v, env)
      ensures old(cache).Keys <= cache.Keys && (r.Ok? ==> SubHashes(v, env) <= cache.Keys)
      ensures r.Err? ==> writesLeft == 0 && PartlyGrown(old(disk), disk, SubHashes(v, env))
      ensures old(Coherent()) && NoCollision(Nodes(old(disk)) + NodesOf(v, env), env) ==> Coherent()
      decreases v, 2
    {
      var node := IngestNode(v);
      if node.Err? { return Err; }
      NodeOfSorted(v, env);
      ghost var before := old(disk);
      if NoCollision(Nodes(before) + NodesOf(v, env), env) && RootHash(v, env) in disk {
        NodeAgrees(before, v, env);
      }
      PartlyGrownKids(before, v, env);
      var ok := WriteIfAbsent(HashOf(node.value, env), node.value);
      if !ok { return Err; }
      r := Ok(HashOf(node.value, env));
    }

    /** The node of a document, after its children have been ingested. */
    method IngestNode(v: Value) returns (r: IoResult<MerkleNode>)
      requires Valid()
      modifies this
      ensures Valid()
      ensures r.Ok? ==>
        r.value == NodeOf(v, env) && disk == IngestKids(old(disk), v, KidCount(v), env) && ChildrenOnDisk(r.value, disk)
      ensures old(cache).Keys <= cache.Keys && (r.Ok? ==> KidHashes(v, KidCount(v), env) <= cache.Keys)
      ensures r.Err? ==> writesLeft == 0 && PartlyGrown(old(disk), disk, SubHashes(v, env))
      ensures old(Coherent()) && NoCollision(Nodes(old(disk)) + NodesOf(v, env), env) ==> Coherent()
      decreases v, 1
    {
      match v {
        case Null => r := Ok(MNull);
        case Bool(b) => r := Ok(MBool(b));
        case Num(n) => r := Ok(MNumber(Canonicalize(n, env)));
        case Str(s) => r := Ok(MString(s));
        case Arr(items) =>
          var children := IngestChildren(v);
          if children.Err? { return Err; }
          assert children.value == ItemHashes(items, env);
          r := Ok(MArray(children.value));
        case Obj(fs) =>
          var children := IngestChildren(v);
          if children.Err? { return Err; }
          var entries := seq(|fs|, i requires 0 <= i < |fs| => Entry(fs[i].key, children.value[i]));
          assert entries == RawEntries(fs, env);
          r := Ok(MObject(SortEntries(entries)));
      }
      IngestKidsExtends(old(disk), v, KidCount(v), env);
      NodeChildren(v, disk, env);
    }

    /** The loops over array items and object entries: children are ingested first. */
    method IngestChildren(v: Value) returns (r: IoResult<seq<NodeHash>>)
      requires Valid()
      modifies this
      ensures Valid()
      ensures r.Ok? ==> disk == IngestKids(old(disk), v, KidCount(v), env) && |r.value| == KidCount(v)
      ensures r.Ok? ==> forall i :: 0 <= i < KidCount(v) ==> r.value[i] == RootHash(Kid(v, i), env)
      ensures old(cache).Keys <= cache.Keys && (r.Ok? ==> KidHashes(v, KidCount(v), env) <= cache.Keys)
      ensures r.Err? ==> writesLeft == 0 && PartlyGrown(old(disk), disk, SubHashes(v, env))
      ensures old(Coherent()) && NoCollision(Nodes(old(disk)) + NodesOf(v, env), env) ==> Coherent()
      decreases v, 0, 1
    {
      var hashes := [];
      var i := 0;
      ghost var before, cached := disk, cache.Keys;
      ghost var safe := Coherent() && NoCollision(Nodes(disk) + NodesOf(v, env), env);
      while i < KidCount(v)
        invariant i <= KidCount(v) && Ingested(before, hashes, v, i, safe)
        invariant cached <= cache.Keys
      {
        var h := IngestChild(v, i, before, hashes, safe);
        if h.Err? { return Err; }
        hashes := hashes + [h.value];
        i := i + 1;
      }
      r := Ok(hashes);
    }

    ghost predicate Ingested(before: Disk, hashes: seq<NodeHash>, v: Value, i: nat, safe: bool)
      reads this
      requires i <= KidCount(v)
    {
      Valid() && |hashes| == i && KidsDone(before, disk, cache.Keys, hashes, v, env) && (safe ==> Coherent())
    }

    method IngestChild(v: Value, i: nat, ghost before: Disk, ghost hashes: seq<NodeHash>, ghost safe: bool)
      returns (h: IoResult<NodeHash>)
      requires i < KidCount(v) && Ingested(before, hashes, v, i, safe)
      requires safe ==> NoCollision(Nodes(before) + NodesOf(v, env), env)
      modifies this
      ensures h.Ok? ==> Ingested(before, hashes + [h.value], v, i + 1, safe)
      ensures old(cache).Keys <= cache.Keys
      ensures h.Err? ==>
        Valid() && writesLeft == 0 && PartlyGrown(before, disk, SubHashes(v, env)) && (safe ==> Coherent())
      decreases v, 0, 0
    {
      if safe { KidNoCollision(before, v, i, env); }
      ghost var disk0, cached0 := disk, cache.Keys;
      h := Ingest(Kid(v, i));
      if h.Err? {
        PartlyGrownKid(before, disk, v, i, env);
      } else {
        OneMoreKid(before, disk0, cached0, cache.Keys, hashes, v, env);
      }
    }

    method Reconstruct(h: NodeHash) returns (r: IoResult<Value>)
      requires Valid() && Coherent()
      modifies this
      ensures Valid() && Coherent() && SameStore(old(disk), old(rank), old(writesLeft), old(Good()))
      ensures r == if Readable(disk, rank, h, Good()) then Ok(Rebuild(disk, rank, h)) else Err
      decreases if h in rank then rank[h] + 1 else 0, 1
    {
      var node := Load(h);
      if node.Err? { return Err; }
      match node.value {
        case MNull => r := Ok(Null);
        case MBool(b) => r := Ok(Bool(b));
        case MNumber(c) => r := Ok(Num(Decanonicalize(c)));
        case MString(s) => r := Ok(Str(s));
        case MArray(cs) =>
          var items := ReconstructItems(h, cs);
          if items.Err? { return Err; }
          r := Ok(Arr(items.value));
        case MObject(es) =>
          var fields := ReconstructFields(h, es);
          if fields.Err? { return Err; }
          r := Ok(Obj(fields.value));
      }
    }

    /** Reading back changes nothing but the cache, and nothing about what can be read. */
    ghost predicate SameStore(disk0: Disk, rank0: map<NodeHash, nat>, writes0: nat, good0: set<NodeHash>)
      reads this
    {
      disk == disk0 && rank == rank0 && writesLeft == writes0 && Good() == good0
    }

    method ReconstructItems(ghost h: NodeHash, cs: seq<NodeHash>) returns (r: IoResult<seq<Value>>)
      requires Valid() && Coherent() && h in disk && disk[h] == MArray(cs)
      modifies this
      ensures Valid() && Coherent() && SameStore(old(disk), old(rank), old(writesLeft), old(Good()))
      ensures r.Ok? <==> ChildrenReadable(disk, rank, h, Good())
      ensures r.Ok? ==> Arr(r.value) == Rebuild(disk, rank, h)
      decreases if h in rank then rank[h] + 1 else 0, 0
    {
      var items := [];
      for i := 0 to |cs|
        invariant Valid() && Coherent() && SameStore(old(disk), old(rank), old(writesLeft), old(Good()))
        invariant |items| == i
        invariant forall j :: 0 <= j < i ==> cs[j] in disk && items[j] == Rebuild(disk, rank, cs[j])
        invariant forall j :: 0 <= j < i ==> Readable(disk, rank, cs[j], Good())
      {
        assert RankedAt(disk, rank, h) && ChildHashes(disk[h])[i] == cs[i];
        var item := Reconstruct(cs[i]);
        if item.Err? { return Err; }
        items := items + [item.value];
      }
      r := Ok(items);
    }

    method ReconstructFields(ghost h: NodeHash, es: seq<Entry>) returns (r: IoResult<seq<Field>>)
      requires Valid() && Coherent() && h in disk && disk[h] == MObject(es)
      modifies this
      ensures Valid() && Coherent() && SameStore(old(disk), old(rank), old(writesLeft), old(Good()))
      ensures r.Ok? <==> ChildrenReadable(disk, rank, h, Good())
      ensures r.Ok? ==> Obj(r.value) == Rebuild(disk, rank, h)
      decreases if h in rank then rank[h] + 1 else 0, 0
    {
      var fields := [];
      assert AddressedAt(disk, h, env);
      for i := 0 to |es|
        invariant Valid() && Coherent() && SameStore(old(disk), old(rank), old(writesLeft), old(Good()))
        invariant |fields| == i
        invariant forall j :: 0 <= j < i ==>
          es[j].hash in disk && fields[j] == Field(es[j].key, Rebuild(disk, rank, es[j].hash))
        invariant forall j :: 0 <= j < i ==> Readable(disk, rank, es[j].hash, Good())
      {
        assert RankedAt(disk, rank, h) && ChildHashes(disk[h])[i] == es[i].hash;
        var value := Reconstruct(es[i].hash);
        if value.Err? { return Err; }
        InsertsAtEnd(fields, es, i, value.value);
        fields := MapInsert(fields, es[i].key, value.value);
      }
      r := Ok(fields);
    }
  }

  // ---------------------------------------------------------------- ingest and reconstruct in one process

  /** A document whose nodes are all on disk can be read back when all their hashes can be loaded. */
  lemma {:induction false} HeldReadable(disk: Disk, rank: map<NodeHash, nat>, v: Value, good: set<NodeHash>,
          env: Platform)
    requires ClosedAndAcyclic(disk, rank) && Holds(disk, v, env) && SubHashes(v, env) <= good
    ensures Readable(disk, rank, RootHash(v, env), good)
    decreases v
  {
    var cs := ChildHashes(NodeOf(v, env));
    forall i | 0 <= i < |cs| ensures Readable(disk, rank, cs[i], good) {
      var j := ChildIsKid(v, i, env);
      KidHashesContain(v, j, KidCount(v), env);
      HeldReadable(disk, rank, Kid(v, j), good, env);
    }
  }

  /** A document that has been ingested is read back whole up to key order, unless it holds an integer above
      `i64::MAX`; no unreadable file can prevent it, since the ingest has left every node in the cache. Only a
      failed write is an error. */
  method IngestThenReconstruct(store: MerkleCasStore, v: Value) returns (r: IoResult<Value>)
    requires store.Valid() && store.Coherent() && NoCollision(Nodes(store.disk) + NodesOf(v, store.env), store.env)
    modifies store
    ensures store.Valid() && store.Coherent()
    ensures r.Ok? ==> r.value == Restored(v, store.env)
    ensures r.Ok? && WellFormed(v) ==> (Canon(r.value, true) == Canon(v, true) <==> Storable(v))
    ensures r.Err? ==> store.writesLeft == 0
  {
    ghost var before := store.disk;
    var root := store.Ingest(v);
    if root.Err? { return Err; }
    IngestHolds(before, v, store.env);
    HeldReadable(store.disk, store.rank, v, store.Good(), store.env);
    RebuildHeld(store.disk, store.rank, v, store.env);
    if WellFormed(v) { RestoredIsSame(v, store.env); }
    r := store.Reconstruct(root.value);
  }
}
