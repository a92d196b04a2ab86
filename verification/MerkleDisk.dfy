/** The disk of the store as a growing map from hashes to nodes: what ingesting a document adds to
    it, which invariants it keeps, and that what was written can be read back for ever. */
module MerkleDisk {
  import opened Json
  import opened Text
  import opened MerkleEncoding
  import opened MerkleTree

  type Disk = map<NodeHash, MerkleNode>

  function ChildHashes(n: MerkleNode): seq<NodeHash> {
    match n
    case MArray(cs) => cs
    case MObject(es) => seq(|es|, i requires 0 <= i < |es| => es[i].hash)
    case _ => []
  }

  ghost predicate NodeSorted(n: MerkleNode) {
    n.MObject? ==> StrictlySorted(EntryKeys(n.entries))
  }

  /** The node on disk under `h` hashes to `h`. */
  ghost predicate AddressedAt(disk: Disk, h: NodeHash, env: Platform)
    requires h in disk
  {
    HashOf(disk[h], env) == h && NodeSorted(disk[h])
  }

  ghost predicate ContentAddressed(disk: Disk, env: Platform) {
    forall h {:trigger AddressedAt(disk, h, env)} :: h in disk ==> AddressedAt(disk, h, env)
  }

  /** The children of the node under `h` are on disk and were written before it. */
  ghost predicate RankedAt(disk: Disk, rank: map<NodeHash, nat>, h: NodeHash)
    requires h in disk
  {
    && h in rank && rank[h] < |disk|
    && forall i :: 0 <= i < |ChildHashes(disk[h])| ==>
         ChildHashes(disk[h])[i] in disk && ChildHashes(disk[h])[i] in rank && rank[ChildHashes(disk[h])[i]] < rank[h]
  }

  /** Every child is on disk and was written before its parent, so no node reaches itself. */
  ghost predicate ClosedAndAcyclic(disk: Disk, rank: map<NodeHash, nat>) {
    && rank.Keys == disk.Keys
    && forall h {:trigger RankedAt(disk, rank, h)} :: h in disk ==> RankedAt(disk, rank, h)
  }

  ghost predicate Sound(disk: Disk, rank: map<NodeHash, nat>, env: Platform) {
    ContentAddressed(disk, env) && ClosedAndAcyclic(disk, rank)
  }

  ghost predicate ChildrenOnDisk(n: MerkleNode, disk: Disk) {
    forall i :: 0 <= i < |ChildHashes(n)| ==> ChildHashes(n)[i] in disk
  }

  ghost predicate SubDisk(a: Disk, b: Disk) {
    forall h :: h in a ==> h in b && b[h] == a[h]
  }

  // ---------------------------------------------------------------- writing

  /** A node is written only if its hash is not on disk yet. */
  function Put(disk: Disk, n: MerkleNode, env: Platform): Disk {
    if HashOf(n, env) in disk then disk else disk[HashOf(n, env) := n]
  }

  /** The rank of a node is the number of nodes written before it. */
  ghost function PutRank(disk: Disk, rank: map<NodeHash, nat>, n: MerkleNode, env: Platform): map<NodeHash, nat> {
    if HashOf(n, env) in disk then rank else rank[HashOf(n, env) := |disk|]
  }

  lemma AddAddressed(disk: Disk, h: NodeHash, n: MerkleNode, env: Platform)
    requires ContentAddressed(disk, env) && HashOf(n, env) == h && NodeSorted(n)
    ensures ContentAddressed(disk[h := n], env)
  {
    var disk' := disk[h := n];
    forall g | g in disk' ensures AddressedAt(disk', g, env) {
      if g != h { assert AddressedAt(disk, g, env); }
    }
  }

  lemma AddRanked(disk: Disk, rank: map<NodeHash, nat>, h: NodeHash, n: MerkleNode)
    requires ClosedAndAcyclic(disk, rank) && h !in disk && ChildrenOnDisk(n, disk)
    ensures ClosedAndAcyclic(disk[h := n], rank[h := |disk|])
  {
    var disk', rank' := disk[h := n], rank[h := |disk|];
    assert |disk'| == |disk| + 1;
    forall g | g in disk' ensures RankedAt(disk', rank', g) {
      if g == h {
        forall i | 0 <= i < |ChildHashes(n)| ensures rank'[ChildHashes(n)[i]] < rank'[h] {
          assert RankedAt(disk, rank, ChildHashes(n)[i]);
        }
      } else {
        assert RankedAt(disk, rank, g);
      }
    }
  }

  lemma PutKeepsSound(disk: Disk, rank: map<NodeHash, nat>, n: MerkleNode, env: Platform)
    requires Sound(disk, rank, env) && NodeSorted(n) && ChildrenOnDisk(n, disk)
    ensures Sound(Put(disk, n, env), PutRank(disk, rank, n, env), env)
  {
    AddAddressed(disk, HashOf(n, env), n, env);
    if HashOf(n, env) !in disk {
      AddRanked(disk, rank, HashOf(n, env), n);
    }
  }

  /** The disk after ingesting a document: children first, then the document's own node. */
  function IngestDisk(disk: Disk, v: Value, env: Platform): Disk
    decreases v, 1, 0
  {
    Put(IngestKids(disk, v, KidCount(v), env), NodeOf(v, env), env)
  }

  function IngestKids(disk: Disk, v: Value, i: nat, env: Platform): Disk
    requires i <= KidCount(v)
    decreases v, 0, i
  {
    if i == 0 then disk else IngestDisk(IngestKids(disk, v, i - 1, env), Kid(v, i - 1), env)
  }

  lemma {:induction false} IngestExtends(disk: Disk, v: Value, env: Platform)
    ensures SubDisk(disk, IngestDisk(disk, v, env)) && RootHash(v, env) in IngestDisk(disk, v, env)
    decreases v, 1, 0
  {
    IngestKidsExtends(disk, v, KidCount(v), env);
  }

  lemma {:induction false} IngestKidsExtends(disk: Disk, v: Value, i: nat, env: Platform)
    requires i <= KidCount(v)
    ensures SubDisk(disk, IngestKids(disk, v, i, env))
    ensures forall j :: 0 <= j < i ==> RootHash(Kid(v, j), env) in IngestKids(disk, v, i, env)
    decreases v, 0, i
  {
    if i > 0 {
      IngestKidsExtends(disk, v, i - 1, env);
      IngestExtends(IngestKids(disk, v, i - 1, env), Kid(v, i - 1), env);
    }
  }

  /** Every child hash of a document's node is the root of some child. */
  lemma ChildIsKid(v: Value, i: nat, env: Platform) returns (j: nat)
    requires i < |ChildHashes(NodeOf(v, env))|
    ensures j < KidCount(v) && ChildHashes(NodeOf(v, env))[i] == RootHash(Kid(v, j), env)
  {
    if v.Arr? {
      j := i;
    } else {
      SortedEntryAt(v.fields, env);
      j := SortOrder(FieldKeys(v.fields))[i];
    }
  }

  lemma {:induction false} NodeChildren(v: Value, disk: Disk, env: Platform)
    requires forall j :: 0 <= j < KidCount(v) ==> RootHash(Kid(v, j), env) in disk
    ensures ChildrenOnDisk(NodeOf(v, env), disk)
  {
    var cs := ChildHashes(NodeOf(v, env));
    forall i | 0 <= i < |cs| ensures cs[i] in disk { var j := ChildIsKid(v, i, env); }
  }

  lemma {:induction false} SortedEntryKeys(fs: seq<Field>, env: Platform)
    ensures EntryKeys(SortEntries(RawEntries(fs, env))) == SortedKeys(set k | k in FieldKeys(fs))
  {
    SortedEntryAt(fs, env);
  }

  lemma {:induction false} NodeOfSorted(v: Value, env: Platform)
    ensures NodeSorted(NodeOf(v, env))
  {
    if v.Obj? {
      SortedEntryKeys(v.fields, env);
      SortedKeysSorted(set k | k in FieldKeys(v.fields));
    }
  }

  /** Content-addressing, closure and acyclicity survive every ingest. */
  lemma IngestKeepsSound(disk: Disk, rank: map<NodeHash, nat>, v: Value, env: Platform)
    returns (rank': map<NodeHash, nat>)
    requires Sound(disk, rank, env)
    ensures Sound(IngestDisk(disk, v, env), rank', env)
    decreases v, 1, 0
  {
    var n := KidCount(v);
    var rank0 := IngestKidsKeepSound(disk, rank, v, n, env);
    IngestKidsExtends(disk, v, n, env);
    NodeChildren(v, IngestKids(disk, v, n, env), env);
    NodeOfSorted(v, env);
    rank' := PutRank(IngestKids(disk, v, n, env), rank0, NodeOf(v, env), env);
    PutKeepsSound(IngestKids(disk, v, n, env), rank0, NodeOf(v, env), env);
  }

  lemma IngestKidsKeepSound(disk: Disk, rank: map<NodeHash, nat>, v: Value, i: nat, env: Platform)
    returns (rank': map<NodeHash, nat>)
    requires Sound(disk, rank, env) && i <= KidCount(v)
    ensures Sound(IngestKids(disk, v, i, env), rank', env)
    decreases v, 0, i
  {
    rank' := rank;
    if i > 0 {
      rank' := IngestKidsKeepSound(disk, rank, v, i - 1, env);
      rank' := IngestKeepsSound(IngestKids(disk, v, i - 1, env), rank', Kid(v, i - 1), env);
    }
  }

  // ---------------------------------------------------------------- growth

  /** After an ingest the disk holds what it held, plus exactly the hashes of the document's subtrees. */
  lemma {:induction false} IngestAddsSubtrees(disk: Disk, v: Value, env: Platform)
    ensures IngestDisk(disk, v, env).Keys == disk.Keys + SubHashes(v, env)
    decreases v, 1, 0
  {
    IngestKidsAddSubtrees(disk, v, KidCount(v), env);
  }

  lemma UnionGroups<T>(a: set<T>, b: set<T>, c: set<T>)
    ensures a + b + c == a + (b + c)
  {
  }

  lemma {:induction false} IngestKidsAddSubtrees(disk: Disk, v: Value, i: nat, env: Platform)
    requires i <= KidCount(v)
    ensures IngestKids(disk, v, i, env).Keys == disk.Keys + KidHashes(v, i, env)
    decreases v, 0, i
  {
    if i > 0 {
      IngestKidsAddSubtrees(disk, v, i - 1, env);
      IngestAddsSubtrees(IngestKids(disk, v, i - 1, env), Kid(v, i - 1), env);
      UnionGroups(disk.Keys, KidHashes(v, i - 1, env), SubHashes(Kid(v, i - 1), env));
    }
  }

  /** Ingesting a document whose subtrees are all on disk writes nothing. */
  lemma {:induction false} ReingestWritesNothing(disk: Disk, v: Value, env: Platform)
    requires SubHashes(v, env) <= disk.Keys
    ensures IngestDisk(disk, v, env) == disk
  {
    IngestAddsSubtrees(disk, v, env);
    IngestExtends(disk, v, env);
    assert disk.Keys + SubHashes(v, env) == disk.Keys;
  }

  /** The document with child `i` replaced. */
  function WithKid(v: Value, i: nat, x: Value): (w: Value)
    requires i < KidCount(v)
    ensures KidCount(w) == KidCount(v)
    ensures forall j :: 0 <= j < KidCount(v) ==> Kid(w, j) == if j == i then x else Kid(v, j)
  {
    match v
    case Arr(items) => Arr(items[i := x])
    case Obj(fs) => Obj(fs[i := Field(fs[i].key, x)])
  }

  ghost predicate HasNode(v: Value, at: seq<nat>) {
    |at| == 0 || (at[0] < KidCount(v) && HasNode(Kid(v, at[0]), at[1..]))
  }

  function ReplaceNode(v: Value, at: seq<nat>, x: Value): Value
    requires HasNode(v, at)
    decreases |at|
  {
    if |at| == 0 then x else WithKid(v, at[0], ReplaceNode(Kid(v, at[0]), at[1..], x))
  }

  /** The roots of the nodes above the replaced one. */
  ghost function Spine(v: Value, at: seq<nat>, x: Value, env: Platform): (s: set<NodeHash>)
    requires HasNode(v, at)
    ensures |s| <= |at|
    decreases |at|
  {
    if |at| == 0 then {}
    else {RootHash(ReplaceNode(v, at, x), env)} + Spine(Kid(v, at[0]), at[1..], x, env)
  }

  lemma {:induction false} OtherKidsKeep(v: Value, i: nat, x: Value, n: nat, env: Platform)
    requires i < KidCount(v) && n <= KidCount(v)
    ensures KidHashes(WithKid(v, i, x), n, env) <= KidHashes(v, n, env) + SubHashes(x, env)
    decreases n
  {
    if n > 0 {
      OtherKidsKeep(v, i, x, n - 1, env);
    }
  }

  lemma {:induction false} KidHashesContain(v: Value, j: nat, i: nat, env: Platform)
    requires j < i <= KidCount(v)
    ensures SubHashes(Kid(v, j), env) <= KidHashes(v, i, env)
    decreases i
  {
    if j < i - 1 {
      KidHashesContain(v, j, i - 1, env);
    }
  }

  lemma {:induction false} ReplacedSubtrees(v: Value, at: seq<nat>, x: Value, env: Platform)
    requires HasNode(v, at)
    ensures SubHashes(ReplaceNode(v, at, x), env) <= SubHashes(v, env) + SubHashes(x, env) + Spine(v, at, x, env)
    decreases |at|
  {
    if |at| > 0 {
      var i := at[0];
      ReplacedSubtrees(Kid(v, i), at[1..], x, env);
      OtherKidsKeep(v, i, ReplaceNode(Kid(v, i), at[1..], x), KidCount(v), env);
      KidHashesContain(v, i, KidCount(v), env);
    }
  }

  /** Replacing one subtree and ingesting again adds at most one node per level above it, plus the
      distinct nodes of the new subtree. */
  lemma {:induction false} ReplacementGrowth(disk: Disk, v: Value, at: seq<nat>, x: Value, env: Platform)
    requires HasNode(v, at)
    ensures var before := IngestDisk(disk, v, env);
      |IngestDisk(before, ReplaceNode(v, at, x), env).Keys| <= |before.Keys| + |at| + |SubHashes(x, env)|
  {
    var before := IngestDisk(disk, v, env);
    var w := ReplaceNode(v, at, x);
    IngestAddsSubtrees(disk, v, env);
    IngestAddsSubtrees(before, w, env);
    ReplacedSubtrees(v, at, x, env);
    var s := Spine(v, at, x, env) + SubHashes(x, env);
    assert before.Keys + SubHashes(w, env) <= before.Keys + s;
    SubsetSize(before.Keys + SubHashes(w, env), before.Keys + s);
    UnionSize(before.Keys, s);
    UnionSize(Spine(v, at, x, env), SubHashes(x, env));
  }

  lemma SubsetSize<T>(a: set<T>, b: set<T>)
    requires a <= b
    ensures |a| <= |b|
  {
    assert |b - a| == |b| - |a|;
  }

  lemma UnionSize<T>(a: set<T>, b: set<T>)
    ensures |a + b| <= |a| + |b|
  {
    assert |a + b| == |a| + |b| - |a * b|;
  }
}
