/** The Merkle form of a document: its nodes, its root hash, and what comes back when the nodes
    are put together again. */
module MerkleTree {
  import opened Json
  import opened Text
  import opened MerkleEncoding

  // ---------------------------------------------------------------- children in document order

  function KidCount(v: Value): nat {
    match v
    case Arr(items) => |items|
    case Obj(fs) => |fs|
    case _ => 0
  }

  function Kid(v: Value, i: nat): Value
    requires i < KidCount(v)
  {
    match v
    case Arr(items) => items[i]
    case Obj(fs) => fs[i].value
  }

  // ---------------------------------------------------------------- sorting by key

  function KeyIndex(ks: seq<string>, k: string): (r: nat)
    requires k in ks
    ensures r < |ks| && ks[r] == k
  {
    if ks[0] == k then 0 else 1 + KeyIndex(ks[1..], k)
  }

  /** Positions in the order of their keys: what sorting a list by key does to it. */
  function SortOrder(ks: seq<string>): (r: seq<nat>)
    ensures forall i :: 0 <= i < |r| ==> r[i] < |ks|
  {
    var sorted := SortedKeys(set k | k in ks);
    seq(|sorted|, i requires 0 <= i < |sorted| => assert sorted[i] in sorted; KeyIndex(ks, sorted[i]))
  }

  ghost predicate DistinctStrings(ks: seq<string>) {
    forall i, j :: 0 <= i < j < |ks| ==> ks[i] != ks[j]
  }

  lemma KeySetSize(ks: seq<string>)
    requires DistinctStrings(ks)
    ensures |KeySet(ks)| == |ks|
  {
    if |ks| != 0 {
      var init := ks[..|ks| - 1];
      KeySetSize(init);
      assert KeySet(ks) == KeySet(init) + {ks[|ks| - 1]};
    }
  }

  /** Sorting rearranges a list with distinct keys so that keys increase strictly, and loses nothing. */
  lemma SortOrderSorts(ks: seq<string>)
    requires DistinctStrings(ks)
    ensures var r := SortOrder(ks);
      && |r| == |ks|
      && StrictlySorted(seq(|r|, i requires 0 <= i < |r| => ks[r[i]]))
      && forall j :: 0 <= j < |ks| ==> j in r
  {
    var sorted, r := SortedKeys(KeySet(ks)), SortOrder(ks);
    SortedKeysSorted(KeySet(ks));
    KeySetSize(ks);
    assert KeySet(ks) == set k | k in ks;
    forall j | 0 <= j < |ks| ensures j in r {
      assert ks[j] in sorted;
      var i :| 0 <= i < |sorted| && sorted[i] == ks[j];
      assert r[i] == KeyIndex(ks, ks[j]);
    }
    assert seq(|r|, i requires 0 <= i < |r| => ks[r[i]]) == sorted;
  }

  function EntryKeys(es: seq<Entry>): seq<string> {
    seq(|es|, i requires 0 <= i < |es| => es[i].key)
  }

  function FieldKeys(fs: seq<Field>): seq<string> {
    seq(|fs|, i requires 0 <= i < |fs| => fs[i].key)
  }

  /** `entries.sort_by(|a, b| a.0.cmp(&b.0))`. */
  function SortEntries(es: seq<Entry>): seq<Entry> {
    var r := SortOrder(EntryKeys(es));
    seq(|r|, i requires 0 <= i < |r| => es[r[i]])
  }

  // ---------------------------------------------------------------- nodes and hashes

  function RawEntries(fs: seq<Field>, env: Platform): seq<Entry>
    decreases fs
  {
    seq(|fs|, i requires 0 <= i < |fs| => Entry(fs[i].key, RootHash(fs[i].value, env)))
  }

  function ItemHashes(items: seq<Value>, env: Platform): seq<NodeHash>
    decreases items
  {
    seq(|items|, i requires 0 <= i < |items| => RootHash(items[i], env))
  }

  function NodeOf(v: Value, env: Platform): MerkleNode
    decreases v, 0
  {
    match v
    case Null => MNull
    case Bool(b) => MBool(b)
    case Num(n) => MNumber(Canonicalize(n, env))
    case Str(s) => MString(s)
    case Arr(items) => MArray(ItemHashes(items, env))
    case Obj(fs) => MObject(SortEntries(RawEntries(fs, env)))
  }

  function RootHash(v: Value, env: Platform): NodeHash
    decreases v, 1
  {
    HashOf(NodeOf(v, env), env)
  }

  /** The nodes of all subtrees. */
  ghost function NodesOf(v: Value, env: Platform): set<MerkleNode>
    decreases v, 1, 0
  {
    {NodeOf(v, env)} + KidNodes(v, KidCount(v), env)
  }

  ghost function KidNodes(v: Value, i: nat, env: Platform): set<MerkleNode>
    requires i <= KidCount(v)
    decreases v, 0, i
  {
    if i == 0 then {} else KidNodes(v, i - 1, env) + NodesOf(Kid(v, i - 1), env)
  }

  /** The root hashes of all subtrees. */
  ghost function SubHashes(v: Value, env: Platform): set<NodeHash>
    decreases v, 1, 0
  {
    {RootHash(v, env)} + KidHashes(v, KidCount(v), env)
  }

  ghost function KidHashes(v: Value, i: nat, env: Platform): set<NodeHash>
    requires i <= KidCount(v)
    decreases v, 0, i
  {
    if i == 0 then {} else KidHashes(v, i - 1, env) + SubHashes(Kid(v, i - 1), env)
  }

  // ---------------------------------------------------------------- what comes back

  /** The document with object keys sorted and large integers turned into doubles. */
  function Restored(v: Value, env: Platform): Value
    decreases v
  {
    match v
    case Num(n) => Num(StoredNumber(n, env))
    case Arr(items) => Arr(RestoredItems(items, env))
    case Obj(fs) => Obj(RestoredFields(fs, SortOrder(FieldKeys(fs)), env))
    case _ => v
  }

  function RestoredItems(items: seq<Value>, env: Platform): seq<Value>
    decreases items
  {
    seq(|items|, i requires 0 <= i < |items| => Restored(items[i], env))
  }

  function RestoredFields(fs: seq<Field>, order: seq<nat>, env: Platform): seq<Field>
    requires forall i :: 0 <= i < |order| ==> order[i] < |fs|
    decreases fs
  {
    seq(|order|, i requires 0 <= i < |order| => Field(fs[order[i]].key, Restored(fs[order[i]].value, env)))
  }

  // ---------------------------------------------------------------- the root decides the document

  lemma {:induction false} RawKeys(fs: seq<Field>, env: Platform)
    ensures EntryKeys(RawEntries(fs, env)) == FieldKeys(fs)
  {
  }

  lemma {:induction false} SortedEntryAt(fs: seq<Field>, env: Platform)
    ensures var es, r := SortEntries(RawEntries(fs, env)), SortOrder(FieldKeys(fs));
      |es| == |r| && forall i :: 0 <= i < |r| ==> es[i] == Entry(fs[r[i]].key, RootHash(fs[r[i]].value, env))
  {
    RawKeys(fs, env);
  }

  lemma {:induction false} KidNodesContain(v: Value, j: nat, i: nat, env: Platform)
    requires j < i <= KidCount(v)
    ensures NodesOf(Kid(v, j), env) <= KidNodes(v, i, env)
    decreases i
  {
    if j < i - 1 {
      KidNodesContain(v, j, i - 1, env);
    }
  }

  lemma {:induction false} NodesOfKid(v: Value, i: nat, env: Platform)
    requires i < KidCount(v)
    ensures NodesOf(Kid(v, i), env) <= NodesOf(v, env)
  {
    KidNodesContain(v, i, KidCount(v), env);
  }

  /** Two documents with the same root restore to the same document, unless something collides. */
  lemma {:induction false} RootDeterminesRestored(v: Value, w: Value, nodes: set<MerkleNode>, env: Platform)
    requires NoCollision(nodes, env) && NodesOf(v, env) <= nodes && NodesOf(w, env) <= nodes
    requires RootHash(v, env) == RootHash(w, env)
    ensures Restored(v, env) == Restored(w, env)
    decreases v, 1
  {
    HashIdentifies(nodes, NodeOf(v, env), NodeOf(w, env), env);
    match v
    case Num(n) =>
      NumberRoundTrip(n, env);
      NumberRoundTrip(w.n, env);
    case Arr(items) =>
      var xs, ys := ItemHashes(items, env), ItemHashes(w.items, env);
      forall i | 0 <= i < |items| ensures Restored(items[i], env) == Restored(w.items[i], env) {
        assert xs[i] == ys[i];
        KidsDetermine(v, w, i, i, nodes, env);
      }
    case Obj(fs) =>
      var gs, r, s := w.fields, SortOrder(FieldKeys(fs)), SortOrder(FieldKeys(w.fields));
      var xs, ys := SortEntries(RawEntries(fs, env)), SortEntries(RawEntries(gs, env));
      SortedEntryAt(fs, env);
      SortedEntryAt(gs, env);
      forall i | 0 <= i < |r|
        ensures fs[r[i]].key == gs[s[i]].key && Restored(fs[r[i]].value, env) == Restored(gs[s[i]].value, env)
      {
        assert xs[i] == ys[i];
        KidsDetermine(v, w, r[i], s[i], nodes, env);
      }
      assert RestoredFields(fs, r, env) == RestoredFields(gs, s, env);
    case _ =>
  }

  lemma {:induction false} KidsDetermine(v: Value, w: Value, i: nat, j: nat, nodes: set<MerkleNode>, env: Platform)
    requires NoCollision(nodes, env) && NodesOf(v, env) <= nodes && NodesOf(w, env) <= nodes
    requires i < KidCount(v) && j < KidCount(w) && RootHash(Kid(v, i), env) == RootHash(Kid(w, j), env)
    ensures Restored(Kid(v, i), env) == Restored(Kid(w, j), env)
    decreases v, 0
  {
    NodesOfKid(v, i, env);
    NodesOfKid(w, j, env);
    RootDeterminesRestored(Kid(v, i), Kid(w, j), nodes, env);
  }

  /** Two documents that restore alike have the same node. */
  lemma {:induction false} RestoredDeterminesNode(v: Value, w: Value, env: Platform)
    requires Restored(v, env) == Restored(w, env)
    ensures NodeOf(v, env) == NodeOf(w, env)
    decreases v
  {
    match v
    case Num(n) => StoredNumberDecides(n, w.n, env);
    case Arr(items) =>
      var xs, ys := RestoredItems(items, env), RestoredItems(w.items, env);
      forall i | 0 <= i < |items| ensures RootHash(items[i], env) == RootHash(w.items[i], env) {
        assert xs[i] == ys[i];
        RestoredDeterminesNode(items[i], w.items[i], env);
      }
    case Obj(fs) =>
      var gs, r, s := w.fields, SortOrder(FieldKeys(fs)), SortOrder(FieldKeys(w.fields));
      var xs, ys := RestoredFields(fs, r, env), RestoredFields(gs, s, env);
      SortedEntryAt(fs, env);
      SortedEntryAt(gs, env);
      assert |xs| == |ys|;
      forall i | 0 <= i < |r|
        ensures fs[r[i]].key == gs[s[i]].key && RootHash(fs[r[i]].value, env) == RootHash(gs[s[i]].value, env)
      {
        assert xs[i] == ys[i];
        RestoredDeterminesNode(fs[r[i]].value, gs[s[i]].value, env);
      }
      assert SortEntries(RawEntries(fs, env)) == SortEntries(RawEntries(gs, env));
    case _ =>
  }

  lemma StoredNumberDecides(n: Number, m: Number, env: Platform)
    requires StoredNumber(n, env) == StoredNumber(m, env)
    ensures Canonicalize(n, env) == Canonicalize(m, env)
  {
  }

  /** Equal roots mean equal restored documents, and conversely. */
  lemma {:induction false} RootsEqualIffRestoredEqual(v: Value, w: Value, env: Platform)
    requires NoCollision(NodesOf(v, env) + NodesOf(w, env), env)
    ensures RootHash(v, env) == RootHash(w, env) <==> Restored(v, env) == Restored(w, env)
  {
    if RootHash(v, env) == RootHash(w, env) {
      RootDeterminesRestored(v, w, NodesOf(v, env) + NodesOf(w, env), env);
    }
    if Restored(v, env) == Restored(w, env) {
      RestoredDeterminesNode(v, w, env);
    }
  }
}
