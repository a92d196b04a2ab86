/** What a Merkle root identifies: the document up to the order of object keys. */
module MerkleIdentity {
  import opened Json
  import opened Text
  import opened MerkleEncoding
  import opened MerkleTree

  /** No number lies above `i64::MAX`. */
  ghost predicate Storable(v: Value) {
    match v
    case Num(n) => n.PosInt? ==> n.u <= I64_MAX
    case Arr(items) => forall i :: 0 <= i < |items| ==> Storable(items[i])
    case Obj(fs) => forall i :: 0 <= i < |fs| ==> Storable(fs[i].value)
    case _ => true
  }

  lemma DistinctFieldKeys(fs: seq<Field>)
    requires Distinct(fs)
    ensures DistinctStrings(FieldKeys(fs)) && KeySet(FieldKeys(fs)) == Keys(fs)
  {
    forall k ensures k in KeySet(FieldKeys(fs)) <==> k in Keys(fs) {
      if k in Keys(fs) {
        var i :| 0 <= i < |fs| && fs[i].key == k;
        assert FieldKeys(fs)[i] == k;
      }
    }
  }

  lemma {:induction false} RestoredKeys(fs: seq<Field>, env: Platform)
    requires Distinct(fs)
    ensures var r := RestoredFields(fs, SortOrder(FieldKeys(fs)), env);
      Distinct(r) && Keys(r) == Keys(fs)
  {
    var order := SortOrder(FieldKeys(fs));
    var r := RestoredFields(fs, order, env);
    DistinctFieldKeys(fs);
    SortOrderSorts(FieldKeys(fs));
    var sorted := seq(|order|, i requires 0 <= i < |order| => FieldKeys(fs)[order[i]]);
    SortedDistinct(sorted);
    assert forall i :: 0 <= i < |r| ==> r[i].key == sorted[i];
    forall k | k in Keys(fs) ensures k in Keys(r) {
      var j :| 0 <= j < |fs| && fs[j].key == k;
      assert j in order;
      var i :| 0 <= i < |order| && order[i] == j;
      assert r[i].key == k;
    }
  }

  ghost predicate FieldsViewed(fs: seq<Field>, env: Platform) {
    forall i :: 0 <= i < |fs| ==> Canon(Restored(fs[i].value, env), true) == Canon(fs[i].value, true)
  }

  lemma {:induction false} RestoredFieldAt(fs: seq<Field>, j: nat, env: Platform)
    requires Distinct(fs) && j < |fs|
    ensures var m := CanonFields(RestoredFields(fs, SortOrder(FieldKeys(fs)), env), true);
      fs[j].key in m && m[fs[j].key] == Canon(Restored(fs[j].value, env), true)
  {
    var order := SortOrder(FieldKeys(fs));
    var r := RestoredFields(fs, order, env);
    RestoredKeys(fs, env);
    CanonFieldsAt(r, true);
    DistinctFieldKeys(fs);
    SortOrderSorts(FieldKeys(fs));
    assert j in order;
    var i :| 0 <= i < |order| && order[i] == j;
    assert r[i] == Field(fs[j].key, Restored(fs[j].value, env));
  }

  lemma MapsEqualAtFields<T>(fs: seq<Field>, a: map<string, T>, b: map<string, T>)
    requires a.Keys == b.Keys == Keys(fs)
    ensures a == b <==> forall i :: 0 <= i < |fs| ==> fs[i].key in Keys(fs) && a[fs[i].key] == b[fs[i].key]
  {
  }

  lemma {:induction false} RestoredFieldsView(fs: seq<Field>, env: Platform)
    requires Distinct(fs)
    ensures CanonFields(RestoredFields(fs, SortOrder(FieldKeys(fs)), env), true) == CanonFields(fs, true) <==>
      FieldsViewed(fs, env)
  {
    var r := RestoredFields(fs, SortOrder(FieldKeys(fs)), env);
    var a, b := CanonFields(r, true), CanonFields(fs, true);
    RestoredKeys(fs, env);
    CanonFieldsAt(r, true);
    CanonFieldsAt(fs, true);
    MapsEqualAtFields(fs, a, b);
    forall i | 0 <= i < |fs|
      ensures a[fs[i].key] == b[fs[i].key] <==> Canon(Restored(fs[i].value, env), true) == Canon(fs[i].value, true)
    {
      RestoredFieldAt(fs, i, env);
    }
  }

  /** Restoring loses nothing but key order exactly when every number fits an `i64` or is a double. */
  lemma {:induction false} RestoredIsSame(v: Value, env: Platform)
    requires WellFormed(v)
    ensures Canon(Restored(v, env), true) == Canon(v, true) <==> Storable(v)
  {
    match v
    case Arr(items) =>
      var r := RestoredItems(items, env);
      var cr, cv := CanonItems(r, true), CanonItems(items, true);
      forall i | 0 <= i < |items| ensures cr[i] == cv[i] <==> Storable(items[i]) {
        RestoredIsSame(items[i], env);
      }
      assert cr == cv <==> forall i :: 0 <= i < |items| ==> cr[i] == cv[i];
    case Obj(fs) =>
      forall i | 0 <= i < |fs|
        ensures Canon(Restored(fs[i].value, env), true) == Canon(fs[i].value, true) <==> Storable(fs[i].value)
      {
        RestoredIsSame(fs[i].value, env);
      }
      RestoredFieldsView(fs, env);
    case _ =>
  }

  lemma OrderedKey(fs: seq<Field>)
    ensures |SortOrder(FieldKeys(fs))| == |SortedKeys(Keys(fs))|
    ensures forall i :: 0 <= i < |SortOrder(FieldKeys(fs))| ==>
      fs[SortOrder(FieldKeys(fs))[i]].key == SortedKeys(Keys(fs))[i]
  {
    forall k ensures k in (set k | k in FieldKeys(fs)) <==> k in Keys(fs) {
      if k in Keys(fs) {
        var i :| 0 <= i < |fs| && fs[i].key == k;
        assert FieldKeys(fs)[i] == k;
      }
    }
    assert (set k | k in FieldKeys(fs)) == Keys(fs);
  }

  /** Documents equal up to key order restore to one and the same document. */
  lemma {:induction false} SameRestored(v: Value, w: Value, env: Platform)
    requires WellFormed(v) && WellFormed(w) && Canon(v, true) == Canon(w, true)
    ensures Restored(v, env) == Restored(w, env)
    decreases v
  {
    match v
    case Arr(items) =>
      var cv, cw := CanonItems(items, true), CanonItems(w.items, true);
      forall i | 0 <= i < |items| ensures Restored(items[i], env) == Restored(w.items[i], env) {
        assert cv[i] == cw[i];
        SameRestored(items[i], w.items[i], env);
      }
      assert RestoredItems(items, env) == RestoredItems(w.items, env);
    case Obj(fs) => SameRestoredFields(fs, w.fields, env);
    case _ =>
  }

  lemma {:induction false} SameRestoredAt(fs: seq<Field>, gs: seq<Field>, i: nat, j: nat, env: Platform)
    requires WellFormed(Obj(fs)) && WellFormed(Obj(gs)) && CanonFields(fs, true) == CanonFields(gs, true)
    requires i < |fs| && j < |gs| && fs[i].key == gs[j].key
    ensures Restored(fs[i].value, env) == Restored(gs[j].value, env)
    decreases fs, 0
  {
    CanonObjectsEqual(fs, gs, true, i, j);
    SameRestored(fs[i].value, gs[j].value, env);
  }

  /** Objects with the same keys visit them in the same order. */
  lemma {:induction false} SameOrder(fs: seq<Field>, gs: seq<Field>)
    requires Distinct(fs) && Distinct(gs) && CanonFields(fs, true) == CanonFields(gs, true)
    ensures var r, s := SortOrder(FieldKeys(fs)), SortOrder(FieldKeys(gs));
      |r| == |s| && forall i :: 0 <= i < |r| ==> fs[r[i]].key == gs[s[i]].key
  {
    CanonFieldsAt(fs, true);
    CanonFieldsAt(gs, true);
    OrderedKey(fs);
    OrderedKey(gs);
  }

  lemma {:induction false} SameRestoredFields(fs: seq<Field>, gs: seq<Field>, env: Platform)
    requires WellFormed(Obj(fs)) && WellFormed(Obj(gs)) && CanonFields(fs, true) == CanonFields(gs, true)
    ensures RestoredFields(fs, SortOrder(FieldKeys(fs)), env) == RestoredFields(gs, SortOrder(FieldKeys(gs)), env)
    decreases fs, 1
  {
    var r, s := SortOrder(FieldKeys(fs)), SortOrder(FieldKeys(gs));
    SameOrder(fs, gs);
    var a, b := RestoredFields(fs, r, env), RestoredFields(gs, s, env);
    forall i | 0 <= i < |r| ensures a[i] == b[i] { SameRestoredAt(fs, gs, r[i], s[i], env); }
    assert a == b;
  }

  /** A root identifies a document up to key order: for documents whose numbers the store can hold,
      roots are equal exactly when the documents are, unless hashes collide. */
  lemma {:induction false} RootIdentifiesDocument(v: Value, w: Value, env: Platform)
    requires WellFormed(v) && WellFormed(w) && Storable(v) && Storable(w)
    requires NoCollision(NodesOf(v, env) + NodesOf(w, env), env)
    ensures RootHash(v, env) == RootHash(w, env) <==> Canon(v, true) == Canon(w, true)
  {
    RootsEqualIffRestoredEqual(v, w, env);
    RestoredIsSame(v, env);
    RestoredIsSame(w, env);
    if Canon(v, true) == Canon(w, true) { SameRestored(v, w, env); }
  }

  /** serde_json cannot tell the two zeros apart, the store can. */
  lemma {:induction false} ZerosHaveTwoRoots(env: Platform)
    ensures var v, w := Num(Float(0)), Num(Float(NEGATIVE_ZERO));
      SerdeEq(v, w) && (NoCollision(NodesOf(v, env) + NodesOf(w, env), env) ==> RootHash(v, env) != RootHash(w, env))
  {
    var v, w := Num(Float(0)), Num(Float(NEGATIVE_ZERO));
    if NoCollision(NodesOf(v, env) + NodesOf(w, env), env) {
      RootIdentifiesDocument(v, w, env);
    }
  }

  /** An integer above `i64::MAX` shares the root of the double it is rounded to. */
  lemma {:induction false} LargeIntegersShareRoots(u: u64, env: Platform)
    requires u > I64_MAX
    ensures var v, w := Num(PosInt(u)), Num(Float(env.toF64(u)));
      RootHash(v, env) == RootHash(w, env) && !SerdeEq(v, w)
  {
    RestoredDeterminesNode(Num(PosInt(u)), Num(Float(env.toF64(u))), env);
  }
}
