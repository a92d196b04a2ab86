/** Counting the records of a comparison, and what the counts say about the two documents. */
module DeltaCounts {
  import opened Json
  import opened Text
  import opened Paths
  import opened Navigation
  import opened Differ
  import opened EqualityShortcut
  import opened EditScript
  import opened RecordTruth

  /** How many records are of this sort. */
  ghost function Count(rs: seq<DiffKind>, s: Sort): nat {
    if |rs| == 0 then 0 else Count(rs[..|rs| - 1], s) + if IsA(rs[|rs| - 1], s) then 1 else 0
  }

  ghost function Places(rs: seq<DiffKind>, s: Sort): set<nat> {
    set i: nat | i < |rs| && IsA(rs[i], s)
  }

  lemma {:induction false} CountIsSize(rs: seq<DiffKind>, s: Sort)
    ensures Count(rs, s) == |Places(rs, s)|
  {
    if |rs| != 0 {
      var init, n := rs[..|rs| - 1], |rs| - 1;
      CountIsSize(init, s);
      assert Places(rs, s) == Places(init, s) + if IsA(rs[n], s) then {n} else {};
    }
  }

  lemma {:induction false} CountAppend(xs: seq<DiffKind>, ys: seq<DiffKind>, s: Sort)
    ensures Count(xs + ys, s) == Count(xs, s) + Count(ys, s)
  {
    if |ys| == 0 {
      assert xs + ys == xs;
    } else {
      var init := ys[..|ys| - 1];
      CountAppend(xs, init, s);
      assert (xs + ys)[..|xs + ys| - 1] == xs + init;
    }
  }

  lemma {:induction false} CountOne(r: DiffKind, s: Sort)
    ensures Count([r], s) == if IsA(r, s) then 1 else 0
  {
    assert [r][..0] == [];
  }

  lemma {:induction false} CountRemovals(m: map<string, Value>, ks: seq<string>, p: Place, s: Sort)
    requires forall k :: k in ks ==> k in m
    ensures Count(RemovedKeys(m, ks, p), s) == if s == Removal then |ks| else 0
    decreases |ks|
  {
    if |ks| != 0 {
      var r := Removed(Under(p, Key(ks[0])), m[ks[0]]);
      CountRemovals(m, ks[1..], p, s);
      CountAppend([r], RemovedKeys(m, ks[1..], p), s);
      CountOne(r, s);
    }
  }

  lemma {:induction false} CountAdditions(m: map<string, Value>, ks: seq<string>, p: Place, s: Sort)
    requires forall k :: k in ks ==> k in m
    ensures Count(AddedKeys(m, ks, p), s) == if s == Addition then |ks| else 0
    decreases |ks|
  {
    if |ks| != 0 {
      var r := Added(Under(p, Key(ks[0])), m[ks[0]]);
      CountAdditions(m, ks[1..], p, s);
      CountAppend([r], AddedKeys(m, ks[1..], p), s);
      CountOne(r, s);
    }
  }

  // ---------------------------------------------------------------- objects compared one level deep

  /** No value can be gone into: the two are not containers of one kind. */
  ghost predicate Shallow(x: Value, y: Value) {
    IsContainer(x) ==> !SameKind(x, y)
  }

  ghost predicate ShallowObjects(e: Value, a: Value)
    requires e.Obj? && a.Obj?
  {
    forall i, j :: 0 <= i < |e.fields| && 0 <= j < |a.fields| && e.fields[i].key == a.fields[j].key ==>
      Shallow(e.fields[i].value, a.fields[j].value)
  }

  lemma {:induction false} CountPair(x: Value, y: Value, p: Place, o: Options, d: nat, s: Sort)
    requires Shallow(x, y) && d <= o.maxDepth && s != Modification
    ensures Count(Diff(x, y, p, o, d), s) == if s == Mismatch && !SameKind(x, y) then 1 else 0
  {
    var rs := Diff(x, y, p, o, d);
    if !SameKind(x, y) {
      CountOne(TypeMismatch(p, TypeNameOf(x), TypeNameOf(y), x, y), s);
    } else if rs != [] {
      assert rs == [Modified(p, x, y)];
      CountOne(Modified(p, x, y), s);
    }
  }

  /** The keys of the list under which the two objects hold values of different kinds. */
  ghost function Changed(em: map<string, Value>, am: map<string, Value>, ks: set<string>): set<string> {
    set k | k in ks && k in em && k in am && !SameKind(em[k], am[k])
  }

  lemma {:induction false} CountCommon(e: Value, a: Value, ks: seq<string>, p: Place, o: Options, d: nat, s: Sort)
    requires e.Obj? && a.Obj? && d < o.maxDepth && s != Modification
    requires forall k :: k in ks ==> k in Collect(e.fields, o) && k in Collect(a.fields, o)
    requires forall k :: k in ks ==> Shallow(Collect(e.fields, o)[k], Collect(a.fields, o)[k])
    requires forall i, j :: 0 <= i < j < |ks| ==> ks[i] != ks[j]
    ensures Count(DiffCommon(e, a, ks, p, o, d), s)
         == if s == Mismatch then |Changed(Collect(e.fields, o), Collect(a.fields, o), KeySet(ks))| else 0
    decreases |ks|
  {
    var em, am := Collect(e.fields, o), Collect(a.fields, o);
    if |ks| == 0 {
      assert Changed(em, am, KeySet(ks)) == {};
    } else {
      var k := ks[0];
      CountCommon(e, a, ks[1..], p, o, d, s);
      CountAppend(Diff(em[k], am[k], Under(p, Key(k)), o, d + 1), DiffCommon(e, a, ks[1..], p, o, d), s);
      CountPair(em[k], am[k], Under(p, Key(k)), o, d + 1, s);
      ChangedGrows(em, am, ks);
    }
  }

  lemma ChangedGrows(em: map<string, Value>, am: map<string, Value>, ks: seq<string>)
    requires |ks| > 0 && ks[0] in em && ks[0] in am && forall i, j :: 0 <= i < j < |ks| ==> ks[i] != ks[j]
    ensures |Changed(em, am, KeySet(ks))|
         == |Changed(em, am, KeySet(ks[1..]))| + if SameKind(em[ks[0]], am[ks[0]]) then 0 else 1
  {
    var k, rest := ks[0], ks[1..];
    assert KeySet(ks) == {k} + KeySet(rest);
    assert k !in KeySet(rest);
    assert Changed(em, am, KeySet(ks))
        == Changed(em, am, KeySet(rest)) + if SameKind(em[k], am[k]) then {} else {k};
  }

  lemma {:induction false} CountThree(a: seq<DiffKind>, b: seq<DiffKind>, c: seq<DiffKind>, s: Sort)
    ensures Count(a + b + c, s) == Count(a, s) + Count(b, s) + Count(c, s)
  {
    CountAppend(a, b, s);
    CountAppend(a + b, c, s);
  }

  /** What the counts of three sorts come to, for an object compared one level deep. */
  lemma {:induction false} CountFields(e: Value, a: Value, p: Place, o: Options, d: nat, s: Sort)
    requires e.Obj? && a.Obj? && d < o.maxDepth && s != Modification
    requires forall k :: k in Collect(e.fields, o) && k in Collect(a.fields, o) ==>
      Shallow(Collect(e.fields, o)[k], Collect(a.fields, o)[k])
    ensures var em, am, n := Collect(e.fields, o), Collect(a.fields, o), Count(DiffFields(e, a, p, o, d), s);
      && (s == Removal ==> n == |em.Keys - am.Keys|)
      && (s == Addition ==> n == |am.Keys - em.Keys|)
      && (s == Mismatch ==> n == |Changed(em, am, em.Keys * am.Keys)|)
  {
    var em, am := Collect(e.fields, o), Collect(a.fields, o);
    var removed, added := SortedKeys(em.Keys - am.Keys), SortedKeys(am.Keys - em.Keys);
    CountOneSided(em, am, p, s);
    CountAllCommon(e, a, p, o, d, s);
    CountThree(RemovedKeys(em, removed, p), AddedKeys(am, added, p),
               DiffCommon(e, a, SortedKeys(em.Keys * am.Keys), p, o, d), s);
  }

  lemma {:induction false} CountOneSided(em: map<string, Value>, am: map<string, Value>, p: Place, s: Sort)
    ensures Count(RemovedKeys(em, SortedKeys(em.Keys - am.Keys), p), s)
         == if s == Removal then |em.Keys - am.Keys| else 0
    ensures Count(AddedKeys(am, SortedKeys(am.Keys - em.Keys), p), s)
         == if s == Addition then |am.Keys - em.Keys| else 0
  {
    SortedKeysSorted(em.Keys - am.Keys);
    SortedKeysSorted(am.Keys - em.Keys);
    CountRemovals(em, SortedKeys(em.Keys - am.Keys), p, s);
    CountAdditions(am, SortedKeys(am.Keys - em.Keys), p, s);
  }

  lemma {:induction false} CountAllCommon(e: Value, a: Value, p: Place, o: Options, d: nat, s: Sort)
    requires e.Obj? && a.Obj? && d < o.maxDepth && s != Modification
    requires forall k :: k in Collect(e.fields, o) && k in Collect(a.fields, o) ==>
      Shallow(Collect(e.fields, o)[k], Collect(a.fields, o)[k])
    ensures var em, am := Collect(e.fields, o), Collect(a.fields, o);
      Count(DiffCommon(e, a, SortedKeys(em.Keys * am.Keys), p, o, d), s)
      == if s == Mismatch then |Changed(em, am, em.Keys * am.Keys)| else 0
  {
    var both := Collect(e.fields, o).Keys * Collect(a.fields, o).Keys;
    CommonDistinct(both);
    CountCommon(e, a, SortedKeys(both), p, o, d, s);
    assert KeySet(SortedKeys(both)) == both;
  }

  lemma {:induction false} CollectsKeys(v: Value, o: Options)
    requires v.Obj? && WellFormed(v) && Normal(v, o)
    ensures Collect(v.fields, o).Keys == Keys(v.fields)
    ensures forall i :: 0 <= i < |v.fields| ==>
      v.fields[i].key in Collect(v.fields, o) && Collect(v.fields, o)[v.fields[i].key] == v.fields[i].value
  {
    WinnersOfApart(v.fields, o);
    WinnerKeys(v.fields, o);
  }

  /** The keys that both objects have, with values of different kinds. */
  ghost function Retyped(e: Value, a: Value): set<string>
    requires e.Obj? && a.Obj?
  {
    set k | k in Keys(e.fields) && Child(e, Key(k)).Some? && Child(a, Key(k)).Some? &&
      !SameKind(Child(e, Key(k)).value, Child(a, Key(k)).value)
  }

  lemma {:induction false} ChangedIsRetyped(e: Value, a: Value, o: Options)
    requires e.Obj? && a.Obj? && WellFormed(e) && WellFormed(a) && Normal(e, o) && Normal(a, o)
    ensures var em, am := Collect(e.fields, o), Collect(a.fields, o);
      Changed(em, am, em.Keys * am.Keys) == Retyped(e, a)
  {
    var em, am := Collect(e.fields, o), Collect(a.fields, o);
    CollectsKeys(e, o);
    forall k ensures k in Changed(em, am, em.Keys * am.Keys) <==> k in Retyped(e, a) {
      CollectIsChild(e, k, o);
      CollectIsChild(a, k, o);
    }
  }

  lemma {:induction false} CollectedShallow(e: Value, a: Value, o: Options)
    requires e.Obj? && a.Obj? && WellFormed(e) && WellFormed(a) && Normal(e, o) && Normal(a, o) && ShallowObjects(e, a)
    ensures forall k :: k in Collect(e.fields, o) && k in Collect(a.fields, o) ==>
      Shallow(Collect(e.fields, o)[k], Collect(a.fields, o)[k])
  {
    CollectsKeys(e, o);
    CollectsKeys(a, o);
    forall k | k in Collect(e.fields, o) && k in Collect(a.fields, o)
      ensures Shallow(Collect(e.fields, o)[k], Collect(a.fields, o)[k])
    {
      var i :| 0 <= i < |e.fields| && e.fields[i].key == k;
      var j :| 0 <= j < |a.fields| && a.fields[j].key == k;
      assert Shallow(e.fields[i].value, a.fields[j].value);
    }
  }

  lemma {:induction false} EqualKinds(x: Value, y: Value)
    requires SerdeEq(x, y)
    ensures SameKind(x, y)
  {
  }

  /** Documents that the shortcut takes for equal have one set of keys, with values of the same kinds. */
  lemma {:induction false} EqualRetyped(e: Value, a: Value)
    requires e.Obj? && a.Obj? && WellFormed(e) && WellFormed(a) && SerdeEq(e, a)
    ensures Keys(e.fields) == Keys(a.fields) && Retyped(e, a) == {}
  {
    var fs, gs := e.fields, a.fields;
    EqualObjectsSameKeys(fs, gs);
    forall k | Child(e, Key(k)).Some? && Child(a, Key(k)).Some?
      ensures SameKind(Child(e, Key(k)).value, Child(a, Key(k)).value)
    {
      var i := Find(fs, k).value;
      assert EntryFound(fs[i], gs);
      EqualKinds(fs[i].value, gs[Find(gs, k).value].value);
    }
  }

  /** Comparing two objects whose common values cannot be gone into: as many additions as keys only the actual one
      has, as many removals as keys only the expected one has, and a type change for every key retyped. */
  lemma {:induction false} ObjectCounts(e: Value, a: Value, o: Options)
    requires e.Obj? && a.Obj? && WellFormed(e) && WellFormed(a) && Normal(e, o) && Normal(a, o)
    requires ShallowObjects(e, a) && o.maxDepth > 0
    ensures var rs := CompareJson(e, a, o);
      && Count(rs, Addition) == |Keys(a.fields) - Keys(e.fields)|
      && Count(rs, Removal) == |Keys(e.fields) - Keys(a.fields)|
      && Count(rs, Mismatch) == |Retyped(e, a)|
  {
    if o.bypass && SerdeEq(e, a) {
      EqualRetyped(e, a);
    } else {
      CollectedShallow(e, a, o);
      CollectsKeys(e, o);
      CollectsKeys(a, o);
      ChangedIsRetyped(e, a, o);
      CountFields(e, a, Top, o, 0, Addition);
      CountFields(e, a, Top, o, 0, Removal);
      CountFields(e, a, Top, o, 0, Mismatch);
    }
  }
}
