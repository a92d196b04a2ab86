/** The difference list is a complete edit script: applied in order to the expected document,
    its records produce the actual one. */
module EditScript {
  import opened Json
  import opened Text
  import opened Paths
  import opened Differ
  import opened DifferEquality
  import opened EqualityShortcut
  import opened Navigation

  // ---------------------------------------------------------------- applying records

  /** A change to one key of an object, or one position of an array, of the node it is applied to. */
  ghost function PatchChild(t: Tree, r: DiffKind, s: Segment): Tree
    requires r.Added? || r.Removed?
  {
    match s
    case Key(k) =>
      if !t.TObj? then t
      else if r.Added? then TObj(t.m[k := Canon(r.newValue, false)])
      else TObj(t.m - {k})
    case Index(i) =>
      if t.TArr? && r.Added? && i <= |t.items|
      then TArr(t.items[..i] + [Canon(r.newValue, false)] + t.items[i..])
      else t
    case _ => t
  }

  /** A change to the node the record's path ends at. */
  ghost function PatchHere(t: Tree, r: DiffKind): Tree {
    match r
    case Modified(_, _, n) => Canon(n, false)
    case TypeMismatch(_, _, _, _, n) => Canon(n, false)
    case ArrayLengthMismatch(_, _, n) => if t.TArr? && n < |t.items| then TArr(t.items[..n]) else t
    case _ => t
  }

  /** Applying record `r`, whose path is `q`, to the node that `q[..n]` leads to. */
  ghost function Patch(t: Tree, r: DiffKind, q: Path, n: nat): Tree
    decreases |q| - n
  {
    if n >= |q| then PatchHere(t, r)
    else if n + 1 == |q| && (r.Added? || r.Removed?) then PatchChild(t, r, q[n])
    else
      match q[n]
      case Key(k) => if t.TObj? && k in t.m then TObj(t.m[k := Patch(t.m[k], r, q, n + 1)]) else t
      case Index(i) => if t.TArr? && i < |t.items| then TArr(t.items[i := Patch(t.items[i], r, q, n + 1)]) else t
      case _ => t
  }

  ghost function PatchAll(t: Tree, rs: seq<DiffKind>, n: nat): Tree
    decreases |rs|
  {
    if |rs| == 0 then t else PatchAll(Patch(t, rs[0], Segments(rs[0].path), n), rs[1..], n)
  }

  lemma {:induction false} PatchAppend(t: Tree, xs: seq<DiffKind>, ys: seq<DiffKind>, n: nat)
    ensures PatchAll(t, xs + ys, n) == PatchAll(PatchAll(t, xs, n), ys, n)
    decreases |xs|
  {
    if |xs| == 0 {
      assert xs + ys == ys;
    } else {
      assert xs + ys == [xs[0]] + (xs[1..] + ys);
      assert (xs + ys)[1..] == xs[1..] + ys;
      PatchAppend(Patch(t, xs[0], Segments(xs[0].path), n), xs[1..], ys, n);
    }
  }

  // ---------------------------------------------------------------- where records point

  /** The record changes the node at `at` or something below it, not a sibling. */
  ghost predicate Within(r: DiffKind, at: Path) {
    && at <= Segments(r.path)
    && (r.Added? || r.Removed? ==> |at| < |Segments(r.path)|)
  }

  ghost predicate AllWithin(rs: seq<DiffKind>, at: Path) {
    forall i :: 0 <= i < |rs| ==> Within(rs[i], at)
  }

  lemma AllWithinAppend(xs: seq<DiffKind>, ys: seq<DiffKind>, at: Path)
    requires AllWithin(xs, at) && AllWithin(ys, at)
    ensures AllWithin(xs + ys, at)
  {
  }

  lemma WithinChild(rs: seq<DiffKind>, at: Path, s: Segment)
    requires AllWithin(rs, at + [s])
    ensures AllWithin(rs, at)
  {
    forall i | 0 <= i < |rs| ensures Within(rs[i], at) {
      assert Within(rs[i], at + [s]);
      assert at <= at + [s];
    }
  }

  lemma {:induction false} KeyRecordsWithin(m: map<string, Value>, ks: seq<string>, p: Place)
    requires forall k :: k in ks ==> k in m
    ensures AllWithin(RemovedKeys(m, ks, p), Segments(p)) && AllWithin(AddedKeys(m, ks, p), Segments(p))
  {
    if |ks| != 0 {
      KeyRecordsWithin(m, ks[1..], p);
    }
  }

  lemma {:induction false} AddedItemsWithin(xs: seq<Value>, i: nat, p: Place)
    ensures AllWithin(AddedItems(xs, i, p), Segments(p))
    decreases |xs| - i
  {
    if i < |xs| {
      AddedItemsWithin(xs, i + 1, p);
    }
  }

  lemma {:induction false} DiffWithin(e: Value, a: Value, p: Place, o: Options, d: nat)
    requires AllOrdered(o)
    ensures AllWithin(Diff(e, a, p, o, d), Segments(p))
    decreases e, 2, 0
  {
    if d <= o.maxDepth && TypeNameOf(e) == TypeNameOf(a) {
      if e.Obj? {
        DiffFieldsWithin(e, a, p, o, d);
      } else if e.Arr? {
        DiffItemsWithin(e.items, a.items, 0, p, o, d);
        AddedItemsWithin(a.items, |e.items|, p);
        AllWithinAppend(LengthRecord(|e.items|, |a.items|, p), DiffItems(e.items, a.items, 0, p, o, d), Segments(p));
      }
    }
  }

  lemma {:induction false} DiffFieldsWithin(e: Value, a: Value, p: Place, o: Options, d: nat)
    requires AllOrdered(o) && e.Obj? && a.Obj?
    ensures AllWithin(DiffFields(e, a, p, o, d), Segments(p))
    decreases e, 1, 1
  {
    var em, am := Collect(e.fields, o), Collect(a.fields, o);
    KeyRecordsWithin(em, SortedKeys(em.Keys - am.Keys), p);
    KeyRecordsWithin(am, SortedKeys(am.Keys - em.Keys), p);
    DiffCommonWithin(e, a, SortedKeys(em.Keys * am.Keys), p, o, d);
  }

  lemma {:induction false} DiffCommonWithin(e: Value, a: Value, ks: seq<string>, p: Place, o: Options, d: nat)
    requires AllOrdered(o) && e.Obj? && a.Obj?
    requires forall k :: k in ks ==> k in Collect(e.fields, o) && k in Collect(a.fields, o)
    ensures AllWithin(DiffCommon(e, a, ks, p, o, d), Segments(p))
    decreases e, 1, 0, |ks|
  {
    if |ks| != 0 {
      var x, y, q := Collect(e.fields, o)[ks[0]], Collect(a.fields, o)[ks[0]], Under(p, Key(ks[0]));
      DiffWithin(x, y, q, o, d + 1);
      WithinChild(Diff(x, y, q, o, d + 1), Segments(p), Key(ks[0]));
      DiffCommonWithin(e, a, ks[1..], p, o, d);
      AllWithinAppend(Diff(x, y, q, o, d + 1), DiffCommon(e, a, ks[1..], p, o, d), Segments(p));
    }
  }

  lemma {:induction false} DiffItemsWithin(es: seq<Value>, xs: seq<Value>, i: nat, p: Place, o: Options, d: nat)
    requires AllOrdered(o)
    ensures AllWithin(DiffItems(es, xs, i, p, o, d), Segments(p))
    decreases es, 1, 0, |es| - i
  {
    if i < |es| && i < |xs| {
      var q := Under(p, Index(i));
      DiffWithin(es[i], xs[i], q, o, d + 1);
      WithinChild(Diff(es[i], xs[i], q, o, d + 1), Segments(p), Index(i));
      DiffItemsWithin(es, xs, i + 1, p, o, d);
      AllWithinAppend(Diff(es[i], xs[i], q, o, d + 1), DiffItems(es, xs, i + 1, p, o, d), Segments(p));
    }
  }

  // ---------------------------------------------------------------- records of one child act on that child

  lemma {:induction false} PatchUnderKey(m: map<string, Tree>, k: string, rs: seq<DiffKind>, at: Path)
    requires k in m && AllWithin(rs, at + [Key(k)])
    ensures PatchAll(TObj(m), rs, |at|) == TObj(m[k := PatchAll(m[k], rs, |at| + 1)])
    decreases |rs|
  {
    if |rs| == 0 {
      assert m[k := m[k]] == m;
    } else {
      var r, q := rs[0], Segments(rs[0].path);
      assert Within(r, at + [Key(k)]);
      assert q[|at|] == Key(k);
      var t := Patch(m[k], r, q, |at| + 1);
      assert Patch(TObj(m), r, q, |at|) == TObj(m[k := t]);
      PatchUnderKey(m[k := t], k, rs[1..], at);
      assert m[k := t][k := PatchAll(t, rs[1..], |at| + 1)] == m[k := PatchAll(t, rs[1..], |at| + 1)];
    }
  }

  lemma {:induction false} PatchUnderIndex(items: seq<Tree>, i: nat, rs: seq<DiffKind>, at: Path)
    requires i < |items| && AllWithin(rs, at + [Index(i)])
    ensures PatchAll(TArr(items), rs, |at|) == TArr(items[i := PatchAll(items[i], rs, |at| + 1)])
    decreases |rs|
  {
    if |rs| == 0 {
      assert items[i := items[i]] == items;
    } else {
      var r, q := rs[0], Segments(rs[0].path);
      assert Within(r, at + [Index(i)]);
      assert q[|at|] == Index(i);
      var t := Patch(items[i], r, q, |at| + 1);
      assert Patch(TArr(items), r, q, |at|) == TArr(items[i := t]);
      PatchUnderIndex(items[i := t], i, rs[1..], at);
      assert items[i := t][i := PatchAll(t, rs[1..], |at| + 1)] == items[i := PatchAll(t, rs[1..], |at| + 1)];
    }
  }

  // ---------------------------------------------------------------- objects

  ghost function CanonMap(m: map<string, Value>): map<string, Tree> {
    map k | k in m :: Canon(m[k], false)
  }

  /** The values that the keys of a list have in a map. */
  ghost function Slice(m: map<string, Value>, ks: seq<string>): map<string, Tree>
    requires forall k :: k in ks ==> k in m
  {
    map k | k in ks :: Canon(m[k], false)
  }

  ghost predicate KeysNormal(fs: seq<Field>, o: Options) {
    forall i :: 0 <= i < |fs| ==> KeyOf(o, fs[i].key) == fs[i].key
  }

  /** Every key of the document is already in normal form. */
  ghost predicate Normal(v: Value, o: Options) {
    match v
    case Arr(items) => forall i :: 0 <= i < |items| ==> Normal(items[i], o)
    case Obj(fs) => KeysNormal(fs, o) && forall i :: 0 <= i < |fs| ==> Normal(fs[i].value, o)
    case _ => true
  }

  lemma {:induction false} CanonMapUpdate(m: map<string, Value>, k: string, v: Value)
    ensures CanonMap(m[k := v]) == CanonMap(m)[k := Canon(v, false)]
  {
  }

  lemma {:induction false} NormalCollect(fs: seq<Field>, o: Options)
    requires KeysNormal(fs, o)
    ensures CanonMap(Collect(fs, o)) == CanonFields(fs, false)
  {
    if |fs| != 0 {
      var init, last := fs[..|fs| - 1], fs[|fs| - 1];
      NormalCollect(init, o);
      CollectLast(fs, o);
      CanonMapUpdate(Collect(init, o), last.key, last.value);
    }
  }

  lemma CollectLast(fs: seq<Field>, o: Options)
    requires |fs| > 0
    ensures Collect(fs, o) == Collect(fs[..|fs| - 1], o)[KeyOf(o, fs[|fs| - 1].key) := fs[|fs| - 1].value]
  {
    var init, last := fs[..|fs| - 1], fs[|fs| - 1];
    var w := Winners(init, o);
    assert forall k :: k in w ==> fs[w[k]] == init[w[k]];
  }

  lemma {:induction false} PatchRemoved(m: map<string, Tree>, em: map<string, Value>, ks: seq<string>, p: Place)
    requires forall k :: k in ks ==> k in em
    ensures PatchAll(TObj(m), RemovedKeys(em, ks, p), |Segments(p)|) == TObj(m - KeySet(ks))
    decreases |ks|
  {
    if |ks| == 0 {
      assert m - KeySet(ks) == m;
    } else {
      var r := Removed(Under(p, Key(ks[0])), em[ks[0]]);
      assert Patch(TObj(m), r, Segments(r.path), |Segments(p)|) == TObj(m - {ks[0]});
      PatchRemoved(m - {ks[0]}, em, ks[1..], p);
      assert m - {ks[0]} - KeySet(ks[1..]) == m - KeySet(ks);
    }
  }

  lemma {:induction false} PatchAdded(m: map<string, Tree>, am: map<string, Value>, ks: seq<string>, p: Place)
    requires forall k :: k in ks ==> k in am
    ensures PatchAll(TObj(m), AddedKeys(am, ks, p), |Segments(p)|) == TObj(m + Slice(am, ks))
    decreases |ks|
  {
    if |ks| == 0 {
      assert m + Slice(am, ks) == m;
    } else {
      var r := Added(Under(p, Key(ks[0])), am[ks[0]]);
      var m' := m[ks[0] := Canon(am[ks[0]], false)];
      assert Patch(TObj(m), r, Segments(r.path), |Segments(p)|) == TObj(m');
      PatchAdded(m', am, ks[1..], p);
      AddSlice(m, am, ks);
    }
  }

  /** Applying the records of comparing two children turns the first into the second. */
  ghost predicate Repaired(x: Value, y: Value, q: Place, o: Options, d: nat) {
    PatchAll(Canon(x, false), Diff(x, y, q, o, d), |Segments(q)|) == Canon(y, false)
  }

  lemma {:induction false} PatchOneKey(m: map<string, Tree>, x: Value, y: Value, k: string, p: Place, o: Options,
          d: nat)
    requires AllOrdered(o) && k in m && m[k] == Canon(x, false) && Repaired(x, y, Under(p, Key(k)), o, d)
    ensures PatchAll(TObj(m), Diff(x, y, Under(p, Key(k)), o, d), |Segments(p)|) == TObj(m[k := Canon(y, false)])
  {
    DiffWithin(x, y, Under(p, Key(k)), o, d);
    PatchUnderKey(m, k, Diff(x, y, Under(p, Key(k)), o, d), Segments(p));
  }

  lemma AddSlice(m: map<string, Tree>, am: map<string, Value>, ks: seq<string>)
    requires |ks| > 0 && forall k :: k in ks ==> k in am
    ensures m[ks[0] := Canon(am[ks[0]], false)] + Slice(am, ks[1..]) == m + Slice(am, ks)
  {
  }

  ghost predicate CommonReady(m: map<string, Tree>, e: Value, a: Value, k: string, p: Place, o: Options, d: nat)
    requires e.Obj? && a.Obj?
  {
    var em, am := Collect(e.fields, o), Collect(a.fields, o);
    k in em && k in am && k in m && m[k] == Canon(em[k], false) && Repaired(em[k], am[k], Under(p, Key(k)), o, d + 1)
  }

  lemma {:induction false} PatchCommon(m: map<string, Tree>, e: Value, a: Value, ks: seq<string>, p: Place,
          o: Options, d: nat)
    requires AllOrdered(o) && e.Obj? && a.Obj? && (forall i, j :: 0 <= i < j < |ks| ==> ks[i] != ks[j])
    requires forall k :: k in ks ==> k in Collect(e.fields, o) && k in Collect(a.fields, o)
    requires forall k :: k in ks ==> CommonReady(m, e, a, k, p, o, d)
    ensures PatchAll(TObj(m), DiffCommon(e, a, ks, p, o, d), |Segments(p)|) == TObj(m + Slice(Collect(a.fields, o), ks))
    decreases |ks|
  {
    var em, am := Collect(e.fields, o), Collect(a.fields, o);
    if |ks| == 0 {
      assert m + Slice(am, ks) == m;
    } else {
      var k := ks[0];
      assert CommonReady(m, e, a, k, p, o, d);
      PatchAppend(TObj(m), Diff(em[k], am[k], Under(p, Key(k)), o, d + 1), DiffCommon(e, a, ks[1..], p, o, d),
                  |Segments(p)|);
      PatchOneKey(m, em[k], am[k], k, p, o, d + 1);
      var m' := m[k := Canon(am[k], false)];
      forall j | j in ks[1..] ensures CommonReady(m', e, a, j, p, o, d) {
        assert CommonReady(m, e, a, j, p, o, d);
        assert j != k;
      }
      PatchCommon(m', e, a, ks[1..], p, o, d);
      AddSlice(m, am, ks);
    }
  }

  lemma ComposedKeys(em: map<string, Value>, am: map<string, Value>, removed: seq<string>,
          added: seq<string>, common: seq<string>)
    requires forall k :: k in removed <==> k in em.Keys - am.Keys
    requires forall k :: k in added <==> k in am.Keys - em.Keys
    requires forall k :: k in common <==> k in em.Keys * am.Keys
    ensures CanonMap(em) - KeySet(removed) + Slice(am, added) + Slice(am, common) == CanonMap(am)
  {
    var r := CanonMap(em) - KeySet(removed) + Slice(am, added) + Slice(am, common);
    forall k ensures k in r <==> k in am {
      if k in r { assert k in added || k in common || (k in em && k !in removed); }
    }
  }

  lemma {:induction false} PatchThree(t: Tree, a: seq<DiffKind>, b: seq<DiffKind>, c: seq<DiffKind>, n: nat)
    ensures PatchAll(t, a + b + c, n) == PatchAll(PatchAll(PatchAll(t, a, n), b, n), c, n)
  {
    PatchAppend(t, a + b, c, n);
    PatchAppend(t, a, b, n);
  }

  /** The entries of one object once the records about keys of one side only have been applied. */
  ghost function OneSided(em: map<string, Value>, am: map<string, Value>): map<string, Tree> {
    CanonMap(em) - KeySet(SortedKeys(em.Keys - am.Keys)) + Slice(am, SortedKeys(am.Keys - em.Keys))
  }

  lemma CommonKept(em: map<string, Value>, am: map<string, Value>, k: string)
    requires k in em && k in am
    ensures k in OneSided(em, am) && OneSided(em, am)[k] == Canon(em[k], false)
  {
  }

  lemma {:induction false} RepairFields(e: Value, a: Value, p: Place, o: Options, d: nat)
    requires e.Obj? && a.Obj? && Normal(e, o) && Normal(a, o)
    requires AllOrdered(o) && o.epsilon <= 0.0 && FieldsFit(e, o, d)
    ensures PatchAll(Canon(e, false), DiffFields(e, a, p, o, d), |Segments(p)|) == Canon(a, false)
    decreases e, 0, 1
  {
    var em, am := Collect(e.fields, o), Collect(a.fields, o);
    var removed, added := SortedKeys(em.Keys - am.Keys), SortedKeys(am.Keys - em.Keys);
    var common := SortedKeys(em.Keys * am.Keys);
    PatchRemoved(CanonMap(em), em, removed, p);
    PatchAdded(CanonMap(em) - KeySet(removed), am, added, p);
    forall k | k in common ensures CommonReady(OneSided(em, am), e, a, k, p, o, d) {
      RepairField(e, a, k, p, o, d);
    }
    CommonDistinct(em.Keys * am.Keys);
    PatchCommon(OneSided(em, am), e, a, common, p, o, d);
    NormalCollect(e.fields, o);
    NormalCollect(a.fields, o);
    PatchThree(Canon(e, false), RemovedKeys(em, removed, p), AddedKeys(am, added, p),
               DiffCommon(e, a, common, p, o, d), |Segments(p)|);
    ComposedKeys(em, am, removed, added, common);
  }

  lemma {:induction false} CommonDistinct(s: set<string>)
    ensures forall i, j :: 0 <= i < j < |SortedKeys(s)| ==> SortedKeys(s)[i] != SortedKeys(s)[j]
  {
    SortedKeysSorted(s);
    SortedDistinct(SortedKeys(s));
  }

  lemma {:induction false} CollectedNormal(e: Value, k: string, o: Options)
    requires e.Obj? && Normal(e, o) && k in Collect(e.fields, o)
    ensures Collect(e.fields, o)[k] < e && Normal(Collect(e.fields, o)[k], o)
  {
  }

  lemma {:induction false} RepairField(e: Value, a: Value, k: string, p: Place, o: Options, d: nat)
    requires e.Obj? && a.Obj? && Normal(e, o) && Normal(a, o)
    requires AllOrdered(o) && o.epsilon <= 0.0 && FieldsFit(e, o, d)
    requires k in Collect(e.fields, o) && k in Collect(a.fields, o)
    ensures CommonReady(OneSided(Collect(e.fields, o), Collect(a.fields, o)), e, a, k, p, o, d)
    decreases e, 0, 0
  {
    CommonKept(Collect(e.fields, o), Collect(a.fields, o), k);
    CollectedNormal(e, k, o);
    CollectedNormal(a, k, o);
    Repair(Collect(e.fields, o)[k], Collect(a.fields, o)[k], Under(p, Key(k)), o, d + 1);
  }

  // ---------------------------------------------------------------- arrays

  lemma {:induction false} PatchOneIndex(items: seq<Tree>, x: Value, y: Value, i: nat, p: Place, o: Options, d: nat)
    requires AllOrdered(o) && i < |items| && items[i] == Canon(x, false) && Repaired(x, y, Under(p, Index(i)), o, d)
    ensures PatchAll(TArr(items), Diff(x, y, Under(p, Index(i)), o, d), |Segments(p)|)
         == TArr(items[i := Canon(y, false)])
  {
    DiffWithin(x, y, Under(p, Index(i)), o, d);
    PatchUnderIndex(items, i, Diff(x, y, Under(p, Index(i)), o, d), Segments(p));
  }

  lemma {:induction false} PatchItems(items: seq<Tree>, es: seq<Value>, xs: seq<Value>, i: nat, p: Place, o: Options,
          d: nat)
    requires AllOrdered(o) && i <= |items| == Min(|es|, |xs|)
    requires forall j {:trigger items[j]} :: 0 <= j < i ==> items[j] == Canon(xs[j], false)
    requires forall j {:trigger items[j]} :: i <= j < |items| ==> items[j] == Canon(es[j], false)
    requires forall j {:trigger es[j]} :: i <= j < |items| ==> Repaired(es[j], xs[j], Under(p, Index(j)), o, d + 1)
    ensures PatchAll(TArr(items), DiffItems(es, xs, i, p, o, d), |Segments(p)|)
         == TArr(CanonItems(xs[..|items|], false))
    decreases |items| - i
  {
    if i == |items| {
      assert items == CanonItems(xs[..|items|], false);
    } else {
      PatchAppend(TArr(items), Diff(es[i], xs[i], Under(p, Index(i)), o, d + 1), DiffItems(es, xs, i + 1, p, o, d),
                  |Segments(p)|);
      PatchOneIndex(items, es[i], xs[i], i, p, o, d + 1);
      PatchItems(items[i := Canon(xs[i], false)], es, xs, i + 1, p, o, d);
    }
  }

  lemma {:induction false} PatchAppended(xs: seq<Value>, i: nat, p: Place)
    requires i <= |xs|
    ensures PatchAll(TArr(CanonItems(xs[..i], false)), AddedItems(xs, i, p), |Segments(p)|)
         == TArr(CanonItems(xs, false))
    decreases |xs| - i
  {
    if i == |xs| {
      assert xs[..i] == xs;
    } else {
      var r := Added(Under(p, Index(i)), xs[i]);
      var items := CanonItems(xs[..i], false);
      assert items[..i] + [Canon(xs[i], false)] + items[i..] == CanonItems(xs[..i + 1], false);
      assert Patch(TArr(items), r, Segments(r.path), |Segments(p)|) == TArr(CanonItems(xs[..i + 1], false));
      PatchAppended(xs, i + 1, p);
    }
  }

  lemma {:induction false} PatchLength(es: seq<Value>, xs: seq<Value>, p: Place)
    ensures PatchAll(TArr(CanonItems(es, false)), LengthRecord(|es|, |xs|, p), |Segments(p)|)
      == TArr(CanonItems(es[..Min(|es|, |xs|)], false))
  {
    var n := Min(|es|, |xs|);
    var items := CanonItems(es, false);
    assert items[..n] == CanonItems(es[..n], false);
    if |es| <= |xs| { assert es[..n] == es; }
    if |es| != |xs| {
      var r := ArrayLengthMismatch(p, |es|, |xs|);
      assert LengthRecord(|es|, |xs|, p) == [r];
      assert PatchAll(TArr(items), [r], |Segments(p)|) == Patch(TArr(items), r, Segments(p), |Segments(p)|);
    }
  }

  lemma {:induction false} RepairItems(es: seq<Value>, xs: seq<Value>, p: Place, o: Options, d: nat)
    requires Normal(Arr(es), o) && Normal(Arr(xs), o) && AllOrdered(o) && o.epsilon <= 0.0
    requires forall i :: 0 <= i < |es| ==> Fits(es[i], o, d + 1)
    ensures PatchAll(TArr(CanonItems(es, false)),
                     LengthRecord(|es|, |xs|, p) + DiffItems(es, xs, 0, p, o, d) + AddedItems(xs, |es|, p),
                     |Segments(p)|) == TArr(CanonItems(xs, false))
    decreases es, 0
  {
    forall j | 0 <= j < Min(|es|, |xs|) ensures Repaired(es[j], xs[j], Under(p, Index(j)), o, d + 1) {
      Repair(es[j], xs[j], Under(p, Index(j)), o, d + 1);
    }
    PatchArray(es, xs, p, o, d);
  }

  /** Once its common items are known to be repaired, so is the array. */
  lemma {:induction false} PatchArray(es: seq<Value>, xs: seq<Value>, p: Place, o: Options, d: nat)
    requires AllOrdered(o)
    requires forall j :: 0 <= j < Min(|es|, |xs|) ==> Repaired(es[j], xs[j], Under(p, Index(j)), o, d + 1)
    ensures PatchAll(TArr(CanonItems(es, false)),
                     LengthRecord(|es|, |xs|, p) + DiffItems(es, xs, 0, p, o, d) + AddedItems(xs, |es|, p),
                     |Segments(p)|) == TArr(CanonItems(xs, false))
  {
    var t, n := TArr(CanonItems(es, false)), |Segments(p)|;
    var l, c, x := LengthRecord(|es|, |xs|, p), DiffItems(es, xs, 0, p, o, d), AddedItems(xs, |es|, p);
    var k := Min(|es|, |xs|);
    PatchThree(t, l, c, x, n);
    PatchLength(es, xs, p);
    PatchItems(CanonItems(es[..k], false), es, xs, 0, p, o, d);
    if |es| <= |xs| {
      PatchAppended(xs, |es|, p);
    } else {
      assert x == [] && xs[..k] == xs;
    }
  }

  /** Applied in order, the records of comparing `e` with `a` turn `e` into `a`. */
  lemma {:induction false} Repair(e: Value, a: Value, p: Place, o: Options, d: nat)
    requires Normal(e, o) && Normal(a, o) && AllOrdered(o) && o.epsilon <= 0.0 && Fits(e, o, d)
    ensures Repaired(e, a, p, o, d)
    decreases e, 1
  {
    if TypeNameOf(e) == TypeNameOf(a) && e.Obj? {
      RepairFields(e, a, p, o, d);
    } else if TypeNameOf(e) == TypeNameOf(a) && e.Arr? {
      RepairItems(e.items, a.items, p, o, d);
    } else {
      RepairScalar(e, a, p, o, d);
    }
  }

  lemma RepairScalar(e: Value, a: Value, p: Place, o: Options, d: nat)
    requires d <= o.maxDepth && o.epsilon <= 0.0 && (!IsContainer(e) || TypeNameOf(e) != TypeNameOf(a))
    ensures Repaired(e, a, p, o, d)
  {
    var rs := Diff(e, a, p, o, d);
    if rs != [] {
      assert |rs| == 1 && Segments(rs[0].path) == Segments(p);
      assert PatchAll(Canon(e, false), rs, |Segments(p)|) == Patch(Canon(e, false), rs[0], Segments(p), |Segments(p)|);
    }
  }

  // ---------------------------------------------------------------- records located by their printed path

  ghost predicate AllClean(rs: seq<DiffKind>) {
    forall i :: 0 <= i < |rs| ==> Clean(Segments(rs[i].path), false)
  }

  lemma AllCleanAppend(xs: seq<DiffKind>, ys: seq<DiffKind>)
    requires AllClean(xs) && AllClean(ys)
    ensures AllClean(xs + ys)
  {
  }

  ghost predicate MapClean(m: map<string, Value>, o: Options) {
    forall k :: k in m ==> CleanKey(k) && CleanDocument(m[k]) && Normal(m[k], o)
  }

  lemma {:induction false} CollectClean(v: Value, o: Options)
    requires v.Obj? && CleanDocument(v) && Normal(v, o)
    ensures MapClean(Collect(v.fields, o), o)
  {
    WinnerKeys(v.fields, o);
  }

  lemma {:induction false} KeyRecordsClean(m: map<string, Value>, ks: seq<string>, p: Place, o: Options)
    requires MapClean(m, o) && Clean(Segments(p), false) && forall k :: k in ks ==> k in m
    ensures AllClean(RemovedKeys(m, ks, p)) && AllClean(AddedKeys(m, ks, p))
  {
    if |ks| != 0 {
      KeyRecordsClean(m, ks[1..], p, o);
      assert ks[0] in m;
    }
  }

  lemma {:induction false} AddedItemsClean(xs: seq<Value>, i: nat, p: Place)
    requires Clean(Segments(p), false) && |xs| <= USIZE_LIMIT
    ensures AllClean(AddedItems(xs, i, p))
    decreases |xs| - i
  {
    if i < |xs| {
      AddedItemsClean(xs, i + 1, p);
    }
  }

  lemma {:induction false} DiffClean(e: Value, a: Value, p: Place, o: Options, d: nat)
    requires AllOrdered(o) && CleanDocument(e) && CleanDocument(a)
    requires Normal(e, o) && Normal(a, o) && Clean(Segments(p), false)
    ensures AllClean(Diff(e, a, p, o, d))
    decreases e, 2, 0
  {
    if d <= o.maxDepth && TypeNameOf(e) == TypeNameOf(a) {
      if e.Obj? {
        DiffFieldsClean(e, a, p, o, d);
      } else if e.Arr? {
        DiffItemsClean(e.items, a.items, 0, p, o, d);
        AddedItemsClean(a.items, |e.items|, p);
        AllCleanAppend(LengthRecord(|e.items|, |a.items|, p), DiffItems(e.items, a.items, 0, p, o, d));
      }
    }
  }

  lemma {:induction false} DiffFieldsClean(e: Value, a: Value, p: Place, o: Options, d: nat)
    requires AllOrdered(o) && e.Obj? && a.Obj?
    requires CleanDocument(e) && CleanDocument(a) && Normal(e, o) && Normal(a, o) && Clean(Segments(p), false)
    ensures AllClean(DiffFields(e, a, p, o, d))
    decreases e, 1, 1
  {
    var em, am := Collect(e.fields, o), Collect(a.fields, o);
    CollectClean(e, o);
    CollectClean(a, o);
    KeyRecordsClean(em, SortedKeys(em.Keys - am.Keys), p, o);
    KeyRecordsClean(am, SortedKeys(am.Keys - em.Keys), p, o);
    DiffCommonClean(e, a, SortedKeys(em.Keys * am.Keys), p, o, d);
  }

  lemma {:induction false} DiffCommonClean(e: Value, a: Value, ks: seq<string>, p: Place, o: Options, d: nat)
    requires AllOrdered(o) && e.Obj? && a.Obj? && Clean(Segments(p), false)
    requires MapClean(Collect(e.fields, o), o) && MapClean(Collect(a.fields, o), o)
    requires forall k :: k in ks ==> k in Collect(e.fields, o) && k in Collect(a.fields, o)
    ensures AllClean(DiffCommon(e, a, ks, p, o, d))
    decreases e, 1, 0, |ks|
  {
    if |ks| != 0 {
      var x, y, q := Collect(e.fields, o)[ks[0]], Collect(a.fields, o)[ks[0]], Under(p, Key(ks[0]));
      assert ks[0] in ks;
      DiffClean(x, y, q, o, d + 1);
      DiffCommonClean(e, a, ks[1..], p, o, d);
      AllCleanAppend(Diff(x, y, q, o, d + 1), DiffCommon(e, a, ks[1..], p, o, d));
    }
  }

  lemma {:induction false} DiffItemsClean(es: seq<Value>, xs: seq<Value>, i: nat, p: Place, o: Options, d: nat)
    requires AllOrdered(o) && Clean(Segments(p), false)
    requires CleanDocument(Arr(es)) && CleanDocument(Arr(xs)) && Normal(Arr(es), o) && Normal(Arr(xs), o)
    ensures AllClean(DiffItems(es, xs, i, p, o, d))
    decreases es, 1, 0, |es| - i
  {
    if i < |es| && i < |xs| {
      var q := Under(p, Index(i));
      DiffClean(es[i], xs[i], q, o, d + 1);
      DiffItemsClean(es, xs, i + 1, p, o, d);
      AllCleanAppend(Diff(es[i], xs[i], q, o, d + 1), DiffItems(es, xs, i + 1, p, o, d));
    }
  }

  /** Applying records whose targets are read back from the printed `json_path`. */
  ghost function PatchByText(t: Tree, rs: seq<DiffKind>): Tree
    decreases |rs|
  {
    if |rs| == 0 then t else PatchByText(Patch(t, rs[0], ParseFuzzPath(rs[0].JsonPath()), 0), rs[1..])
  }

  lemma {:induction false} TextLocates(t: Tree, rs: seq<DiffKind>)
    requires AllClean(rs)
    ensures PatchByText(t, rs) == PatchAll(t, rs, 0)
    decreases |rs|
  {
    if |rs| != 0 {
      PrintedIsRendered(rs[0].path);
      PrintParse(Segments(rs[0].path));
      TextLocates(Patch(t, rs[0], Segments(rs[0].path), 0), rs[1..]);
    }
  }

  // ---------------------------------------------------------------- main results

  /** With ordered arrays, no tolerance, normal keys and no node of `e` below the depth limit, the
      answer of the differ turns `e` into `a`, up to what serde_json's `==` cannot see. */
  lemma {:induction false} EditScriptComplete(e: Value, a: Value, o: Options)
    requires WellFormed(e) && WellFormed(a) && Normal(e, o) && Normal(a, o)
    requires AllOrdered(o) && o.epsilon <= 0.0 && Fits(e, o, 0)
    ensures PatchAll(Canon(e, false), CompareJson(e, a, o), 0) == Canon(a, false)
  {
    Repair(e, a, Top, o, 0);
    if SerdeEq(e, a) { SerdeEqIsCanonical(e, a); }
  }

  /** The same when every record is located by its printed path, for keys the path syntax can express. */
  lemma {:induction false} EditScriptByPath(e: Value, a: Value, o: Options)
    requires WellFormed(e) && WellFormed(a) && Normal(e, o) && Normal(a, o) && CleanDocument(e) && CleanDocument(a)
    requires AllOrdered(o) && o.epsilon <= 0.0 && Fits(e, o, 0)
    ensures PatchByText(Canon(e, false), CompareJson(e, a, o)) == Canon(a, false)
  {
    EditScriptComplete(e, a, o);
    DiffClean(e, a, Top, o, 0);
    TextLocates(Canon(e, false), CompareJson(e, a, o));
  }
}
