/** What the records say about the two documents, without a word on how they are found: every record
    is true of the documents, and every difference the walk can reach has its record. */
module RecordTruth {
  import opened Json
  import opened Text
  import opened Paths
  import opened Navigation
  import opened Differ
  import opened EqualityShortcut
  import opened EditScript
  import opened GreedyMatching

  // ---------------------------------------------------------------- true records

  /** The name is that of the value's kind. */
  ghost predicate NamesKind(t: TypeName, v: Value) {
    match v
    case Null => t.NullType?
    case Bool(_) => t.BooleanType?
    case Num(_) => t.NumberType?
    case Str(_) => t.StringType?
    case Arr(_) => t.ArrayType?
    case Obj(_) => t.ObjectType?
  }

  /** Scalars of one kind that are not taken for equal: numbers by their distance when a tolerance is set, and
      everything else by value. */
  ghost predicate ScalarsDiffer(x: Value, y: Value, o: Options) {
    || (x.Bool? && y.Bool? && x.b != y.b)
    || (x.Str? && y.Str? && x.s != y.s)
    || (x.Num? && y.Num? && if o.epsilon > 0.0 then o.gap(x.n, y.n) > o.epsilon else !NumberEq(x.n, y.n))
  }

  ghost predicate SameKind(x: Value, y: Value) {
    && x.Null? == y.Null? && x.Bool? == y.Bool? && x.Num? == y.Num?
    && x.Str? == y.Str? && x.Arr? == y.Arr? && x.Obj? == y.Obj?
  }

  ghost predicate At(v: Value, q: Path, x: Value) {
    Get(v, q) == Some(x)
  }

  /** Only one document has something at this position, under a parent of one kind in both; a set-mode array names
      no position, but its item. */
  ghost predicate OnlyIn(has: Value, lacks: Value, q: Path, x: Value) {
    && |q| > 0
    && var up := q[..|q| - 1];
    && Get(has, up).Some? && Get(lacks, up).Some?
    && if q[|q| - 1].Wildcard? then
         Get(has, up).value.Arr? && Get(lacks, up).value.Arr? && x in Get(has, up).value.items
       else
         At(has, q, x) && Get(lacks, q).None? && SameKind(Get(has, up).value, Get(lacks, up).value)
  }

  ghost predicate Truthful(r: DiffKind, e: Value, a: Value, o: Options) {
    var q := Segments(r.path);
    match r
    case Modified(_, x, y) => At(e, q, x) && At(a, q, y) && ScalarsDiffer(x, y, o)
    case TypeMismatch(_, s, t, x, y) => At(e, q, x) && At(a, q, y) && NamesKind(s, x) && NamesKind(t, y) && s != t
    case Removed(_, x) => OnlyIn(e, a, q, x)
    case Added(_, y) => OnlyIn(a, e, q, y)
    case ArrayLengthMismatch(_, n, m) =>
      && Get(e, q).Some? && Get(e, q).value.Arr? && |Get(e, q).value.items| == n
      && Get(a, q).Some? && Get(a, q).value.Arr? && |Get(a, q).value.items| == m && n != m
    case DepthExceeded(_, n) => Get(e, q).Some? && Get(a, q).Some? && n == o.maxDepth && |q| == n + 1
  }

  ghost predicate AllTruthful(rs: seq<DiffKind>, e: Value, a: Value, o: Options) {
    forall r :: r in rs ==> Truthful(r, e, a, o)
  }

  lemma TruthfulAppend(xs: seq<DiffKind>, ys: seq<DiffKind>, e: Value, a: Value, o: Options)
    requires AllTruthful(xs, e, a, o) && AllTruthful(ys, e, a, o)
    ensures AllTruthful(xs + ys, e, a, o)
  {
  }

  /** Two nodes of the documents, at one place, to be compared at this depth. */
  ghost predicate Facing(e: Value, a: Value, x: Value, y: Value, p: Place, o: Options, d: nat) {
    && At(e, Segments(p), x) && At(a, Segments(p), y) && d == |Segments(p)| <= o.maxDepth + 1
    && WellFormed(x) && WellFormed(y) && Normal(x, o) && Normal(y, o)
  }

  /** Looking up a normal key is looking up the child. */
  lemma {:induction false} CollectIsChild(x: Value, k: string, o: Options)
    requires x.Obj? && WellFormed(x) && Normal(x, o)
    ensures Child(x, Key(k)) == if k in Collect(x.fields, o) then Some(Collect(x.fields, o)[k]) else None
    ensures k in Collect(x.fields, o) ==> var c := Collect(x.fields, o)[k]; c < x && WellFormed(c) && Normal(c, o)
  {
    WinnersOfApart(x.fields, o);
    WinnerKeys(x.fields, o);
    if k in Collect(x.fields, o) {
      FindDistinct(x.fields, Winners(x.fields, o)[k]);
    }
  }

  lemma FacingKey(e: Value, a: Value, x: Value, y: Value, k: string, p: Place, o: Options, d: nat)
    requires Facing(e, a, x, y, p, o, d) && d <= o.maxDepth && x.Obj? && y.Obj?
    requires k in Collect(x.fields, o) && k in Collect(y.fields, o)
    ensures Collect(x.fields, o)[k] < x
    ensures Facing(e, a, Collect(x.fields, o)[k], Collect(y.fields, o)[k], Under(p, Key(k)), o, d + 1)
  {
    CollectIsChild(x, k, o);
    CollectIsChild(y, k, o);
    GetUnder(e, p, x, Key(k));
    GetUnder(a, p, y, Key(k));
  }

  lemma FacingItem(e: Value, a: Value, x: Value, y: Value, i: nat, p: Place, o: Options, d: nat)
    requires Facing(e, a, x, y, p, o, d) && d <= o.maxDepth && x.Arr? && y.Arr? && i < |x.items| && i < |y.items|
    ensures Facing(e, a, x.items[i], y.items[i], Under(p, Index(i)), o, d + 1)
  {
    GetUnder(e, p, x, Index(i));
    GetUnder(a, p, y, Index(i));
  }

  // ---------------------------------------------------------------- keys and items of one side

  /** A child that one of two facing containers has, and the other has not. */
  lemma {:induction false} OneSided(has: Value, lacks: Value, x: Value, y: Value, p: Place, s: Segment)
    requires At(has, Segments(p), x) && At(lacks, Segments(p), y) && SameKind(x, y)
    requires Child(x, s).Some? && Child(y, s).None?
    ensures OnlyIn(has, lacks, Segments(Under(p, s)), Child(x, s).value)
  {
    var q := Segments(Under(p, s));
    assert q[..|q| - 1] == Segments(p) && q[|q| - 1] == s;
    GetUnder(has, p, x, s);
    GetUnder(lacks, p, y, s);
  }

  lemma {:induction false} OneSidedKey(has: Value, lacks: Value, x: Value, y: Value, k: string, p: Place, o: Options)
    requires At(has, Segments(p), x) && At(lacks, Segments(p), y) && x.Obj? && y.Obj?
    requires WellFormed(x) && WellFormed(y) && Normal(x, o) && Normal(y, o)
    requires k in Collect(x.fields, o) && k !in Collect(y.fields, o)
    ensures OnlyIn(has, lacks, Segments(Under(p, Key(k))), Collect(x.fields, o)[k])
  {
    CollectIsChild(x, k, o);
    CollectIsChild(y, k, o);
    OneSided(has, lacks, x, y, p, Key(k));
  }

  lemma {:induction false} RemovedTruthful(e: Value, a: Value, x: Value, y: Value, ks: seq<string>, p: Place,
          o: Options, d: nat)
    requires Facing(e, a, x, y, p, o, d) && x.Obj? && y.Obj?
    requires forall k :: k in ks ==> k in Collect(x.fields, o) && k !in Collect(y.fields, o)
    ensures AllTruthful(RemovedKeys(Collect(x.fields, o), ks, p), e, a, o)
    decreases |ks|
  {
    if |ks| != 0 {
      OneSidedKey(e, a, x, y, ks[0], p, o);
      RemovedTruthful(e, a, x, y, ks[1..], p, o, d);
    }
  }

  lemma {:induction false} AddedTruthful(e: Value, a: Value, x: Value, y: Value, ks: seq<string>, p: Place,
          o: Options, d: nat)
    requires Facing(e, a, x, y, p, o, d) && x.Obj? && y.Obj?
    requires forall k :: k in ks ==> k in Collect(y.fields, o) && k !in Collect(x.fields, o)
    ensures AllTruthful(AddedKeys(Collect(y.fields, o), ks, p), e, a, o)
    decreases |ks|
  {
    if |ks| != 0 {
      OneSidedKey(a, e, y, x, ks[0], p, o);
      AddedTruthful(e, a, x, y, ks[1..], p, o, d);
    }
  }

  lemma AddedItemAt(xs: seq<Value>, i: nat, p: Place, r: DiffKind) returns (j: nat)
    requires r in AddedItems(xs, i, p)
    ensures i <= j < |xs| && r == Added(Under(p, Index(j)), xs[j])
    decreases |xs| - i
  {
    var first, rest := Added(Under(p, Index(i)), xs[i]), AddedItems(xs, i + 1, p);
    assert AddedItems(xs, i, p) == [first] + rest;
    if r == first { j := i; } else { j := AddedItemAt(xs, i + 1, p, r); }
  }

  lemma {:induction false} AddedItemsTruthful(e: Value, a: Value, x: Value, y: Value, p: Place, o: Options)
    requires At(e, Segments(p), x) && At(a, Segments(p), y) && x.Arr? && y.Arr?
    ensures AllTruthful(AddedItems(y.items, |x.items|, p), e, a, o)
  {
    forall r | r in AddedItems(y.items, |x.items|, p) ensures Truthful(r, e, a, o) {
      var j := AddedItemAt(y.items, |x.items|, p, r);
      OneSided(a, e, y, x, p, Index(j));
    }
  }

  lemma {:induction false} SetTruthful(e: Value, a: Value, x: Value, y: Value, p: Place, o: Options, d: nat)
    requires Facing(e, a, x, y, p, o, d) && x.Arr? && y.Arr?
    ensures AllTruthful(DiffUnordered(x.items, y.items, seq(|y.items|, _ => false), p, o, d), e, a, o)
  {
    var rs := DiffUnordered(x.items, y.items, seq(|y.items|, _ => false), p, o, d);
    SetRecords(x.items, y.items, seq(|y.items|, _ => false), p, o, d);
    forall r | r in rs ensures Truthful(r, e, a, o) {
      assert FromSet(r, x.items, y.items, p);
      var q := Segments(Under(p, Wildcard));
      assert q[..|q| - 1] == Segments(p);
    }
  }

  // ---------------------------------------------------------------- the walk

  lemma {:induction false} DiffTruthful(e: Value, a: Value, x: Value, y: Value, p: Place, o: Options, d: nat)
    requires Facing(e, a, x, y, p, o, d)
    ensures AllTruthful(Diff(x, y, p, o, d), e, a, o)
    decreases x, 2, 0
  {
    if d > o.maxDepth || TypeNameOf(x) != TypeNameOf(y) {
    } else if x.Obj? {
      FieldsTruthful(e, a, x, y, p, o, d);
    } else if x.Arr? && ModeAt(o, p) == Ordered {
      var l, c := LengthRecord(|x.items|, |y.items|, p), DiffItems(x.items, y.items, 0, p, o, d);
      ItemsTruthful(e, a, x, y, 0, p, o, d);
      AddedItemsTruthful(e, a, x, y, p, o);
      TruthfulAppend(l, c, e, a, o);
      TruthfulAppend(l + c, AddedItems(y.items, |x.items|, p), e, a, o);
    } else if x.Arr? {
      SetTruthful(e, a, x, y, p, o, d);
    }
  }

  lemma {:induction false} FieldsTruthful(e: Value, a: Value, x: Value, y: Value, p: Place, o: Options, d: nat)
    requires Facing(e, a, x, y, p, o, d) && d <= o.maxDepth && x.Obj? && y.Obj?
    ensures AllTruthful(DiffFields(x, y, p, o, d), e, a, o)
    decreases x, 1, 1
  {
    var xm, ym := Collect(x.fields, o), Collect(y.fields, o);
    var removed, added := SortedKeys(xm.Keys - ym.Keys), SortedKeys(ym.Keys - xm.Keys);
    var common := SortedKeys(xm.Keys * ym.Keys);
    RemovedTruthful(e, a, x, y, removed, p, o, d);
    AddedTruthful(e, a, x, y, added, p, o, d);
    CommonTruthful(e, a, x, y, common, p, o, d);
    TruthfulAppend(RemovedKeys(xm, removed, p), AddedKeys(ym, added, p), e, a, o);
    TruthfulAppend(RemovedKeys(xm, removed, p) + AddedKeys(ym, added, p), DiffCommon(x, y, common, p, o, d), e, a, o);
  }

  lemma {:induction false} CommonTruthful(e: Value, a: Value, x: Value, y: Value, ks: seq<string>, p: Place,
          o: Options, d: nat)
    requires Facing(e, a, x, y, p, o, d) && d <= o.maxDepth && x.Obj? && y.Obj?
    requires forall k :: k in ks ==> k in Collect(x.fields, o) && k in Collect(y.fields, o)
    ensures AllTruthful(DiffCommon(x, y, ks, p, o, d), e, a, o)
    decreases x, 1, 0, |ks|
  {
    if |ks| != 0 {
      var c, b, q := Collect(x.fields, o)[ks[0]], Collect(y.fields, o)[ks[0]], Under(p, Key(ks[0]));
      FacingKey(e, a, x, y, ks[0], p, o, d);
      DiffTruthful(e, a, c, b, q, o, d + 1);
      CommonTruthful(e, a, x, y, ks[1..], p, o, d);
      TruthfulAppend(Diff(c, b, q, o, d + 1), DiffCommon(x, y, ks[1..], p, o, d), e, a, o);
    }
  }

  lemma {:induction false} ItemsTruthful(e: Value, a: Value, x: Value, y: Value, i: nat, p: Place, o: Options, d: nat)
    requires Facing(e, a, x, y, p, o, d) && d <= o.maxDepth && x.Arr? && y.Arr?
    ensures AllTruthful(DiffItems(x.items, y.items, i, p, o, d), e, a, o)
    decreases x, 1, 0, |x.items| - i
  {
    if i < |x.items| && i < |y.items| {
      var q := Under(p, Index(i));
      FacingItem(e, a, x, y, i, p, o, d);
      DiffTruthful(e, a, x.items[i], y.items[i], q, o, d + 1);
      ItemsTruthful(e, a, x, y, i + 1, p, o, d);
      TruthfulAppend(Diff(x.items[i], y.items[i], q, o, d + 1), DiffItems(x.items, y.items, i + 1, p, o, d), e, a, o);
    }
  }

  /** Every record of a comparison is true of the two documents, at every tolerance and in every array mode. */
  lemma {:induction false} RecordsAreTrue(e: Value, a: Value, o: Options)
    requires WellFormed(e) && WellFormed(a) && Normal(e, o) && Normal(a, o)
    ensures AllTruthful(CompareJson(e, a, o), e, a, o)
  {
    DiffTruthful(e, a, e, a, Top, o, 0);
  }

  // ---------------------------------------------------------------- no difference goes unrecorded

  ghost predicate OrderedAt(q: Path, o: Options) {
    Render(q) in o.arrayModes ==> o.arrayModes[Render(q)] == Ordered
  }

  /** Both documents have a container of one kind here, and an array is not compared as a set. */
  ghost predicate Walked(e: Value, a: Value, up: Path, o: Options) {
    var x, y := Get(e, up), Get(a, up);
    x.Some? && y.Some? &&
    ((x.value.Obj? && y.value.Obj?) || (x.value.Arr? && y.value.Arr? && OrderedAt(up, o)))
  }

  /** The walk comes to this position: all above it is walked, and it is at most one level below the limit. */
  ghost predicate Reachable(e: Value, a: Value, q: Path, o: Options) {
    |q| <= o.maxDepth + 1 && forall m :: 0 <= m < |q| ==> Walked(e, a, q[..m], o)
  }

  datatype Sort = Modification | Mismatch | Removal | Addition | Length | Depth

  ghost predicate IsA(r: DiffKind, s: Sort) {
    match s
    case Modification => r.Modified?
    case Mismatch => r.TypeMismatch?
    case Removal => r.Removed?
    case Addition => r.Added?
    case Length => r.ArrayLengthMismatch?
    case Depth => r.DepthExceeded?
  }

  /** Some record of this sort points here. */
  ghost predicate Marked(rs: seq<DiffKind>, q: Path, s: Sort) {
    exists r :: r in rs && Segments(r.path) == q && IsA(r, s)
  }

  /** What two values at one position require to be recorded there. */
  ghost predicate PairRecorded(rs: seq<DiffKind>, x: Value, y: Value, q: Path, o: Options) {
    if |q| > o.maxDepth then Marked(rs, q, Depth)
    else
      && (!SameKind(x, y) ==> Marked(rs, q, Mismatch))
      && (ScalarsDiffer(x, y, o) ==> Marked(rs, q, Modification))
      && (x.Arr? && y.Arr? && OrderedAt(q, o) && |x.items| != |y.items| ==> Marked(rs, q, Length))
  }

  /** Whatever differs at a position is recorded there. An expected item beyond the end of the actual array has no
      record of its own: the record of the two lengths stands for it. */
  ghost predicate Recorded(rs: seq<DiffKind>, e: Value, a: Value, q: Path, o: Options) {
    var x, y := Get(e, q), Get(a, q);
    && (x.Some? && y.Some? ==> PairRecorded(rs, x.value, y.value, q, o))
    && (x.Some? && y.None? && |q| > 0 && q[|q| - 1].Key? ==> Marked(rs, q, Removal))
    && (x.None? && y.Some? ==> Marked(rs, q, Addition))
  }

  ghost predicate Includes(large: seq<DiffKind>, small: seq<DiffKind>) {
    forall r :: r in small ==> r in large
  }

  lemma MarkedMore(small: seq<DiffKind>, large: seq<DiffKind>, q: Path, s: Sort)
    requires Marked(small, q, s) && Includes(large, small)
    ensures Marked(large, q, s)
  {
    var r :| r in small && Segments(r.path) == q && IsA(r, s);
    assert r in large;
  }

  lemma RecordedMore(small: seq<DiffKind>, large: seq<DiffKind>, e: Value, a: Value, q: Path, o: Options)
    requires Recorded(small, e, a, q, o) && Includes(large, small)
    ensures Recorded(large, e, a, q, o)
  {
    forall s | Marked(small, q, s) ensures Marked(large, q, s) { MarkedMore(small, large, q, s); }
  }

  lemma {:induction false} RemovedHas(m: map<string, Value>, ks: seq<string>, k: string, p: Place)
    requires (forall l :: l in ks ==> l in m) && k in ks
    ensures Removed(Under(p, Key(k)), m[k]) in RemovedKeys(m, ks, p)
  {
    if ks[0] != k { RemovedHas(m, ks[1..], k, p); }
  }

  lemma {:induction false} AddedHas(m: map<string, Value>, ks: seq<string>, k: string, p: Place)
    requires (forall l :: l in ks ==> l in m) && k in ks
    ensures Added(Under(p, Key(k)), m[k]) in AddedKeys(m, ks, p)
  {
    if ks[0] != k { AddedHas(m, ks[1..], k, p); }
  }

  lemma {:induction false} AddedItemsHave(xs: seq<Value>, i: nat, j: nat, p: Place)
    requires i <= j < |xs|
    ensures Added(Under(p, Index(j)), xs[j]) in AddedItems(xs, i, p)
    decreases |xs| - i
  {
    var rest := AddedItems(xs, i + 1, p);
    if i < j { AddedItemsHave(xs, i + 1, j, p); }
    assert AddedItems(xs, i, p) == [Added(Under(p, Index(i)), xs[i])] + rest;
  }

  lemma {:induction false} CommonHas(x: Value, y: Value, ks: seq<string>, k: string, p: Place, o: Options, d: nat)
    requires x.Obj? && y.Obj? && k in ks
    requires forall l :: l in ks ==> l in Collect(x.fields, o) && l in Collect(y.fields, o)
    ensures Includes(DiffCommon(x, y, ks, p, o, d),
                     Diff(Collect(x.fields, o)[k], Collect(y.fields, o)[k], Under(p, Key(k)), o, d + 1))
    decreases |ks|
  {
    if ks[0] != k { CommonHas(x, y, ks[1..], k, p, o, d); }
  }

  lemma {:induction false} ItemsHave(es: seq<Value>, xs: seq<Value>, i: nat, j: nat, p: Place, o: Options, d: nat)
    requires i <= j < |es| && j < |xs|
    ensures Includes(DiffItems(es, xs, i, p, o, d), Diff(es[j], xs[j], Under(p, Index(j)), o, d + 1))
    decreases |es| - i
  {
    if i < j { ItemsHave(es, xs, i + 1, j, p, o, d); }
  }

  lemma MarkedBy(rs: seq<DiffKind>, r: DiffKind, q: Path, s: Sort)
    requires r in rs && Segments(r.path) == q && IsA(r, s)
    ensures Marked(rs, q, s)
  {
  }

  lemma {:induction false} HereLimited(x: Value, y: Value, p: Place, o: Options, d: nat)
    requires d > o.maxDepth || !SameKind(x, y)
    ensures Marked(Diff(x, y, p, o, d), Segments(p), if d > o.maxDepth then Depth else Mismatch)
  {
    if d > o.maxDepth {
      MarkedBy(Diff(x, y, p, o, d), DepthExceeded(p, o.maxDepth), Segments(p), Depth);
    } else {
      MarkedBy(Diff(x, y, p, o, d), TypeMismatch(p, TypeNameOf(x), TypeNameOf(y), x, y), Segments(p), Mismatch);
    }
  }

  lemma {:induction false} HereModified(x: Value, y: Value, p: Place, o: Options, d: nat)
    requires d <= o.maxDepth && ScalarsDiffer(x, y, o)
    ensures Marked(Diff(x, y, p, o, d), Segments(p), Modification)
  {
    assert Diff(x, y, p, o, d) == [Modified(p, x, y)];
    MarkedBy([Modified(p, x, y)], Modified(p, x, y), Segments(p), Modification);
  }

  lemma {:induction false} HereLength(x: Value, y: Value, p: Place, o: Options, d: nat)
    requires d <= o.maxDepth && x.Arr? && y.Arr? && ModeAt(o, p) == Ordered && |x.items| != |y.items|
    ensures Marked(Diff(x, y, p, o, d), Segments(p), Length)
  {
    var r, rest := ArrayLengthMismatch(p, |x.items|, |y.items|), DiffItems(x.items, y.items, 0, p, o, d);
    assert Diff(x, y, p, o, d) == [r] + rest + AddedItems(y.items, |x.items|, p);
    MarkedBy([r] + rest + AddedItems(y.items, |x.items|, p), r, Segments(p), Length);
  }

  /** The position is where the walk stands. */
  lemma {:induction false} HereRecorded(x: Value, y: Value, p: Place, o: Options)
    ensures PairRecorded(Diff(x, y, p, o, |Segments(p)|), x, y, Segments(p), o)
  {
    var d := |Segments(p)|;
    PrintedIsRendered(p);
    if d > o.maxDepth || !SameKind(x, y) { HereLimited(x, y, p, o, d); }
    if d <= o.maxDepth && ScalarsDiffer(x, y, o) { HereModified(x, y, p, o, d); }
    if d <= o.maxDepth && x.Arr? && y.Arr? && OrderedAt(Segments(p), o) && |x.items| != |y.items| {
      HereLength(x, y, p, o, d);
    }
  }

  /** The next segment towards a position below. */
  ghost predicate Next(p: Place, q: Path) {
    |Segments(p)| < |q| && Segments(p) == q[..|Segments(p)|]
  }

  ghost function Step(p: Place, q: Path): Place
    requires Next(p, q)
  {
    Under(p, q[|Segments(p)|])
  }

  lemma {:induction false} DiffRecords(e: Value, a: Value, x: Value, y: Value, p: Place, o: Options, d: nat, q: Path)
    requires Facing(e, a, x, y, p, o, d) && Reachable(e, a, q, o)
    requires |Segments(p)| <= |q| && Segments(p) == q[..|Segments(p)|]
    ensures Recorded(Diff(x, y, p, o, d), e, a, q, o)
    decreases |q| - |Segments(p)|, 1
  {
    if |q| == |Segments(p)| {
      assert q[..|q|] == q;
      HereRecorded(x, y, p, o);
    } else {
      assert Walked(e, a, q[..|Segments(p)|], o);
      if x.Obj? {
        KeyRecords(e, a, x, y, p, o, d, q);
      } else {
        PrintedIsRendered(p);
        ItemRecords(e, a, x, y, p, o, d, q);
      }
    }
  }

  lemma {:induction false} DeeperGoesOn(e: Value, a: Value, p: Place, o: Options, q: Path)
    requires Next(p, q) && Reachable(e, a, q, o) && |Segments(p)| + 1 < |q|
    ensures Get(e, Segments(Step(p, q))).Some? && Get(a, Segments(Step(p, q))).Some?
  {
    var n := |Segments(p)|;
    assert Segments(Step(p, q)) == q[..n + 1];
    assert Walked(e, a, q[..n + 1], o);
  }

  /** Where only one document goes on, the position is the end of the path. */
  lemma {:induction false} EndsHere(e: Value, a: Value, p: Place, o: Options, q: Path)
    requires Next(p, q) && Reachable(e, a, q, o)
    requires Get(e, Segments(Step(p, q))).None? || Get(a, Segments(Step(p, q))).None?
    ensures q == Segments(Step(p, q))
  {
    if |Segments(p)| + 1 < |q| {
      DeeperGoesOn(e, a, p, o, q);
    } else {
      assert Segments(Step(p, q)) == q[..|q|] == q;
    }
  }

  lemma CommonNext(e: Value, a: Value, x: Value, y: Value, k: string, p: Place, o: Options, d: nat, q: Path)
    requires Facing(e, a, x, y, p, o, d) && d <= o.maxDepth && x.Obj? && y.Obj? && Next(p, q)
    requires q[|Segments(p)|] == Key(k) && k in Collect(x.fields, o) && k in Collect(y.fields, o)
    ensures var c, b, n := Collect(x.fields, o)[k], Collect(y.fields, o)[k], |Segments(Step(p, q))|;
      && Facing(e, a, c, b, Step(p, q), o, d + 1) && n == |Segments(p)| + 1 && Segments(Step(p, q)) == q[..n]
      && Includes(Diff(x, y, p, o, d), Diff(c, b, Step(p, q), o, d + 1))
  {
    FacingKey(e, a, x, y, k, p, o, d);
    CommonIncluded(x, y, k, p, o, d);
    assert Segments(Step(p, q)) == q[..|Segments(p)| + 1];
  }

  lemma {:induction false} KeyRecords(e: Value, a: Value, x: Value, y: Value, p: Place, o: Options, d: nat, q: Path)
    requires Facing(e, a, x, y, p, o, d) && Reachable(e, a, q, o) && Next(p, q) && x.Obj? && y.Obj?
    ensures Recorded(Diff(x, y, p, o, d), e, a, q, o)
    decreases |q| - |Segments(p)|, 0
  {
    var s := q[|Segments(p)|];
    if s.Key? && s.k in Collect(x.fields, o) && s.k in Collect(y.fields, o) {
      var c, b := Collect(x.fields, o)[s.k], Collect(y.fields, o)[s.k];
      CommonNext(e, a, x, y, s.k, p, o, d, q);
      DiffRecords(e, a, c, b, Step(p, q), o, d + 1, q);
      RecordedMore(Diff(c, b, Step(p, q), o, d + 1), Diff(x, y, p, o, d), e, a, q, o);
    } else if s.Key? {
      LoneKey(e, a, x, y, s.k, p, o, d, q);
    } else {
      GetUnder(e, p, x, s);
      GetUnder(a, p, y, s);
      EndsHere(e, a, p, o, q);
    }
  }

  lemma CommonIncluded(x: Value, y: Value, k: string, p: Place, o: Options, d: nat)
    requires x.Obj? && y.Obj? && d <= o.maxDepth && k in Collect(x.fields, o) && k in Collect(y.fields, o)
    ensures Includes(Diff(x, y, p, o, d),
                     Diff(Collect(x.fields, o)[k], Collect(y.fields, o)[k], Under(p, Key(k)), o, d + 1))
  {
    var xm, ym := Collect(x.fields, o), Collect(y.fields, o);
    CommonHas(x, y, SortedKeys(xm.Keys * ym.Keys), k, p, o, d);
    assert Diff(x, y, p, o, d) == DiffFields(x, y, p, o, d);
  }

  lemma {:induction false} LoneRecord(x: Value, y: Value, k: string, p: Place, o: Options, d: nat)
    requires x.Obj? && y.Obj? && d <= o.maxDepth
    ensures var xm, ym, rs, q := Collect(x.fields, o), Collect(y.fields, o), Diff(x, y, p, o, d), Under(p, Key(k));
      && (k in xm && k !in ym ==> Removed(q, xm[k]) in rs)
      && (k in ym && k !in xm ==> Added(q, ym[k]) in rs)
  {
    var xm, ym := Collect(x.fields, o), Collect(y.fields, o);
    assert Diff(x, y, p, o, d) == DiffFields(x, y, p, o, d);
    if k in xm && k !in ym { RemovedHas(xm, SortedKeys(xm.Keys - ym.Keys), k, p); }
    if k in ym && k !in xm { AddedHas(ym, SortedKeys(ym.Keys - xm.Keys), k, p); }
  }

  /** A key that only one object has is recorded; one that neither has needs no record. */
  lemma {:induction false} LoneKey(e: Value, a: Value, x: Value, y: Value, k: string, p: Place, o: Options, d: nat,
          q: Path)
    requires Facing(e, a, x, y, p, o, d) && Reachable(e, a, q, o) && Next(p, q) && x.Obj? && y.Obj?
    requires q[|Segments(p)|] == Key(k) && (k !in Collect(x.fields, o) || k !in Collect(y.fields, o))
    ensures Recorded(Diff(x, y, p, o, d), e, a, q, o)
  {
    var xm, ym, rs := Collect(x.fields, o), Collect(y.fields, o), Diff(x, y, p, o, d);
    ChildAt(e, x, p, k, o);
    ChildAt(a, y, p, k, o);
    EndsHere(e, a, p, o, q);
    LoneRecord(x, y, k, p, o, d);
    if k in xm {
      MarkedBy(rs, Removed(Under(p, Key(k)), xm[k]), q, Removal);
    } else if k in ym {
      MarkedBy(rs, Added(Under(p, Key(k)), ym[k]), q, Addition);
    }
  }

  lemma {:induction false} ChildAt(root: Value, x: Value, p: Place, k: string, o: Options)
    requires At(root, Segments(p), x) && x.Obj? && WellFormed(x) && Normal(x, o)
    ensures Get(root, Segments(Under(p, Key(k)))).Some? <==> k in Collect(x.fields, o)
  {
    CollectIsChild(x, k, o);
    GetUnder(root, p, x, Key(k));
  }

  lemma {:induction false} ItemRecords(e: Value, a: Value, x: Value, y: Value, p: Place, o: Options, d: nat, q: Path)
    requires Facing(e, a, x, y, p, o, d) && Reachable(e, a, q, o) && Next(p, q)
    requires x.Arr? && y.Arr? && ModeAt(o, p) == Ordered
    ensures Recorded(Diff(x, y, p, o, d), e, a, q, o)
    decreases |q| - |Segments(p)|, 0
  {
    var s := q[|Segments(p)|];
    if s.Index? && s.i < |x.items| && s.i < |y.items| {
      FacingItem(e, a, x, y, s.i, p, o, d);
      assert Segments(Step(p, q)) == q[..|Segments(p)| + 1];
      DiffRecords(e, a, x.items[s.i], y.items[s.i], Step(p, q), o, d + 1, q);
      ItemIncluded(x, y, s.i, p, o, d);
      RecordedMore(Diff(x.items[s.i], y.items[s.i], Step(p, q), o, d + 1), Diff(x, y, p, o, d), e, a, q, o);
    } else {
      LoneItem(e, a, x, y, p, o, d, q);
    }
  }

  lemma ItemIncluded(x: Value, y: Value, i: nat, p: Place, o: Options, d: nat)
    requires x.Arr? && y.Arr? && d <= o.maxDepth && ModeAt(o, p) == Ordered && i < |x.items| && i < |y.items|
    ensures Includes(Diff(x, y, p, o, d), Diff(x.items[i], y.items[i], Under(p, Index(i)), o, d + 1))
  {
    ItemsHave(x.items, y.items, 0, i, p, o, d);
    assert Diff(x, y, p, o, d)
        == LengthRecord(|x.items|, |y.items|, p) + DiffItems(x.items, y.items, 0, p, o, d)
         + AddedItems(y.items, |x.items|, p);
  }

  lemma {:induction false} LoneItemAdded(x: Value, y: Value, i: nat, p: Place, o: Options, d: nat)
    requires x.Arr? && y.Arr? && d <= o.maxDepth && ModeAt(o, p) == Ordered && |x.items| <= i < |y.items|
    ensures Added(Under(p, Index(i)), y.items[i]) in Diff(x, y, p, o, d)
  {
    AddedItemsHave(y.items, |x.items|, i, p);
    assert Diff(x, y, p, o, d)
        == LengthRecord(|x.items|, |y.items|, p) + DiffItems(x.items, y.items, 0, p, o, d)
         + AddedItems(y.items, |x.items|, p);
  }

  lemma {:induction false} LoneItem(e: Value, a: Value, x: Value, y: Value, p: Place, o: Options, d: nat, q: Path)
    requires Facing(e, a, x, y, p, o, d) && Reachable(e, a, q, o) && Next(p, q)
    requires x.Arr? && y.Arr? && ModeAt(o, p) == Ordered
    requires var s := q[|Segments(p)|]; s.Index? ==> s.i >= |x.items| || s.i >= |y.items|
    ensures Recorded(Diff(x, y, p, o, d), e, a, q, o)
  {
    var s := q[|Segments(p)|];
    GetUnder(e, p, x, s);
    GetUnder(a, p, y, s);
    EndsHere(e, a, p, o, q);
    if s.Index? && s.i < |y.items| {
      LoneItemAdded(x, y, s.i, p, o, d);
      MarkedBy(Diff(x, y, p, o, d), Added(Under(p, s), y.items[s.i]), q, Addition);
    }
  }

  /** Every position the walk reaches has the records its values require, unless the shortcut was taken. */
  lemma {:induction false} RecordsAreComplete(e: Value, a: Value, o: Options, q: Path)
    requires WellFormed(e) && WellFormed(a) && Normal(e, o) && Normal(a, o) && Reachable(e, a, q, o)
    requires o.bypass ==> !SerdeEq(e, a)
    ensures Recorded(CompareJson(e, a, o), e, a, q, o)
  {
    DiffRecords(e, a, e, a, Top, o, 0, q);
  }
}
