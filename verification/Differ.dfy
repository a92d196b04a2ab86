/** The semantic differ: a recursive comparison of two documents that appends one record
    per difference. `Diff` is its meaning; the methods below it are the program. */
module Differ {
  import opened Json
  import opened Text
  import opened Paths

  datatype ArrayMode = Ordered | Unordered

  /** Comparison options, and the two pieces of foreign code a comparison depends on:
      Unicode NFC, and the distance of two numbers as doubles, `(x - y).abs()`. */
  datatype Options = Options(
    epsilon: real,
    normalizeKeys: bool,
    maxDepth: nat,
    bypass: bool,
    arrayModes: map<string, ArrayMode>,
    nfc: string -> string,
    gap: (Number, Number) -> real)

  /** `DiffOptions::default()`. */
  function DefaultOptions(nfc: string -> string, gap: (Number, Number) -> real): Options {
    Options(0.0, true, 512, true, map[], nfc, gap)
  }

  datatype TypeName = NullType | BooleanType | NumberType | StringType | ArrayType | ObjectType

  function TypeNameOf(v: Value): TypeName {
    match v
    case Null => NullType
    case Bool(_) => BooleanType
    case Num(_) => NumberType
    case Str(_) => StringType
    case Arr(_) => ArrayType
    case Obj(_) => ObjectType
  }

  datatype DiffKind =
    | Added(path: Place, newValue: Value)
    | Removed(path: Place, oldValue: Value)
    | Modified(path: Place, oldValue: Value, newValue: Value)
    | TypeMismatch(path: Place, expectedType: TypeName, actualType: TypeName, oldValue: Value, newValue: Value)
    | ArrayLengthMismatch(path: Place, expectedLen: nat, actualLen: nat)
    | DepthExceeded(path: Place, maxDepth: nat)
  {
    function JsonPath(): string {
      Printed(path)
    }
  }

  function KeyOf(o: Options, k: string): string {
    if o.normalizeKeys then o.nfc(k) else k
  }

  /** Which entry ends up under each normalised key: of entries whose keys collide, the last. */
  function Winners(fs: seq<Field>, o: Options): (w: map<string, nat>)
    ensures forall k :: k in w ==> w[k] < |fs|
  {
    if |fs| == 0 then map[]
    else Winners(fs[..|fs| - 1], o)[KeyOf(o, fs[|fs| - 1].key) := |fs| - 1]
  }

  /** Collecting an object's entries into a map under their normalised keys. */
  function Collect(fs: seq<Field>, o: Options): map<string, Value> {
    map k | k in Winners(fs, o) :: fs[Winners(fs, o)[k]].value
  }

  function ModeAt(o: Options, p: Place): ArrayMode {
    if Printed(p) in o.arrayModes then o.arrayModes[Printed(p)] else Ordered
  }

  /** No path is configured to be compared as a set. */
  ghost predicate AllOrdered(o: Options) {
    forall s :: s in o.arrayModes ==> o.arrayModes[s] == Ordered
  }

  predicate NumberMatch(e: Number, a: Number, o: Options) {
    if o.epsilon > 0.0 then o.gap(e, a) <= o.epsilon else NumberEq(e, a)
  }

  // ---------------------------------------------------------------- meaning

  /** The records of comparing `e` (expected) with `a` (actual) at path `p` and depth `d`. */
  function Diff(e: Value, a: Value, p: Place, o: Options, d: nat): seq<DiffKind>
    decreases e, 2, 0, 0
  {
    if d > o.maxDepth then [DepthExceeded(p, o.maxDepth)]
    else if TypeNameOf(e) != TypeNameOf(a) then [TypeMismatch(p, TypeNameOf(e), TypeNameOf(a), e, a)]
    else match e
      case Null => []
      case Bool(b) => if b != a.b then [Modified(p, e, a)] else []
      case Num(n) => if NumberMatch(n, a.n, o) then [] else [Modified(p, e, a)]
      case Str(s) => if s != a.s then [Modified(p, e, a)] else []
      case Arr(es) =>
        if ModeAt(o, p) == Ordered then
          LengthRecord(|es|, |a.items|, p) + DiffItems(es, a.items, 0, p, o, d) + AddedItems(a.items, |es|, p)
        else
          DiffUnordered(es, a.items, seq(|a.items|, _ => false), p, o, d)
      case Obj(_) => DiffFields(e, a, p, o, d)
  }

  function DiffFields(e: Value, a: Value, p: Place, o: Options, d: nat): seq<DiffKind>
    requires e.Obj? && a.Obj?
    decreases e, 1, 1, 0
  {
    var em, am := Collect(e.fields, o), Collect(a.fields, o);
    RemovedKeys(em, SortedKeys(em.Keys - am.Keys), p)
    + AddedKeys(am, SortedKeys(am.Keys - em.Keys), p)
    + DiffCommon(e, a, SortedKeys(em.Keys * am.Keys), p, o, d)
  }

  function LengthRecord(n: nat, m: nat, p: Place): seq<DiffKind> {
    if n != m then [ArrayLengthMismatch(p, n, m)] else []
  }

  function RemovedKeys(em: map<string, Value>, ks: seq<string>, p: Place): seq<DiffKind>
    requires forall k :: k in ks ==> k in em
  {
    if |ks| == 0 then [] else [Removed(Under(p, Key(ks[0])), em[ks[0]])] + RemovedKeys(em, ks[1..], p)
  }

  function AddedKeys(am: map<string, Value>, ks: seq<string>, p: Place): seq<DiffKind>
    requires forall k :: k in ks ==> k in am
  {
    if |ks| == 0 then [] else [Added(Under(p, Key(ks[0])), am[ks[0]])] + AddedKeys(am, ks[1..], p)
  }

  function DiffCommon(e: Value, a: Value, ks: seq<string>, p: Place, o: Options, d: nat): seq<DiffKind>
    requires e.Obj? && a.Obj?
    requires forall k :: k in ks ==> k in Collect(e.fields, o) && k in Collect(a.fields, o)
    decreases e, 1, 0, |ks|
  {
    if |ks| == 0 then [] else
      var em, am, k := Collect(e.fields, o), Collect(a.fields, o), ks[0];
      Diff(em[k], am[k], Under(p, Key(k)), o, d + 1) + DiffCommon(e, a, ks[1..], p, o, d)
  }

  function DiffItems(es: seq<Value>, xs: seq<Value>, i: nat, p: Place, o: Options, d: nat): seq<DiffKind>
    decreases es, 1, 0, |es| - i
  {
    if i >= |es| || i >= |xs| then []
    else Diff(es[i], xs[i], Under(p, Index(i)), o, d + 1) + DiffItems(es, xs, i + 1, p, o, d)
  }

  function AddedItems(xs: seq<Value>, i: nat, p: Place): seq<DiffKind>
    decreases |xs| - i
  {
    if i >= |xs| then [] else [Added(Under(p, Index(i)), xs[i])] + AddedItems(xs, i + 1, p)
  }

  /** Greedy matching: each expected item takes the first actual item still free that does not
      differ from it. Items are compared at the array's own path. */
  function DiffUnordered(es: seq<Value>, xs: seq<Value>, taken: seq<bool>, p: Place, o: Options, d: nat): seq<DiffKind>
    requires |taken| == |xs|
    decreases es, 1, 0, 0
  {
    if |es| == 0 then AddedFree(xs, taken, 0, p)
    else
      match FirstFree(es[0], xs, taken, 0, p, o, d)
      case Some(j) => DiffUnordered(es[1..], xs, taken[j := true], p, o, d)
      case None => [Removed(Under(p, Wildcard), es[0])] + DiffUnordered(es[1..], xs, taken, p, o, d)
  }

  function FirstFree(e: Value, xs: seq<Value>, taken: seq<bool>, j: nat, p: Place, o: Options, d: nat): (r: Option<nat>)
    requires |taken| == |xs|
    ensures r.Some? ==> r.value < |xs|
    decreases e, 3, 0, |xs| - j
  {
    if j >= |xs| then None
    else if !taken[j] && Diff(e, xs[j], p, o, d + 1) == [] then Some(j)
    else FirstFree(e, xs, taken, j + 1, p, o, d)
  }

  function AddedFree(xs: seq<Value>, taken: seq<bool>, j: nat, p: Place): seq<DiffKind>
    requires |taken| == |xs|
    decreases |xs| - j
  {
    if j >= |xs| then []
    else (if taken[j] then [] else [Added(Under(p, Wildcard), xs[j])]) + AddedFree(xs, taken, j + 1, p)
  }

  function CompareJson(e: Value, a: Value, o: Options): seq<DiffKind> {
    if o.bypass && SerdeEq(e, a) then [] else Diff(e, a, Top, o, 0)
  }

  // ---------------------------------------------------------------- program

  /** `out: &mut Vec<DiffKind>`. */
  class DiffList {
    var records: seq<DiffKind>

    constructor ()
      ensures records == []
    {
      records := [];
    }

    method Push(r: DiffKind)
      modifies this
      ensures records == old(records) + [r]
    {
      records := records + [r];
    }
  }

  method CompareJsonAst(e: Value, a: Value, o: Options) returns (differences: seq<DiffKind>)
    ensures differences == CompareJson(e, a, o)
  {
    if o.bypass && SerdeEq(e, a) {
      return [];
    }
    var out := new DiffList();
    DiffRecursive(e, a, Top, o, 0, out);
    differences := out.records;
  }

  method DiffRecursive(e: Value, a: Value, p: Place, o: Options, d: nat, out: DiffList)
    modifies out
    ensures out.records == old(out.records) + Diff(e, a, p, o, d)
    decreases e, 2, 0, 0
  {
    if d > o.maxDepth {
      out.Push(DepthExceeded(p, o.maxDepth));
      return;
    }
    if TypeNameOf(e) != TypeNameOf(a) {
      out.Push(TypeMismatch(p, TypeNameOf(e), TypeNameOf(a), e, a));
      return;
    }
    match e {
      case Obj(_) =>
        DiffObjects(e, a, p, o, d, out);
      case Arr(es) =>
        if ModeAt(o, p) == Ordered {
          DiffArrays(es, a.items, p, o, d, out);
        } else {
          DiffArrayAsSet(es, a.items, p, o, d, out);
        }
      case Str(s) =>
        if s != a.s { out.Push(Modified(p, e, a)); }
      case Num(n) =>
        if !NumberMatch(n, a.n, o) { out.Push(Modified(p, e, a)); }
      case Bool(b) =>
        if b != a.b { out.Push(Modified(p, e, a)); }
      case Null =>
    }
  }

  method DiffObjects(e: Value, a: Value, p: Place, o: Options, d: nat, out: DiffList)
    requires e.Obj? && a.Obj?
    modifies out
    ensures out.records == old(out.records) + DiffFields(e, a, p, o, d)
    decreases e, 1, 1, 0
  {
    var em, am := Collect(e.fields, o), Collect(a.fields, o);
    var removed, added := SortedKeys(em.Keys - am.Keys), SortedKeys(am.Keys - em.Keys);
    var common := SortedKeys(em.Keys * am.Keys);
    Regroup(out.records, RemovedKeys(em, removed, p), AddedKeys(am, added, p), DiffCommon(e, a, common, p, o, d));
    PushRemoved(em, removed, p, out);
    PushAdded(am, added, p, out);
    DiffCommonKeys(e, a, common, p, o, d, out);
  }

  method PushRemoved(em: map<string, Value>, ks: seq<string>, p: Place, out: DiffList)
    requires forall k :: k in ks ==> k in em
    modifies out
    ensures out.records == old(out.records) + RemovedKeys(em, ks, p)
  {
    for i := 0 to |ks|
      invariant out.records + RemovedKeys(em, ks[i..], p) == old(out.records) + RemovedKeys(em, ks, p)
    {
      out.Push(Removed(Under(p, Key(ks[i])), em[ks[i]]));
    }
  }

  method PushAdded(am: map<string, Value>, ks: seq<string>, p: Place, out: DiffList)
    requires forall k :: k in ks ==> k in am
    modifies out
    ensures out.records == old(out.records) + AddedKeys(am, ks, p)
  {
    for i := 0 to |ks|
      invariant out.records + AddedKeys(am, ks[i..], p) == old(out.records) + AddedKeys(am, ks, p)
    {
      out.Push(Added(Under(p, Key(ks[i])), am[ks[i]]));
    }
  }

  lemma {:induction false} DiffCommonStep(r: seq<DiffKind>, e: Value, a: Value, ks: seq<string>, p: Place, o: Options,
          d: nat)
    requires e.Obj? && a.Obj? && |ks| > 0
    requires forall k :: k in ks ==> k in Collect(e.fields, o) && k in Collect(a.fields, o)
    ensures r + DiffCommon(e, a, ks, p, o, d) ==
      r + Diff(Collect(e.fields, o)[ks[0]], Collect(a.fields, o)[ks[0]], Under(p, Key(ks[0])), o, d + 1)
        + DiffCommon(e, a, ks[1..], p, o, d)
  {
  }

  lemma DiffItemsStep(r: seq<DiffKind>, es: seq<Value>, xs: seq<Value>, i: nat, p: Place,
          o: Options, d: nat)
    requires i < |es| && i < |xs|
    ensures r + DiffItems(es, xs, i, p, o, d) ==
      r + Diff(es[i], xs[i], Under(p, Index(i)), o, d + 1) + DiffItems(es, xs, i + 1, p, o, d)
  {
  }

  method DiffCommonKeys(e: Value, a: Value, ks: seq<string>, p: Place, o: Options, d: nat, out: DiffList)
    requires e.Obj? && a.Obj?
    requires forall k :: k in ks ==> k in Collect(e.fields, o) && k in Collect(a.fields, o)
    modifies out
    ensures out.records == old(out.records) + DiffCommon(e, a, ks, p, o, d)
    decreases e, 1, 0, 0
  {
    var em, am := Collect(e.fields, o), Collect(a.fields, o);
    ghost var total := out.records + DiffCommon(e, a, ks, p, o, d);
    for i := 0 to |ks|
      invariant out.records + DiffCommon(e, a, ks[i..], p, o, d) == total
    {
      var key := ks[i];
      DiffCommonStep(out.records, e, a, ks[i..], p, o, d);
      assert ks[i..][1..] == ks[i + 1..];
      DiffRecursive(em[key], am[key], Under(p, Key(key)), o, d + 1, out);
    }
  }

  method DiffArrays(es: seq<Value>, xs: seq<Value>, p: Place, o: Options, d: nat, out: DiffList)
    modifies out
    ensures out.records == old(out.records)
      + (LengthRecord(|es|, |xs|, p) + DiffItems(es, xs, 0, p, o, d) + AddedItems(xs, |es|, p))
    decreases es, 1, 0, 1
  {
    Regroup(out.records, LengthRecord(|es|, |xs|, p), DiffItems(es, xs, 0, p, o, d), AddedItems(xs, |es|, p));
    if |es| != |xs| {
      out.Push(ArrayLengthMismatch(p, |es|, |xs|));
    }
    DiffPairs(es, xs, p, o, d, out);
    if |xs| > |es| {
      PushItems(xs, |es|, p, out);
    }
  }

  method PushItems(xs: seq<Value>, start: nat, p: Place, out: DiffList)
    requires start <= |xs|
    modifies out
    ensures out.records == old(out.records) + AddedItems(xs, start, p)
  {
    for i := start to |xs|
      invariant out.records + AddedItems(xs, i, p) == old(out.records) + AddedItems(xs, start, p)
    {
      out.Push(Added(Under(p, Index(i)), xs[i]));
    }
  }

  method DiffPairs(es: seq<Value>, xs: seq<Value>, p: Place, o: Options, d: nat, out: DiffList)
    modifies out
    ensures out.records == old(out.records) + DiffItems(es, xs, 0, p, o, d)
    decreases es, 1, 0, 0
  {
    ghost var total := out.records + DiffItems(es, xs, 0, p, o, d);
    for i := 0 to Min(|es|, |xs|)
      invariant out.records + DiffItems(es, xs, i, p, o, d) == total
    {
      DiffItemsStep(out.records, es, xs, i, p, o, d);
      DiffRecursive(es[i], xs[i], Under(p, Index(i)), o, d + 1, out);
    }
  }

  method DiffArrayAsSet(es: seq<Value>, xs: seq<Value>, p: Place, o: Options, d: nat, out: DiffList)
    modifies out
    ensures out.records == old(out.records) + DiffUnordered(es, xs, seq(|xs|, _ => false), p, o, d)
    decreases es, 1, 0, 0
  {
    var matched := new bool[|xs|](_ => false);
    assert matched[..] == seq(|xs|, _ => false);
    MatchGreedily(es, xs, matched, p, o, d, out);
  }

  method MatchGreedily(es: seq<Value>, xs: seq<Value>, matched: array<bool>, p: Place, o: Options, d: nat,
          out: DiffList)
    requires matched.Length == |xs|
    modifies out, matched
    ensures out.records == old(out.records) + DiffUnordered(es, xs, old(matched[..]), p, o, d)
    decreases es, 0, 0, 0
  {
    ghost var total := out.records + DiffUnordered(es, xs, matched[..], p, o, d);
    for i := 0 to |es|
      invariant out.records + DiffUnordered(es[i..], xs, matched[..], p, o, d) == total
    {
      var j := FindFree(es[i], xs, matched, p, o, d);
      assert es[i..][0] == es[i] && es[i..][1..] == es[i + 1..];
      if j < |xs| {
        ghost var before := matched[..];
        matched[j] := true;
        assert matched[..] == before[j := true];
      } else {
        out.Push(Removed(Under(p, Wildcard), es[i]));
      }
    }
    PushFree(xs, matched, p, out);
  }

  method PushFree(xs: seq<Value>, matched: array<bool>, p: Place, out: DiffList)
    requires matched.Length == |xs|
    modifies out
    ensures out.records == old(out.records) + AddedFree(xs, matched[..], 0, p)
  {
    ghost var total := out.records + AddedFree(xs, matched[..], 0, p);
    for j := 0 to |xs|
      invariant out.records + AddedFree(xs, matched[..], j, p) == total
    {
      if !matched[j] {
        out.Push(Added(Under(p, Wildcard), xs[j]));
      }
    }
  }

  /** The inner scan of the set comparison: a trial diff against every free item until one is empty. */
  method FindFree(e: Value, xs: seq<Value>, matched: array<bool>, p: Place, o: Options, d: nat)
    returns (j: nat)
    requires matched.Length == |xs|
    ensures j <= |xs| && FirstFree(e, xs, matched[..], 0, p, o, d) == if j < |xs| then Some(j) else None
    decreases e, 3, 0, 0
  {
    ghost var answer := FirstFree(e, xs, matched[..], 0, p, o, d);
    ghost var taken := matched[..];
    j := 0;
    while j < |xs|
      invariant 0 <= j <= |xs|
      invariant answer == FirstFree(e, xs, taken, j, p, o, d)
    {
      if !matched[j] {
        var trial := new DiffList();
        DiffRecursive(e, xs[j], p, o, d + 1, trial);
        if trial.records == [] { return; }
      }
      j := j + 1;
    }
  }
}
