/** The fuzz mutator: it walks a request body and, for each field, clones the body and edits the clone
    at the field's printed path, which it parses back. */
module Mutator {
  import opened Json
  import opened Paths
  import opened Navigation

  // ---------------------------------------------------------------- editing at a path

  /** Replacing an existing child. */
  function SetChild(v: Value, s: Segment, c: Value): Value
    requires Child(v, s).Some?
  {
    match v
    case Obj(fs) => Obj(fs[Find(fs, s.k).value := Field(s.k, c)])
    case Arr(items) => Arr(items[s.i := c])
  }

  /** The last step of a replacement: a missing key is appended, a missing index ignored. */
  function Write(v: Value, s: Segment, x: Value): Value {
    if Child(v, s).Some? then SetChild(v, s, x)
    else if v.Obj? && s.Key? then Obj(v.fields + [Field(s.k, x)])
    else v
  }

  /** The last step of a removal: the map moves its last entry into the gap, the array closes it. */
  function Erase(v: Value, s: Segment): Value {
    if Child(v, s).None? then v
    else match v
      case Obj(fs) =>
        var last := |fs| - 1;
        Obj(fs[Find(fs, s.k).value := fs[last]][..last])
      case Arr(items) => Arr(items[..s.i] + items[s.i + 1..])
  }

  function Replace(v: Value, p: Path, x: Value): Value
    decreases |p|
  {
    if |p| == 0 then x
    else if |p| == 1 then Write(v, p[0], x)
    else match Child(v, p[0])
      case Some(c) => SetChild(v, p[0], Replace(c, p[1..], x))
      case None => v
  }

  function Remove(v: Value, p: Path): Value
    decreases |p|
  {
    if |p| == 0 then v
    else if |p| == 1 then Erase(v, p[0])
    else match Child(v, p[0])
      case Some(c) => SetChild(v, p[0], Remove(c, p[1..]))
      case None => v
  }

  /** The document above a position put back around a new value at it. */
  function Rebuild(above: seq<Value>, p: Path, x: Value): Value
    requires |above| == |p| && forall i :: 0 <= i < |p| ==> Child(above[i], p[i]).Some?
  {
    if |p| == 0 then x
    else Rebuild(above[..|p| - 1], p[..|p| - 1], SetChild(above[|p| - 1], p[|p| - 1], x))
  }

  lemma {:induction false} RebuildStep(above: seq<Value>, p: Path, v: Value, s: Segment, x: Value)
    requires |above| == |p| && forall i :: 0 <= i < |p| ==> Child(above[i], p[i]).Some?
    requires Child(v, s).Some?
    ensures Rebuild(above + [v], p + [s], x) == Rebuild(above, p, SetChild(v, s, x))
  {
    assert (above + [v])[..|p|] == above && (p + [s])[..|p|] == p;
  }

  lemma SetSame(v: Value, s: Segment)
    requires Child(v, s).Some?
    ensures SetChild(v, s, Child(v, s).value) == v
  {
    match v
    case Obj(fs) =>
      var i := Find(fs, s.k).value;
      assert fs[i := Field(s.k, fs[i].value)] == fs;
    case Arr(items) => assert items[s.i := items[s.i]] == items;
  }

  datatype Edit = Put(value: Value) | Drop

  function Edited(v: Value, p: Path, e: Edit): Value {
    match e
    case Put(x) => Replace(v, p, x)
    case Drop => Remove(v, p)
  }

  function LastStep(v: Value, s: Segment, e: Edit): Value {
    match e
    case Put(x) => Write(v, s, x)
    case Drop => Erase(v, s)
  }

  lemma EditedStep(v: Value, p: Path, e: Edit)
    requires |p| > 1
    ensures Edited(v, p, e) ==
      if Child(v, p[0]).Some? then SetChild(v, p[0], Edited(Child(v, p[0]).value, p[1..], e)) else v
  {
  }

  lemma StopsShort(cursor: Value, segments: Path, i: nat, e: Edit)
    requires i + 1 < |segments| && Child(cursor, segments[i]).None?
    ensures Edited(cursor, segments[i..], e) == cursor
  {
    EditedStep(cursor, segments[i..], e);
  }

  /** One step down keeps both what is rebuilt and what the edit will make of it. */
  lemma {:induction false} Descend(above: seq<Value>, segments: Path, i: nat, cursor: Value, e: Edit)
    requires |above| == i && i + 1 < |segments| && Child(cursor, segments[i]).Some?
    requires forall j :: 0 <= j < i ==> Child(above[j], segments[j]).Some?
    ensures var next := Child(cursor, segments[i]).value;
      && (forall j :: 0 <= j < i + 1 ==> Child((above + [cursor])[j], segments[j]).Some?)
      && Rebuild(above + [cursor], segments[..i + 1], next) == Rebuild(above, segments[..i], cursor)
      && Rebuild(above + [cursor], segments[..i + 1], Edited(next, segments[i + 1..], e))
         == Rebuild(above, segments[..i], Edited(cursor, segments[i..], e))
  {
    var s, next := segments[i], Child(cursor, segments[i]).value;
    assert segments[..i + 1] == segments[..i] + [s] && segments[i..][1..] == segments[i + 1..];
    EditedStep(cursor, segments[i..], e);
    SetSame(cursor, s);
    RebuildStep(above, segments[..i], cursor, s, next);
    RebuildStep(above, segments[..i], cursor, s, Edited(next, segments[i + 1..], e));
  }

  /** The cursor loop of both edits: walk down while the path leads somewhere, edit, and keep the rest. */
  method EditAt(root: Value, segments: Path, e: Edit) returns (r: Value)
    requires |segments| > 0
    ensures r == Edited(root, segments, e)
  {
    var cursor, above, i := root, [], 0;
    assert segments[0..] == segments && segments[..0] == [];
    while i < |segments| - 1
      invariant 0 <= i < |segments| && |above| == i
      invariant forall j :: 0 <= j < i ==> Child(above[j], segments[j]).Some?
      invariant Rebuild(above, segments[..i], cursor) == root
      invariant Rebuild(above, segments[..i], Edited(cursor, segments[i..], e)) == Edited(root, segments, e)
    {
      match Child(cursor, segments[i]) {
        case None =>
          StopsShort(cursor, segments, i, e);
          return root;
        case Some(next) =>
          Descend(above, segments, i, cursor, e);
          above, cursor, i := above + [cursor], next, i + 1;
      }
    }
    assert segments[i..] == [segments[i]];
    var last := LastStep(cursor, segments[i], e);
    r := WriteBack(above, segments[..i], last);
  }

  /** What the mutable cursor does by itself: the edited value takes its place in what is above it. */
  method WriteBack(above: seq<Value>, p: Path, x: Value) returns (r: Value)
    requires |above| == |p| && forall j :: 0 <= j < |p| ==> Child(above[j], p[j]).Some?
    ensures r == Rebuild(above, p, x)
  {
    r := x;
    assert above[..|p|] == above && p[..|p|] == p;
    for i := |p| downto 0
      invariant Rebuild(above[..i], p[..i], r) == Rebuild(above, p, x)
    {
      assert above[..i + 1][..i] == above[..i] && p[..i + 1][..i] == p[..i];
      r := SetChild(above[i], p[i], r);
    }
  }

  method ReplacePathInAst(root: Value, path: string, replacement: Value) returns (r: Value)
    ensures r == Replace(root, ParseFuzzPath(path), replacement)
  {
    var segments := ParseJsonPath(path);
    if |segments| == 0 {
      return replacement;
    }
    r := EditAt(root, segments, Put(replacement));
  }

  method RemovePathInAst(root: Value, path: string) returns (r: Value)
    ensures r == Remove(root, ParseFuzzPath(path))
  {
    var segments := ParseJsonPath(path);
    if |segments| == 0 {
      return root;
    }
    r := EditAt(root, segments, Drop);
  }

  // ---------------------------------------------------------------- what an edit changes

  lemma FindReplaced(fs: seq<Field>, i: nat, f: Field, k: string)
    requires i < |fs| && f.key == fs[i].key
    ensures Find(fs[i := f], k) == Find(fs, k)
  {
    if i > 0 {
      assert fs[i := f][1..] == fs[1..][i - 1 := f];
      FindReplaced(fs[1..], i - 1, f, k);
    } else {
      assert fs[i := f][1..] == fs[1..];
    }
  }

  lemma SetChildAt(v: Value, s: Segment, c: Value, t: Segment)
    requires Child(v, s).Some?
    ensures Child(SetChild(v, s, c), t) == if t == s then Some(c) else Child(v, t)
  {
    if v.Obj? && t.Key? { FindReplaced(v.fields, Find(v.fields, s.k).value, Field(s.k, c), t.k); }
  }

  lemma EraseKeyAt(v: Value, k: string, t: Segment)
    requires v.Obj? && Distinct(v.fields) && Child(v, Key(k)).Some?
    ensures Erase(v, Key(k)).Obj?
    ensures Child(Erase(v, Key(k)), t) == if t == Key(k) then None else Child(v, t)
  {
    if t.Key? {
      var fs, gs := v.fields, Erase(v, Key(k)).fields;
      var i, j := Find(fs, k).value, Find(fs, t.k);
      var g := Find(gs, t.k);
      forall n | 0 <= n < |gs| ensures gs[n] == if n == i then fs[|fs| - 1] else fs[n] {}
      if j.Some? && t.k != k {
        assert gs[if j.value == |fs| - 1 then i else j.value] == fs[j.value];
      }
    }
  }

  ghost predicate Related(p: Path, q: Path) {
    p <= q || q <= p
  }

  lemma {:induction false} EditedOne(v: Value, s: Segment, e: Edit, t: Segment)
    requires WellFormed(v) && Child(v, s).Some? && (e.Drop? ==> s.Key?)
    ensures Child(Edited(v, [s], e), t) == if t == s then (if e.Put? then Some(e.value) else None) else Child(v, t)
  {
    match e
    case Put(x) => SetChildAt(v, s, x, t);
    case Drop => EraseKeyAt(v, s.k, t);
  }

  /** An edit that points at an existing field changes nothing away from it. */
  lemma {:induction false} EditIsLocal(v: Value, p: Path, e: Edit, q: Path)
    requires WellFormed(v) && Get(v, p).Some? && |p| > 0 && (e.Drop? ==> p[|p| - 1].Key?)
    requires !Related(p, q)
    ensures Get(Edited(v, p, e), q) == Get(v, q)
    decreases |p|
  {
    var s, t := p[0], q[0];
    assert p == [s] + p[1..] && q == [t] + q[1..];
    if |p| == 1 {
      assert p == [s];
      EditedOne(v, s, e, t);
    } else {
      EditedStep(v, p, e);
      var c := Child(v, s).value;
      SetChildAt(v, s, Edited(c, p[1..], e), t);
      if s == t {
        assert !Related(p[1..], q[1..]);
        EditIsLocal(c, p[1..], e, q[1..]);
      }
    }
  }

  /** And at the field it puts the chosen value, or leaves an object without the key. */
  lemma {:induction false} EditLands(v: Value, p: Path, e: Edit)
    requires WellFormed(v) && Get(v, p).Some? && |p| > 0 && (e.Drop? ==> p[|p| - 1].Key?)
    ensures e.Put? ==> Get(Edited(v, p, e), p) == Some(e.value)
    ensures e.Drop? ==> Get(Edited(v, p, e), p) == None
    ensures e.Drop? ==> Get(Edited(v, p, e), p[..|p| - 1]).Some? && Get(Edited(v, p, e), p[..|p| - 1]).value.Obj?
    decreases |p|
  {
    var s := p[0];
    if |p| == 1 {
      assert p == [s] && p[1..] == [] && p[..0] == [];
      EditedOne(v, s, e, s);
    } else {
      EditedStep(v, p, e);
      var c := Child(v, s).value;
      SetChildAt(v, s, Edited(c, p[1..], e), s);
      EditLands(c, p[1..], e);
      assert p[..|p| - 1][1..] == p[1..][..|p| - 2];
    }
  }

  // ---------------------------------------------------------------- the generated cases

  /** What a case tries; its name and its description are this and the target, spelled out. */
  datatype Kind =
    | NullPayload | EmptyObject
    | MissingKey | NullKey
    | SqlInjection | Xss | EmptyString | Oversized
    | MaxInt | Negative | Zero
    | EmptyArray

  datatype MutationCase = MutationCase(kind: Kind, target: string, mutatedBody: Value)

  const SQL_PROBE := "' OR '1'='1 --"
  const XSS_PROBE := "<script>alert('xss')</script>"
  const OVERSIZED: nat := 16384

  function Repeat(c: char, n: nat): (s: string)
    ensures |s| == n && forall i :: 0 <= i < n ==> s[i] == c
  {
    seq(n, _ => c)
  }

  /** The value a case puts at its target. */
  function Payload(kind: Kind): Value {
    match kind
    case EmptyObject => Obj([])
    case SqlInjection => Str(SQL_PROBE)
    case Xss => Str(XSS_PROBE)
    case EmptyString => Str("")
    case Oversized => Str(Repeat('A', OVERSIZED))
    case MaxInt => Num(PosInt(I64_MAX))
    case Negative => Num(NegInt(-1))
    case Zero => Num(PosInt(0))
    case EmptyArray => Arr([])
    case _ => Null
  }

  function EditOf(kind: Kind): Edit {
    if kind == MissingKey then Drop else Put(Payload(kind))
  }

  function CaseAt(root: Value, at: Place, kind: Kind): MutationCase {
    MutationCase(kind, Printed(at), Edited(root, ParseFuzzPath(Printed(at)), EditOf(kind)))
  }

  function WholeBodyCases(): seq<MutationCase> {
    [MutationCase(NullPayload, "$", Payload(NullPayload)), MutationCase(EmptyObject, "$", Payload(EmptyObject))]
  }

  function KeyCases(fs: seq<Field>, n: nat, at: Place, root: Value, kind: Kind): seq<MutationCase>
    requires n <= |fs|
  {
    seq(n, i requires 0 <= i < n => CaseAt(root, Under(at, Key(fs[i].key)), kind))
  }

  /** The probes for the value that is there. */
  function Probes(v: Value): seq<Kind> {
    match v
    case Str(_) => [SqlInjection, Xss, EmptyString, Oversized]
    case Num(_) => [MaxInt, Negative, Zero]
    case Arr(_) => [EmptyArray]
    case _ => []
  }

  function ProbeCases(kinds: seq<Kind>, n: nat, at: Place, root: Value): seq<MutationCase>
    requires n <= |kinds|
  {
    seq(n, i requires 0 <= i < n => CaseAt(root, at, kinds[i]))
  }

  /** The cases for the value at a position: keys dropped, keys set to null, then the children's cases;
      or the probes of a scalar; or the array emptied, then the items' cases. */
  function Cases(v: Value, at: Place, root: Value): seq<MutationCase>
    decreases v, 0
  {
    match v
    case Obj(fs) =>
      KeyCases(fs, |fs|, at, root, MissingKey) + KeyCases(fs, |fs|, at, root, NullKey) + FieldCases(fs, |fs|, at, root)
    case Arr(items) => ProbeCases(Probes(v), 1, at, root) + ItemCases(items, |items|, at, root)
    case _ => ProbeCases(Probes(v), |Probes(v)|, at, root)
  }

  function FieldCases(fs: seq<Field>, n: nat, at: Place, root: Value): seq<MutationCase>
    requires n <= |fs|
    decreases fs, n
  {
    if n == 0 then [] else FieldCases(fs, n - 1, at, root) + Cases(fs[n - 1].value, Under(at, Key(fs[n - 1].key)), root)
  }

  function ItemCases(items: seq<Value>, n: nat, at: Place, root: Value): seq<MutationCase>
    requires n <= |items|
    decreases items, n
  {
    if n == 0 then [] else ItemCases(items, n - 1, at, root) + Cases(items[n - 1], Under(at, Index(n - 1)), root)
  }

  function Mutations(root: Value): seq<MutationCase> {
    WholeBodyCases() + Cases(root, Top, root)
  }

  /** `out: &mut Vec<MutationCase>`. */
  class CaseList {
    var cases: seq<MutationCase>

    constructor ()
      ensures cases == []
    {
      cases := [];
    }

    method Push(c: MutationCase)
      modifies this
      ensures cases == old(cases) + [c]
    {
      cases := cases + [c];
    }
  }

  method GenerateMutations(baseline: Value) returns (cases: seq<MutationCase>)
    ensures cases == Mutations(baseline)
  {
    var out := new CaseList();
    out.Push(MutationCase(NullPayload, "$", Null));
    out.Push(MutationCase(EmptyObject, "$", Obj([])));
    MutateRecursive(baseline, Top, baseline, out);
    cases := out.cases;
  }

  method PushCase(root: Value, at: Place, kind: Kind, out: CaseList)
    modifies out
    ensures out.cases == old(out.cases) + [CaseAt(root, at, kind)]
  {
    var target := Printed(at);
    var body := root;
    if kind == MissingKey {
      body := RemovePathInAst(root, target);
    } else {
      body := ReplacePathInAst(root, target, Payload(kind));
    }
    out.Push(MutationCase(kind, target, body));
  }

  method PushKeyCases(fs: seq<Field>, at: Place, root: Value, kind: Kind, out: CaseList)
    modifies out
    ensures out.cases == old(out.cases) + KeyCases(fs, |fs|, at, root, kind)
  {
    for i := 0 to |fs|
      invariant out.cases == old(out.cases) + KeyCases(fs, i, at, root, kind)
    {
      var target := Under(at, Key(fs[i].key));
      PushCase(root, target, kind, out);
      assert KeyCases(fs, i + 1, at, root, kind) == KeyCases(fs, i, at, root, kind) + [CaseAt(root, target, kind)];
    }
  }

  method PushProbes(kinds: seq<Kind>, at: Place, root: Value, out: CaseList)
    modifies out
    ensures out.cases == old(out.cases) + ProbeCases(kinds, |kinds|, at, root)
  {
    for i := 0 to |kinds|
      invariant out.cases == old(out.cases) + ProbeCases(kinds, i, at, root)
    {
      PushCase(root, at, kinds[i], out);
      assert ProbeCases(kinds, i + 1, at, root) == ProbeCases(kinds, i, at, root) + [CaseAt(root, at, kinds[i])];
    }
  }

  method MutateRecursive(v: Value, at: Place, root: Value, out: CaseList)
    modifies out
    ensures out.cases == old(out.cases) + Cases(v, at, root)
    decreases v, 1
  {
    ghost var before := out.cases;
    match v {
      case Obj(fs) =>
        PushKeyCases(fs, at, root, MissingKey, out);
        PushKeyCases(fs, at, root, NullKey, out);
        MutateFields(fs, at, root, out);
        Regroup(before, KeyCases(fs, |fs|, at, root, MissingKey), KeyCases(fs, |fs|, at, root, NullKey),
                FieldCases(fs, |fs|, at, root));
      case Arr(items) =>
        PushProbes(Probes(v), at, root, out);
        MutateItems(items, at, root, out);
        Associate(before, ProbeCases(Probes(v), 1, at, root), ItemCases(items, |items|, at, root));
      case _ =>
        PushProbes(Probes(v), at, root, out);
    }
  }

  method MutateFields(fs: seq<Field>, at: Place, root: Value, out: CaseList)
    modifies out
    ensures out.cases == old(out.cases) + FieldCases(fs, |fs|, at, root)
    decreases fs, 0
  {
    for i := 0 to |fs|
      invariant out.cases == old(out.cases) + FieldCases(fs, i, at, root)
    {
      ghost var before := FieldCases(fs, i, at, root);
      MutateRecursive(fs[i].value, Under(at, Key(fs[i].key)), root, out);
      Associate(old(out.cases), before, Cases(fs[i].value, Under(at, Key(fs[i].key)), root));
    }
  }

  method MutateItems(items: seq<Value>, at: Place, root: Value, out: CaseList)
    modifies out
    ensures out.cases == old(out.cases) + ItemCases(items, |items|, at, root)
    decreases items, 0
  {
    for i := 0 to |items|
      invariant out.cases == old(out.cases) + ItemCases(items, i, at, root)
    {
      ghost var before := ItemCases(items, i, at, root);
      MutateRecursive(items[i], Under(at, Index(i)), root, out);
      Associate(old(out.cases), before, Cases(items[i], Under(at, Index(i)), root));
    }
  }

  // ---------------------------------------------------------------- how many there are

  /** Two for each key, four for each string, three for each number, one for each array. */
  function Weight(v: Value): nat
    decreases v, 0
  {
    match v
    case Obj(fs) => 2 * |fs| + FieldWeight(fs, |fs|)
    case Str(_) => 4
    case Num(_) => 3
    case Arr(items) => 1 + ItemWeight(items, |items|)
    case _ => 0
  }

  function FieldWeight(fs: seq<Field>, n: nat): nat
    requires n <= |fs|
    decreases fs, n
  {
    if n == 0 then 0 else FieldWeight(fs, n - 1) + Weight(fs[n - 1].value)
  }

  function ItemWeight(items: seq<Value>, n: nat): nat
    requires n <= |items|
    decreases items, n
  {
    if n == 0 then 0 else ItemWeight(items, n - 1) + Weight(items[n - 1])
  }

  lemma {:induction false} CountCases(v: Value, at: Place, root: Value)
    ensures |Cases(v, at, root)| == Weight(v)
    decreases v, 0
  {
    match v
    case Obj(fs) => CountFieldCases(fs, |fs|, at, root);
    case Arr(items) => CountItemCases(items, |items|, at, root);
    case _ =>
  }

  lemma {:induction false} CountFieldCases(fs: seq<Field>, n: nat, at: Place, root: Value)
    requires n <= |fs|
    ensures |FieldCases(fs, n, at, root)| == FieldWeight(fs, n)
    decreases fs, n
  {
    if n > 0 {
      CountFieldCases(fs, n - 1, at, root);
      CountCases(fs[n - 1].value, Under(at, Key(fs[n - 1].key)), root);
    }
  }

  lemma {:induction false} CountItemCases(items: seq<Value>, n: nat, at: Place, root: Value)
    requires n <= |items|
    ensures |ItemCases(items, n, at, root)| == ItemWeight(items, n)
    decreases items, n
  {
    if n > 0 {
      CountItemCases(items, n - 1, at, root);
      CountCases(items[n - 1], Under(at, Index(n - 1)), root);
    }
  }

  lemma {:induction false} MutationCount(root: Value)
    ensures |Mutations(root)| == 2 + Weight(root)
  {
    CountCases(root, Top, root);
  }

  // ---------------------------------------------------------------- every case is a mutant of one field

  /** What is tried at a field: dropping or nulling a key, and the probes for the value that is there. */
  predicate Chosen(root: Value, p: Path, kind: Kind) {
    && Get(root, p).Some?
    && if kind == MissingKey || kind == NullKey then |p| > 0 && p[|p| - 1].Key? else kind in Probes(Get(root, p).value)
  }

  /** The mutant of one field: the choice is there, or an object without the key; away from it, all is as before. */
  ghost predicate Mutant(root: Value, body: Value, p: Path, e: Edit) {
    && (e.Put? ==> Get(body, p) == Some(e.value))
    && (e.Drop? ==>
          Get(body, p).None? && |p| > 0 && Get(body, p[..|p| - 1]).Some? && Get(body, p[..|p| - 1]).value.Obj?)
    && forall q :: !Related(p, q) ==> Get(body, q) == Get(root, q)
  }

  lemma {:induction false} EditIsMutant(root: Value, p: Path, kind: Kind)
    requires WellFormed(root) && Chosen(root, p, kind)
    ensures Mutant(root, Edited(root, p, EditOf(kind)), p, EditOf(kind))
  {
    var e := EditOf(kind);
    if |p| > 0 {
      EditLands(root, p, e);
      forall q | !Related(p, q) ensures Get(Edited(root, p, e), q) == Get(root, q) { EditIsLocal(root, p, e, q); }
    }
  }

  /** The case for a path, whether or not the path survives printing. */
  function Spelled(root: Value, p: Path, kind: Kind): MutationCase {
    MutationCase(kind, Render(p), Edited(root, ParseFuzzPath(Render(p)), EditOf(kind)))
  }

  lemma {:induction false} CaseSpelledOut(root: Value, at: Place, kind: Kind)
    ensures CaseAt(root, at, kind) == Spelled(root, Segments(at), kind)
  {
    PrintedIsRendered(at);
  }

  ghost predicate FieldCase(root: Value, c: MutationCase, p: Path) {
    Chosen(root, p, c.kind) && c == Spelled(root, p, c.kind)
  }

  lemma CaseHasField(v: Value, at: Place, root: Value, c: MutationCase) returns (p: Path)
    requires WellFormed(v) && Get(root, Segments(at)) == Some(v) && c in Cases(v, at, root)
    ensures FieldCase(root, c, p)
    decreases v, 0
  {
    if v.Obj? && c in FieldCases(v.fields, |v.fields|, at, root) {
      var fs := v.fields;
      var i := FieldWithCase(fs, |fs|, at, root, c);
      FindDistinct(fs, i);
      GetUnder(root, at, v, Key(fs[i].key));
      p := CaseHasField(fs[i].value, Under(at, Key(fs[i].key)), root, c);
    } else if v.Obj? {
      var dropped := c in KeyCases(v.fields, |v.fields|, at, root, MissingKey);
      p := KeyCase(v, at, root, c, if dropped then MissingKey else NullKey);
    } else if v.Arr? && c in ItemCases(v.items, |v.items|, at, root) {
      var i := ItemWithCase(v.items, |v.items|, at, root, c);
      GetUnder(root, at, v, Index(i));
      p := CaseHasField(v.items[i], Under(at, Index(i)), root, c);
    } else {
      assert c in ProbeCases(Probes(v), |Probes(v)|, at, root);
      p := ProbeCase(v, at, root, c);
    }
  }

  lemma KeyCase(v: Value, at: Place, root: Value, c: MutationCase, kind: Kind) returns (p: Path)
    requires v.Obj? && WellFormed(v) && Get(root, Segments(at)) == Some(v) && (kind == MissingKey || kind == NullKey)
    requires c in KeyCases(v.fields, |v.fields|, at, root, kind)
    ensures FieldCase(root, c, p)
  {
    var fs := v.fields;
    var i :| 0 <= i < |fs| && c == CaseAt(root, Under(at, Key(fs[i].key)), kind);
    FindDistinct(fs, i);
    GetUnder(root, at, v, Key(fs[i].key));
    CaseSpelledOut(root, Under(at, Key(fs[i].key)), kind);
    p := Segments(Under(at, Key(fs[i].key)));
  }

  lemma ProbeCase(v: Value, at: Place, root: Value, c: MutationCase) returns (p: Path)
    requires Get(root, Segments(at)) == Some(v) && c in ProbeCases(Probes(v), |Probes(v)|, at, root)
    ensures FieldCase(root, c, p)
  {
    p := Segments(at);
    var i :| 0 <= i < |Probes(v)| && c == CaseAt(root, at, Probes(v)[i]);
    CaseSpelledOut(root, at, Probes(v)[i]);
    assert Probes(v)[i] != MissingKey && Probes(v)[i] != NullKey;
  }

  lemma FieldWithCase(fs: seq<Field>, n: nat, at: Place, root: Value, c: MutationCase)
    returns (i: nat)
    requires n <= |fs| && c in FieldCases(fs, n, at, root)
    ensures i < n && c in Cases(fs[i].value, Under(at, Key(fs[i].key)), root)
    decreases n
  {
    if c in Cases(fs[n - 1].value, Under(at, Key(fs[n - 1].key)), root) { i := n - 1; }
    else { i := FieldWithCase(fs, n - 1, at, root, c); }
  }

  lemma ItemWithCase(items: seq<Value>, n: nat, at: Place, root: Value, c: MutationCase)
    returns (i: nat)
    requires n <= |items| && c in ItemCases(items, n, at, root)
    ensures i < n && c in Cases(items[i], Under(at, Index(i)), root)
    decreases n
  {
    if c in Cases(items[n - 1], Under(at, Index(n - 1)), root) { i := n - 1; }
    else { i := ItemWithCase(items, n - 1, at, root, c); }
  }

  lemma {:induction false} SpelledIsMutant(root: Value, p: Path, kind: Kind)
    requires WellFormed(root) && Chosen(root, p, kind) && Clean(p, false)
    ensures Mutant(root, Spelled(root, p, kind).mutatedBody, p, EditOf(kind))
  {
    PrintParse(p);
    EditIsMutant(root, p, kind);
  }

  /** Every generated case but the first two names a field of the body, and is the mutant of that field when
      the field's path survives printing; in a clean body every path does. */
  lemma CaseIsMutant(root: Value, i: nat) returns (p: Path)
    requires WellFormed(root) && 2 <= i < |Mutations(root)|
    ensures var c := Mutations(root)[i];
      && Chosen(root, p, c.kind) && c.target == Render(p)
      && (Clean(p, false) ==> Mutant(root, c.mutatedBody, p, EditOf(c.kind)))
    ensures CleanDocument(root) ==> Clean(p, false)
  {
    var c := Mutations(root)[i];
    assert c == Cases(root, Top, root)[i - 2];
    p := CaseHasField(root, Top, root, c);
    if Clean(p, false) { SpelledIsMutant(root, p, c.kind); }
    if CleanDocument(root) { GetIsClean(root, p); }
  }

  // ---------------------------------------------------------------- every choice is tried

  lemma {:induction false} FieldCaseIn(fs: seq<Field>, n: nat, i: nat, at: Place, root: Value, c: MutationCase)
    requires i < n <= |fs| && c in Cases(fs[i].value, Under(at, Key(fs[i].key)), root)
    ensures c in FieldCases(fs, n, at, root)
    decreases n
  {
    if i < n - 1 { FieldCaseIn(fs, n - 1, i, at, root, c); }
  }

  lemma {:induction false} ItemCaseIn(items: seq<Value>, n: nat, i: nat, at: Place, root: Value, c: MutationCase)
    requires i < n <= |items| && c in Cases(items[i], Under(at, Index(i)), root)
    ensures c in ItemCases(items, n, at, root)
    decreases n
  {
    if i < n - 1 { ItemCaseIn(items, n - 1, i, at, root, c); }
  }

  lemma {:induction false} ChildCaseIn(v: Value, s: Segment, at: Place, root: Value, c: MutationCase)
    requires Child(v, s).Some? && c in Cases(Child(v, s).value, Under(at, s), root)
    ensures c in Cases(v, at, root)
  {
    match v
    case Obj(fs) => FieldCaseIn(fs, |fs|, Find(fs, s.k).value, at, root, c);
    case Arr(items) => ItemCaseIn(items, |items|, s.i, at, root, c);
  }

  lemma {:induction false} KeyCaseIn(v: Value, k: string, at: Place, root: Value, kind: Kind)
    requires Child(v, Key(k)).Some? && (kind == MissingKey || kind == NullKey)
    ensures CaseAt(root, Under(at, Key(k)), kind) in Cases(v, at, root)
  {
    var i := Find(v.fields, k).value;
    assert KeyCases(v.fields, |v.fields|, at, root, kind)[i] == CaseAt(root, Under(at, Key(k)), kind);
  }

  lemma {:induction false} ProbeIn(v: Value, at: Place, root: Value, kind: Kind)
    requires kind in Probes(v)
    ensures CaseAt(root, at, kind) in Cases(v, at, root)
  {
    var i :| 0 <= i < |Probes(v)| && Probes(v)[i] == kind;
    assert ProbeCases(Probes(v), |Probes(v)|, at, root)[i] == CaseAt(root, at, kind);
  }

  lemma TriedBelow(v: Value, at: Place, root: Value, q: Path, kind: Kind) returns (c: MutationCase)
    requires Chosen(v, q, kind)
    ensures c in Cases(v, at, root)
    ensures c == Spelled(root, Segments(at) + q, kind)
    decreases |q|
  {
    if |q| == 0 {
      CaseSpelledOut(root, at, kind);
      assert Segments(at) + q == Segments(at);
      ProbeIn(v, at, root, kind);
      c := CaseAt(root, at, kind);
    } else {
      var s, below := q[0], Under(at, q[0]);
      assert Segments(below) + q[1..] == Segments(at) + q;
      if |q| == 1 && (kind == MissingKey || kind == NullKey) {
        CaseSpelledOut(root, below, kind);
        assert Segments(below) + q[1..] == Segments(below);
        KeyCaseIn(v, s.k, at, root, kind);
        c := CaseAt(root, below, kind);
      } else {
        c := TriedBelow(Child(v, s).value, below, root, q[1..], kind);
        ChildCaseIn(v, s, at, root, c);
      }
    }
  }

  /** Nothing that could be tried is left out, and at a path that survives printing the case is the mutant. */
  lemma {:induction false} EveryChoiceIsTried(root: Value, p: Path, kind: Kind)
    requires Chosen(root, p, kind)
    ensures Spelled(root, p, kind) in Mutations(root)
    ensures WellFormed(root) && Clean(p, false) ==>
      Mutant(root, Spelled(root, p, kind).mutatedBody, p, EditOf(kind))
  {
    var c := TriedBelow(root, Top, root, p, kind);
    assert Segments(Top) + p == p;
    if WellFormed(root) && Clean(p, false) { SpelledIsMutant(root, p, kind); }
  }

  // ---------------------------------------------------------------- the table of mutations

  /** Where a kind of mutation is tried: keys are dropped and nulled, strings, numbers and arrays probed. */
  predicate Suits(kind: Kind, x: Value, p: Path) {
    match kind
    case NullPayload | EmptyObject => false
    case MissingKey | NullKey => |p| > 0 && p[|p| - 1].Key?
    case SqlInjection | Xss | EmptyString | Oversized => x.Str?
    case MaxInt | Negative | Zero => x.Num?
    case EmptyArray => x.Arr?
  }

  /** What it leaves there. */
  predicate Leaves(kind: Kind, y: Value) {
    match kind
    case NullPayload | NullKey => y == Null
    case EmptyObject => y == Obj([])
    case MissingKey => false
    case SqlInjection => y == Str("' OR '1'='1 --")
    case Xss => y == Str("<script>alert('xss')</script>")
    case EmptyString => y == Str("")
    case Oversized => y.Str? && |y.s| == 16384 && forall i :: 0 <= i < |y.s| ==> y.s[i] == 'A'
    case MaxInt => y == Num(PosInt(0x7FFF_FFFF_FFFF_FFFF))
    case Negative => y == Num(NegInt(-1))
    case Zero => y == Num(PosInt(0))
    case EmptyArray => y == Arr([])
  }

  ghost predicate Tried(kind: Kind, root: Value, body: Value, p: Path) {
    && (if kind == MissingKey then
          Get(body, p).None? && |p| > 0 && Get(body, p[..|p| - 1]).Some? && Get(body, p[..|p| - 1]).value.Obj?
        else
          Get(body, p).Some? && Leaves(kind, Get(body, p).value))
    && forall q :: !Related(p, q) ==> Get(body, q) == Get(root, q)
  }

  lemma {:induction false} ChosenSuits(root: Value, p: Path, kind: Kind)
    ensures Chosen(root, p, kind) <==> Get(root, p).Some? && Suits(kind, Get(root, p).value, p)
  {
    if Get(root, p).Some? { ProbesSuit(Get(root, p).value, kind); }
  }

  lemma ProbesSuit(x: Value, kind: Kind)
    ensures kind in Probes(x) <==> kind != MissingKey && kind != NullKey && Suits(kind, x, [])
  {
  }

  lemma PayloadLeft(kind: Kind)
    requires kind != MissingKey
    ensures Leaves(kind, Payload(kind))
  {
  }

  lemma MutantIsTried(root: Value, body: Value, p: Path, kind: Kind)
    requires Mutant(root, body, p, EditOf(kind))
    ensures Tried(kind, root, body, p)
  {
    if kind != MissingKey { PayloadLeft(kind); }
  }

  /** The first two cases replace the whole body; every other one mutates a field as the table says, when
      the field's path survives printing. */
  lemma CasesByTable(root: Value, i: nat) returns (p: Path)
    requires WellFormed(root) && i < |Mutations(root)|
    ensures var c := Mutations(root)[i];
      if i == 0 then c == MutationCase(NullPayload, "$", Null)
      else if i == 1 then c == MutationCase(EmptyObject, "$", Obj([]))
      else
        && c.target == Render(p) && Get(root, p).Some? && Suits(c.kind, Get(root, p).value, p)
        && (Clean(p, false) ==> Tried(c.kind, root, c.mutatedBody, p))
  {
    p := [];
    if i >= 2 {
      var c := Mutations(root)[i];
      p := CaseIsMutant(root, i);
      ChosenSuits(root, p, c.kind);
      if Clean(p, false) { MutantIsTried(root, c.mutatedBody, p, c.kind); }
    }
  }

  /** And every kind is tried wherever the table says so. */
  lemma TableIsCovered(root: Value, p: Path, kind: Kind) returns (i: nat)
    requires WellFormed(root) && Clean(p, false) && Get(root, p).Some? && Suits(kind, Get(root, p).value, p)
    ensures 2 <= i < |Mutations(root)|
    ensures var c := Mutations(root)[i];
      c.kind == kind && c.target == Render(p) && Tried(kind, root, c.mutatedBody, p)
  {
    ChosenSuits(root, p, kind);
    EveryChoiceIsTried(root, p, kind);
    MutantIsTried(root, Spelled(root, p, kind).mutatedBody, p, kind);
    i :| 0 <= i < |Mutations(root)| && Mutations(root)[i] == Spelled(root, p, kind);
    assert Mutations(root)[0].kind == NullPayload && Mutations(root)[1].kind == EmptyObject;
  }

  // ---------------------------------------------------------------- keys that do not survive printing

  lemma {:induction false} RemoveMissing(v: Value, q: Path)
    requires Get(v, q).None? || q == []
    ensures Remove(v, q) == v
    decreases |q|
  {
    if |q| > 1 && Child(v, q[0]).Some? {
      RemoveMissing(Child(v, q[0]).value, q[1..]);
      SetSame(v, q[0]);
    } else if |q| == 1 {
      assert q[1..] == [];
    }
  }

  /** Removing an array item makes the array's last position disappear. */
  lemma RemovedItem(v: Value, q: Path) returns (u: Path)
    requires |q| > 0 && q[|q| - 1].Index? && Get(v, q).Some?
    ensures |u| == |q| && u[..|q| - 1] == q[..|q| - 1] && u[|q| - 1].Index?
    ensures Get(v, u).Some? && Get(Remove(v, q), u).None?
    decreases |q|
  {
    var s := q[0];
    if |q| == 1 {
      assert q == [s] && q[1..] == [];
      u := [Index(|v.items| - 1)];
      assert u[1..] == [];
    } else {
      var c := Child(v, s).value;
      var w := RemovedItem(c, q[1..]);
      u := [s] + w;
      assert u[1..] == w;
      SetChildAt(v, s, Remove(c, q[1..]), s);
      assert u[..|q| - 1] == [s] + w[..|q| - 2] && q[..|q| - 1] == [s] + q[1..][..|q| - 2];
    }
  }

  lemma {:induction false} GoneBelow(body: Value, u: Path, p: Path, root: Value)
    requires Get(body, u).None? && u < p
    ensures !Mutant(root, body, p, Drop)
  {
    var parent := p[..|p| - 1];
    assert parent == u + parent[|u|..];
    GetConcat(body, u, parent[|u|..]);
  }

  lemma {:induction false} StaysOrSpoils(root: Value, p: Path, q: Path)
    requires WellFormed(root) && Chosen(root, p, MissingKey) && q != p && !(p < q)
    ensures !Mutant(root, Remove(root, q), p, Drop)
  {
    var body := Remove(root, q);
    if Get(root, q).None? || q == [] {
      RemoveMissing(root, q);
    } else if q[|q| - 1].Index? {
      var u := RemovedItem(root, q);
      if Related(u, p) {
        PrefixOf(u, q, p);
        GoneBelow(body, u, p, root);
      }
    } else {
      StepsAreKeysOrIndices(root, q);
      if q < p {
        EditLands(root, q, Drop);
        GoneBelow(body, q, p, root);
      } else {
        EditIsLocal(root, q, Drop, p);
      }
    }
  }

  lemma {:induction false} StepsAreKeysOrIndices(v: Value, q: Path)
    requires Get(v, q).Some? && |q| > 0
    ensures q[|q| - 1].Key? || q[|q| - 1].Index?
    decreases |q|
  {
    if |q| > 1 { StepsAreKeysOrIndices(Child(v, q[0]).value, q[1..]); }
  }

  lemma SharedPrefix(u: Path, q: Path, p: Path)
    requires |u| == |q| > 0 && u[..|q| - 1] == q[..|q| - 1] && p <= u && |p| < |q|
    ensures p < q
  {
    assert p == u[..|q| - 1][..|p|];
    assert p == q[..|q| - 1][..|p|];
  }

  lemma PrefixOf(u: Path, q: Path, p: Path)
    requires |u| == |q| > 0 && u[..|q| - 1] == q[..|q| - 1] && u[|q| - 1].Index?
    requires |p| > 0 && p[|p| - 1].Key? && !(p < q) && Related(u, p)
    ensures u < p
  {
    if p <= u && |p| < |q| { SharedPrefix(u, q, p); }
  }

  /** Dropping a key leaves the body without it, and otherwise as it was, exactly when the key's path
      survives being printed and parsed. */
  lemma {:induction false} DropsExactlyCleanPaths(root: Value, p: Path)
    requires WellFormed(root) && Chosen(root, p, MissingKey)
    ensures Mutant(root, Edited(root, ParseFuzzPath(Render(p)), Drop), p, Drop) <==> Clean(p, false)
  {
    var q := ParseFuzzPath(Render(p));
    PrintParse(p);
    ParsedIsClean(TrimDollars(Render(p)), "", false);
    if Clean(p, false) {
      EditIsMutant(root, p, MissingKey);
    } else {
      if p < q {
        forall i | 0 <= i < |p| ensures CleanSegment(p[i], false) { assert p[i] == q[i]; }
      }
      StaysOrSpoils(root, p, q);
    }
  }

  lemma DottedPath(q: Path)
    requires q == [Key("a"), Key("b")]
    ensures ParseFuzzPath("$.a.b") == q
  {
    assert q[1..] == [Key("b")] && q[1..][1..] == [];
    assert Pieces(q[1..]) == ".b" && Pieces(q) == ".a" + ".b";
    assert Render(q) == "$.a.b";
    assert CleanKey("a") && CleanKey("b");
    PrintParse(q);
  }

  /** A key with a dot in it: the case that should drop it is the unchanged body. */
  lemma DottedKeyIsKept()
    ensures var root := Obj([Field("a.b", Null)]);
      |Mutations(root)| == 4 && Mutations(root)[2].kind == MissingKey && Mutations(root)[2].mutatedBody == root
  {
    var root := Obj([Field("a.b", Null)]);
    MutationCount(root);
    var target := Under(Top, Key("a.b"));
    var q := [Key("a"), Key("b")];
    DottedPath(q);
    assert Printed(target) == "$.a.b";
    assert Find(root.fields, "a") == None;
    RemoveMissing(root, q);
    assert Mutations(root)[2] == Cases(root, Top, root)[0] == KeyCases(root.fields, 1, Top, root, MissingKey)[0];
  }
}
