/** The adaptive learner: it masks several responses, records the values found at each printed path,
    and proposes a rule for every path whose value varied. */
module Learner {
  import opened Json
  import opened Text
  import opened Paths
  import opened RuleTrie
  import opened Masker
  import opened MaskerAgreement
  import opened MaskLaws
  import opened Navigation
  import opened Skeletons

  const LEARNED_TOKEN := "<MASKED_LEARNED_TOKEN>"

  /** One scalar met by the walk: its printed path and its JSON text. */
  datatype Seen = Seen(path: string, text: string)

  /** The scalars of a document, in the order the walk meets them. */
  function Leaves(v: Value, at: Place, repr: Value -> string): seq<Seen>
    decreases v, 0
  {
    match v
    case Obj(fs) => FieldLeaves(fs, |fs|, at, repr)
    case Arr(items) => ItemLeaves(items, |items|, at, repr)
    case _ => [Seen(Printed(at), repr(v))]
  }

  function FieldLeaves(fs: seq<Field>, n: nat, at: Place, repr: Value -> string): seq<Seen>
    requires n <= |fs|
    decreases fs, n
  {
    if n == 0 then []
    else FieldLeaves(fs, n - 1, at, repr) + Leaves(fs[n - 1].value, Under(at, Key(fs[n - 1].key)), repr)
  }

  function ItemLeaves(items: seq<Value>, n: nat, at: Place, repr: Value -> string): seq<Seen>
    requires n <= |items|
    decreases items, n
  {
    if n == 0 then [] else ItemLeaves(items, n - 1, at, repr) + Leaves(items[n - 1], Under(at, Index(n - 1)), repr)
  }

  function ResponseLeaves(vs: seq<Value>, repr: Value -> string): seq<Seen> {
    if |vs| == 0 then [] else ResponseLeaves(vs[..|vs| - 1], repr) + Leaves(vs[|vs| - 1], Top, repr)
  }

  // ---------------------------------------------------------------- the table of values by path

  type Table = map<string, set<string>>

  function Texts(m: Table, path: string): set<string> {
    if path in m then m[path] else {}
  }

  function Record(m: Table, s: Seen): Table {
    m[s.path := Texts(m, s.path) + {s.text}]
  }

  function RecordAll(m: Table, s: seq<Seen>): Table {
    if |s| == 0 then m else Record(RecordAll(m, s[..|s| - 1]), s[|s| - 1])
  }

  lemma {:induction false} RecordConcat(m: Table, s: seq<Seen>, t: seq<Seen>)
    ensures RecordAll(m, s + t) == RecordAll(RecordAll(m, s), t)
    decreases |t|
  {
    if |t| == 0 {
      assert s + t == s;
    } else {
      assert (s + t)[..|s + t| - 1] == s + t[..|t| - 1];
      RecordConcat(m, s, t[..|t| - 1]);
    }
  }

  lemma {:induction false} RecordedTexts(m: Table, s: seq<Seen>, path: string, text: string)
    ensures text in Texts(RecordAll(m, s), path) <==> text in Texts(m, path) || Seen(path, text) in s
  {
    if |s| != 0 {
      RecordedTexts(m, s[..|s| - 1], path, text);
      assert s == s[..|s| - 1] + [s[|s| - 1]];
    }
  }

  /** The paths at which more than one value was recorded. */
  function Unstable(m: Table): set<string> {
    set p | p in m && |m[p]| > 1
  }

  // ---------------------------------------------------------------- program

  datatype Report = Report(candidateRules: seq<MaskRule>, unstablePaths: seq<string>)

  function RulesFor(paths: seq<string>): seq<MaskRule> {
    seq(|paths|, i requires 0 <= i < |paths| => MaskRule(paths[i], LEARNED_TOKEN, None))
  }

  function MaskAll(vs: seq<Value>, ctx: MaskContext): seq<Value> {
    seq(|vs|, i requires 0 <= i < |vs| => MaskDocument(vs[i], ctx))
  }

  function UnstableIn(vs: seq<Value>, repr: Value -> string): set<string> {
    Unstable(RecordAll(map[], ResponseLeaves(vs, repr)))
  }

  /** `out: &mut HashMap<String, HashSet<String>>`. */
  class PathValues {
    var table: Table

    constructor ()
      ensures table == map[]
    {
      table := map[];
    }

    method Insert(path: string, text: string)
      modifies this
      ensures table == Record(old(table), Seen(path, text))
    {
      if path !in table {
        table := table[path := {}];
      }
      table := table[path := table[path] + {text}];
    }
  }

  method CollectPathValues(v: Value, at: Place, repr: Value -> string, out: PathValues)
    modifies out
    ensures out.table == RecordAll(old(out.table), Leaves(v, at, repr))
    decreases v, 1
  {
    match v {
      case Obj(fs) => CollectFields(fs, at, repr, out);
      case Arr(items) => CollectItems(items, at, repr, out);
      case _ =>
        out.Insert(Printed(at), repr(v));
        assert Leaves(v, at, repr)[..0] == [];
    }
  }

  method CollectFields(fs: seq<Field>, at: Place, repr: Value -> string, out: PathValues)
    modifies out
    ensures out.table == RecordAll(old(out.table), FieldLeaves(fs, |fs|, at, repr))
    decreases fs, 0
  {
    for i := 0 to |fs|
      invariant out.table == RecordAll(old(out.table), FieldLeaves(fs, i, at, repr))
    {
      var below := Under(at, Key(fs[i].key));
      RecordConcat(old(out.table), FieldLeaves(fs, i, at, repr), Leaves(fs[i].value, below, repr));
      CollectPathValues(fs[i].value, below, repr, out);
    }
  }

  method CollectItems(items: seq<Value>, at: Place, repr: Value -> string, out: PathValues)
    modifies out
    ensures out.table == RecordAll(old(out.table), ItemLeaves(items, |items|, at, repr))
    decreases items, 0
  {
    for i := 0 to |items|
      invariant out.table == RecordAll(old(out.table), ItemLeaves(items, i, at, repr))
    {
      RecordConcat(old(out.table), ItemLeaves(items, i, at, repr), Leaves(items[i], Under(at, Index(i)), repr));
      CollectPathValues(items[i], Under(at, Index(i)), repr, out);
    }
  }

  method MaskResponses(raw: seq<Value>, ctx: MaskContext) returns (masked: seq<Value>)
    ensures masked == MaskAll(raw, ctx)
  {
    masked := raw;
    for i := 0 to |raw|
      invariant |masked| == |raw|
      invariant forall j :: 0 <= j < i ==> masked[j] == MaskDocument(raw[j], ctx)
      invariant forall j :: i <= j < |raw| ==> masked[j] == raw[j]
    {
      var m := MaskValue(masked[i], ctx);
      masked := masked[i := m];
    }
  }

  method CollectResponses(masked: seq<Value>, repr: Value -> string) returns (table: Table)
    ensures table == RecordAll(map[], ResponseLeaves(masked, repr))
  {
    var out := new PathValues();
    for i := 0 to |masked|
      invariant out.table == RecordAll(map[], ResponseLeaves(masked[..i], repr))
    {
      RecordConcat(map[], ResponseLeaves(masked[..i], repr), Leaves(masked[i], Top, repr));
      assert masked[..i + 1][..i] == masked[..i];
      CollectPathValues(masked[i], Top, repr, out);
    }
    assert masked[..|masked|] == masked;
    table := out.table;
  }

  /** Visiting the table in whatever order the hash map yields its paths. */
  method FindUnstable(table: Table) returns (noisy: set<string>)
    ensures noisy == Unstable(table)
  {
    noisy := {};
    var left := table.Keys;
    while left != {}
      invariant left <= table.Keys && noisy == Unstable(table) - left
      decreases |left|
    {
      var path :| path in left;
      if |table[path]| > 1 { noisy := noisy + {path}; }
      left := left - {path};
    }
  }

  /** The paths ascend, and each has one rule, without a pattern. */
  ghost predicate OneRuleEach(report: Report) {
    && StrictlySorted(report.unstablePaths) && |report.candidateRules| == |report.unstablePaths|
    && forall i :: 0 <= i < |report.unstablePaths| ==>
        report.candidateRules[i] == MaskRule(report.unstablePaths[i], "<MASKED_LEARNED_TOKEN>", None)
  }

  /** The paths are those at which two of the documents hold different scalars. */
  ghost predicate ProposesVarying(report: Report, vs: seq<Value>) {
    forall path :: path in report.unstablePaths <==> VariesAt(vs, path)
  }

  /** What is learned from the responses once they are in: with fewer than two, nothing. */
  method LearnEndpoint(raw: seq<Value>, ctx: MaskContext, repr: Value -> string) returns (report: Report)
    ensures |raw| < 2 ==> report == Report([], [])
    ensures |raw| >= 2 ==> report.unstablePaths == SortedKeys(UnstableIn(MaskAll(raw, ctx), repr))
    ensures report.candidateRules == RulesFor(report.unstablePaths)
    ensures OneRuleEach(report)
    ensures |raw| >= 2 && Faithful(repr) && AllClean(MaskAll(raw, ctx)) ==> ProposesVarying(report, MaskAll(raw, ctx))
  {
    if |raw| < 2 {
      return Report([], []);
    }
    var masked := MaskResponses(raw, ctx);
    var table := CollectResponses(masked, repr);
    var noisy := FindUnstable(table);
    var paths := SortedKeys(noisy);
    SortedKeysSorted(noisy);
    report := Report(RulesFor(paths), paths);
    if Faithful(repr) && AllClean(masked) {
      forall path ensures path in report.unstablePaths <==> VariesAt(masked, path) {
        CandidatesAreUnstable(masked, repr, path);
      }
    }
  }

  // ---------------------------------------------------------------- candidates are the unstable paths

  /** The JSON text of a scalar determines it. */
  ghost predicate Faithful(repr: Value -> string) {
    forall a, b :: !IsContainer(a) && !IsContainer(b) && repr(a) == repr(b) ==> a == b
  }

  ghost predicate AllClean(vs: seq<Value>) {
    forall n :: 0 <= n < |vs| ==> WellFormed(vs[n]) && CleanDocument(vs[n])
  }

  /** Two of the documents hold different scalars at the path with this text. */
  ghost predicate VariesAt(vs: seq<Value>, path: string) {
    exists q: Path, i: nat, j: nat :: Varies(vs, q, i, j) && Render(q) == path
  }

  /** Responses `i` and `j` hold different scalars at one path. */
  ghost predicate Varies(vs: seq<Value>, q: Path, i: nat, j: nat) {
    && i < |vs| && j < |vs| && Get(vs[i], q).Some? && Get(vs[j], q).Some?
    && !IsContainer(Get(vs[i], q).value) && !IsContainer(Get(vs[j], q).value)
    && Get(vs[i], q).value != Get(vs[j], q).value
  }

  lemma LeafHasPath(v: Value, at: Place, repr: Value -> string, s: Seen) returns (q: Path)
    requires WellFormed(v) && s in Leaves(v, at, repr)
    ensures Get(v, q).Some? && !IsContainer(Get(v, q).value)
    ensures s == Seen(Render(Segments(at) + q), repr(Get(v, q).value))
    decreases v, 0
  {
    if IsContainer(v) {
      var c, seg := ChildWithLeaf(v, at, repr, s);
      var rest := LeafHasPath(c, Under(at, seg), repr, s);
      q := StepDown(v, at, seg, c, rest);
    } else {
      q := [];
      ScalarLeaf(v, at, repr);
      PrintedIsRendered(at);
      assert Segments(at) + q == Segments(at);
    }
  }

  lemma StepDown(v: Value, at: Place, seg: Segment, c: Value, rest: Path) returns (q: Path)
    requires Child(v, seg) == Some(c)
    ensures Get(v, q) == Get(c, rest) && Segments(Under(at, seg)) + rest == Segments(at) + q
  {
    q := [seg] + rest;
    GetStep(v, seg, rest);
    assert Segments(Under(at, seg)) + rest == Segments(at) + q;
  }

  lemma {:induction false} ScalarLeaf(v: Value, at: Place, repr: Value -> string)
    requires !IsContainer(v)
    ensures Leaves(v, at, repr) == [Seen(Printed(at), repr(v))]
  {
  }

  lemma ChildWithLeaf(v: Value, at: Place, repr: Value -> string, s: Seen)
    returns (c: Value, seg: Segment)
    requires WellFormed(v) && IsContainer(v) && s in Leaves(v, at, repr)
    ensures c < v && WellFormed(c) && Child(v, seg) == Some(c) && s in Leaves(c, Under(at, seg), repr)
  {
    if v.Obj? {
      var i := FieldWithLeaf(v.fields, |v.fields|, at, repr, s);
      c, seg := v.fields[i].value, Key(v.fields[i].key);
      FindDistinct(v.fields, i);
      assert v.fields[i] in v.fields;
    } else {
      var i := ItemWithLeaf(v.items, |v.items|, at, repr, s);
      c, seg := v.items[i], Index(i);
    }
  }

  lemma FieldWithLeaf(fs: seq<Field>, n: nat, at: Place, repr: Value -> string, s: Seen)
    returns (i: nat)
    requires n <= |fs| && s in FieldLeaves(fs, n, at, repr)
    ensures i < n && s in Leaves(fs[i].value, Under(at, Key(fs[i].key)), repr)
    decreases n
  {
    if s in Leaves(fs[n - 1].value, Under(at, Key(fs[n - 1].key)), repr) { i := n - 1; }
    else { i := FieldWithLeaf(fs, n - 1, at, repr, s); }
  }

  lemma ItemWithLeaf(items: seq<Value>, n: nat, at: Place, repr: Value -> string, s: Seen)
    returns (i: nat)
    requires n <= |items| && s in ItemLeaves(items, n, at, repr)
    ensures i < n && s in Leaves(items[i], Under(at, Index(i)), repr)
    decreases n
  {
    if s in Leaves(items[n - 1], Under(at, Index(n - 1)), repr) { i := n - 1; }
    else { i := ItemWithLeaf(items, n - 1, at, repr, s); }
  }

  lemma {:induction false} FieldLeavesIn(fs: seq<Field>, n: nat, i: nat, at: Place, repr: Value -> string, s: Seen)
    requires i < n <= |fs| && s in Leaves(fs[i].value, Under(at, Key(fs[i].key)), repr)
    ensures s in FieldLeaves(fs, n, at, repr)
    decreases n
  {
    if i < n - 1 { FieldLeavesIn(fs, n - 1, i, at, repr, s); }
  }

  lemma {:induction false} ItemLeavesIn(items: seq<Value>, n: nat, i: nat, at: Place, repr: Value -> string, s: Seen)
    requires i < n <= |items| && s in Leaves(items[i], Under(at, Index(i)), repr)
    ensures s in ItemLeaves(items, n, at, repr)
    decreases n
  {
    if i < n - 1 { ItemLeavesIn(items, n - 1, i, at, repr, s); }
  }

  lemma {:induction false} PathBelow(at: Place, q: Path)
    requires |q| > 0
    ensures Segments(Under(at, q[0])) + q[1..] == Segments(at) + q
  {
  }

  lemma {:induction false} ChildLeavesIn(v: Value, at: Place, repr: Value -> string, seg: Segment, c: Value, s: Seen)
    requires Child(v, seg) == Some(c) && s in Leaves(c, Under(at, seg), repr)
    ensures s in Leaves(v, at, repr)
  {
    if v.Obj? {
      FieldLeavesIn(v.fields, |v.fields|, Find(v.fields, seg.k).value, at, repr, s);
    } else {
      ItemLeavesIn(v.items, |v.items|, seg.i, at, repr, s);
    }
  }

  lemma {:induction false} PathHasLeaf(v: Value, at: Place, repr: Value -> string, q: Path)
    requires Get(v, q).Some? && !IsContainer(Get(v, q).value)
    ensures Seen(Render(Segments(at) + q), repr(Get(v, q).value)) in Leaves(v, at, repr)
    decreases |q|
  {
    if |q| == 0 {
      PrintedIsRendered(at);
      assert Segments(at) + q == Segments(at);
    } else {
      var c := Child(v, q[0]).value;
      PathHasLeaf(c, Under(at, q[0]), repr, q[1..]);
      PathBelow(at, q);
      ChildLeavesIn(v, at, repr, q[0], c, Seen(Render(Segments(at) + q), repr(Get(v, q).value)));
    }
  }

  lemma SeenInSome(vs: seq<Value>, repr: Value -> string, s: Seen) returns (i: nat)
    requires s in ResponseLeaves(vs, repr)
    ensures i < |vs| && s in Leaves(vs[i], Top, repr)
  {
    if s in Leaves(vs[|vs| - 1], Top, repr) { i := |vs| - 1; } else { i := SeenInSome(vs[..|vs| - 1], repr, s); }
  }

  lemma {:induction false} SeenInAll(vs: seq<Value>, repr: Value -> string, i: nat, s: Seen)
    requires i < |vs| && s in Leaves(vs[i], Top, repr)
    ensures s in ResponseLeaves(vs, repr)
  {
    if i < |vs| - 1 { SeenInAll(vs[..|vs| - 1], repr, i, s); }
  }

  lemma MoreThanOne<T>(s: set<T>)
    ensures |s| > 1 <==> exists a, b :: a in s && b in s && a != b
  {
    if |s| > 1 {
      var a :| a in s;
      assert |s - {a}| > 0;
      var b :| b in s - {a};
    }
    if a, b :| a in s && b in s && a != b {
      assert {a, b} <= s;
      assert |s - {a, b}| == |s| - |{a, b}|;
    }
  }

  /** A path is unstable exactly when two different texts were seen at it. */
  lemma {:induction false} UnstableSeesTwo(vs: seq<Value>, repr: Value -> string, path: string)
    ensures path in UnstableIn(vs, repr) <==>
      exists t, u :: Seen(path, t) in ResponseLeaves(vs, repr) && Seen(path, u) in ResponseLeaves(vs, repr) && t != u
  {
    var s := ResponseLeaves(vs, repr);
    var m := RecordAll(map[], s);
    forall t ensures t in Texts(m, path) <==> Seen(path, t) in s { RecordedTexts(map[], s, path, t); }
    MoreThanOne(Texts(m, path));
  }

  lemma CandidateVaries(vs: seq<Value>, repr: Value -> string, path: string)
    returns (q: Path, i: nat, j: nat)
    requires path in UnstableIn(vs, repr)
    requires forall n :: 0 <= n < |vs| ==> WellFormed(vs[n]) && CleanDocument(vs[n])
    ensures Varies(vs, q, i, j) && Render(q) == path
  {
    UnstableSeesTwo(vs, repr, path);
    var s := ResponseLeaves(vs, repr);
    var t, u :| Seen(path, t) in s && Seen(path, u) in s && t != u;
    i := SeenInSome(vs, repr, Seen(path, t));
    j := SeenInSome(vs, repr, Seen(path, u));
    q := LeafHasPath(vs[i], Top, repr, Seen(path, t));
    var r := LeafHasPath(vs[j], Top, repr, Seen(path, u));
    assert [] + q == q && [] + r == r;
    GetIsClean(vs[i], q);
    GetIsClean(vs[j], r);
    RenderInjective(q, r, false);
  }

  lemma VaryingIsCandidate(vs: seq<Value>, repr: Value -> string, q: Path, i: nat, j: nat)
    requires Faithful(repr) && Varies(vs, q, i, j)
    ensures Render(q) in UnstableIn(vs, repr)
  {
    PathHasLeaf(vs[i], Top, repr, q);
    PathHasLeaf(vs[j], Top, repr, q);
    assert [] + q == q;
    var a, b := Get(vs[i], q).value, Get(vs[j], q).value;
    SeenInAll(vs, repr, i, Seen(Render(q), repr(a)));
    SeenInAll(vs, repr, j, Seen(Render(q), repr(b)));
    UnstableSeesTwo(vs, repr, Render(q));
  }

  /** A path is proposed exactly when two masked responses hold different scalars there: nothing
      stable is ever proposed, and nothing that varies is missed. */
  lemma CandidatesAreUnstable(vs: seq<Value>, repr: Value -> string, path: string)
    requires Faithful(repr) && AllClean(vs)
    ensures path in UnstableIn(vs, repr) <==> VariesAt(vs, path)
  {
    if path in UnstableIn(vs, repr) {
      var q, i, j := CandidateVaries(vs, repr, path);
    }
    if q: Path, i: nat, j: nat :| Varies(vs, q, i, j) && Render(q) == path {
      VaryingIsCandidate(vs, repr, q, i, j);
    }
  }

  // ---------------------------------------------------------------- learning closes the noise

  /** Two documents with one skeleton differ at most at scalars whose printed paths are in the set. */
  ghost predicate DifferOnly(a: Value, b: Value, at: Place, paths: set<string>)
    decreases a
  {
    match (a, b)
    case (Obj(fs), Obj(gs)) =>
      forall i, j {:trigger fs[i], gs[j]} :: 0 <= i < |fs| && 0 <= j < |gs| && fs[i].key == gs[j].key ==>
        DifferOnly(fs[i].value, gs[j].value, Under(at, Key(fs[i].key)), paths)
    case (Arr(xs), Arr(ys)) =>
      |xs| == |ys| && forall i :: 0 <= i < |xs| ==> DifferOnly(xs[i], ys[i], Under(at, Index(i)), paths)
    case _ => a == b || Printed(at) in paths
  }

  ghost predicate Covered(a: Value, b: Value, at: Place, repr: Value -> string, paths: set<string>) {
    forall s, t :: s in Leaves(a, at, repr) && t in Leaves(b, at, repr) && s.path == t.path && s != t ==>
      s.path in paths
  }

  lemma {:induction false} CoveredDifferOnly(a: Value, b: Value, at: Place, repr: Value -> string, paths: set<string>)
    requires Faithful(repr) && WellFormed(a) && WellFormed(b) && SameSkeleton(a, b)
    requires Covered(a, b, at, repr, paths)
    ensures DifferOnly(a, b, at, paths)
    decreases a
  {
    SkeletonKinds(a, b);
    if a.Obj? {
      var fs, gs := a.fields, b.fields;
      SkeletonObjects(fs, gs);
      forall i, j {:trigger fs[i], gs[j]} | 0 <= i < |fs| && 0 <= j < |gs| && fs[i].key == gs[j].key
        ensures DifferOnly(fs[i].value, gs[j].value, Under(at, Key(fs[i].key)), paths)
      {
        CoveredField(fs, i, gs, j, at, repr, paths);
        CoveredDifferOnly(fs[i].value, gs[j].value, Under(at, Key(fs[i].key)), repr, paths);
      }
    } else if a.Arr? {
      var xs, ys := a.items, b.items;
      SkeletonArrays(xs, ys);
      forall i | 0 <= i < |xs| ensures DifferOnly(xs[i], ys[i], Under(at, Index(i)), paths) {
        CoveredItem(xs, ys, i, at, repr, paths);
        CoveredDifferOnly(xs[i], ys[i], Under(at, Index(i)), repr, paths);
      }
    } else {
      CoveredScalar(a, b, at, repr, paths);
    }
  }

  lemma {:induction false} CoveredScalar(a: Value, b: Value, at: Place, repr: Value -> string, paths: set<string>)
    requires Faithful(repr) && !IsContainer(a) && !IsContainer(b) && Covered(a, b, at, repr, paths)
    ensures a == b || Printed(at) in paths
  {
    var s, t := Seen(Printed(at), repr(a)), Seen(Printed(at), repr(b));
    assert Leaves(a, at, repr) == [s] && Leaves(b, at, repr) == [t];
    assert s in Leaves(a, at, repr) && t in Leaves(b, at, repr);
  }

  lemma CoveredField(fs: seq<Field>, i: nat, gs: seq<Field>, j: nat, at: Place,
          repr: Value -> string, paths: set<string>)
    requires i < |fs| && j < |gs| && fs[i].key == gs[j].key && Covered(Obj(fs), Obj(gs), at, repr, paths)
    ensures Covered(fs[i].value, gs[j].value, Under(at, Key(fs[i].key)), repr, paths)
  {
    var below := Under(at, Key(fs[i].key));
    var x, y := fs[i].value, gs[j].value;
    forall s, t | s in Leaves(x, below, repr) && t in Leaves(y, below, repr) && s.path == t.path && s != t
      ensures s.path in paths
    {
      FieldLeavesIn(fs, |fs|, i, at, repr, s);
      FieldLeavesIn(gs, |gs|, j, at, repr, t);
      assert s in Leaves(Obj(fs), at, repr) && t in Leaves(Obj(gs), at, repr);
    }
  }

  lemma CoveredItem(xs: seq<Value>, ys: seq<Value>, i: nat, at: Place, repr: Value -> string,
          paths: set<string>)
    requires i < |xs| && i < |ys| && Covered(Arr(xs), Arr(ys), at, repr, paths)
    ensures Covered(xs[i], ys[i], Under(at, Index(i)), repr, paths)
  {
    var below := Under(at, Index(i));
    forall s, t | s in Leaves(xs[i], below, repr) && t in Leaves(ys[i], below, repr) && s.path == t.path && s != t
      ensures s.path in paths
    {
      ItemLeavesIn(xs, |xs|, i, at, repr, s);
      ItemLeavesIn(ys, |ys|, i, at, repr, t);
      assert s in Leaves(Arr(xs), at, repr) && t in Leaves(Arr(ys), at, repr);
    }
  }

  /** The context after learning: the old rules and the candidates are among its rules, nothing has a
      pattern, and nothing else changed. */
  ghost predicate Extends(next: MaskContext, ctx: MaskContext, paths: set<string>) {
    && WellBuilt(next) && PatternFree(next)
    && next.(rules := ctx.rules, compiled := ctx.compiled) == ctx
    && (forall i :: 0 <= i < |ctx.rules| ==> ctx.rules[i] in next.rules)
    && forall p :: p in paths ==> ProposedIn(next, p)
  }

  ghost predicate ProposedIn(next: MaskContext, path: string) {
    exists j :: 0 <= j < |next.rules| && next.rules[j].rule == MaskRule(path, LEARNED_TOKEN, None)
  }

  /** What holds at every position the next masking reaches. */
  ghost predicate Reached(ctx: MaskContext, next: MaskContext, paths: set<string>, at: Place) {
    && WellBuilt(ctx) && |ctx.rules| <= SENTINEL && Extends(next, ctx, paths)
    && Unmatched(ctx, at) && PlainPath(ctx, Segments(at)) && Clean(Segments(at), false)
  }

  lemma {:induction false} ListMatchKept(ctx: MaskContext, next: MaskContext, paths: set<string>, current: seq<Segment>)
    requires Extends(next, ctx, paths) && ListMatch(ctx.rules, current, 0).Some?
    ensures ListMatch(next.rules, current, 0).Some?
  {
    var j := ListMatchFrom(ctx.rules, current, 0);
    assert ctx.rules[j] in next.rules;
    var k :| 0 <= k < |next.rules| && next.rules[k] == ctx.rules[j];
    var first := FindFirstMatch(next.rules, current, 0, k);
  }

  /** Clean keys hold no brackets. */
  lemma {:induction false} CleanPieces(ctx: MaskContext, at: Place, j: nat)
    requires j < |ctx.rules| && Clean(Segments(at), false) && Segments(at) == KeySegments(PiecesOf(ctx, j))
    ensures NoBrackets(PiecesOf(ctx, j))
  {
    forall i | 0 <= i < |PiecesOf(ctx, j)|
      ensures '[' !in PiecesOf(ctx, j)[i]
    {
      assert CleanSegment(Segments(at)[i], false);
    }
  }

  /** Whatever the old context matched, the new one matches. */
  lemma MatchKept(ctx: MaskContext, next: MaskContext, paths: set<string>, at: Place)
    requires Reached(ctx, next, paths, at) && MatchRule(ctx, Current(at), true).Some?
    ensures MatchRule(next, Current(at), true).Some?
  {
    if ListMatch(ctx.rules, Current(at), 0).None? {
      var j := FiresAtItsPath(ctx, at);
      CleanPieces(ctx, at, j);
      RuleOfPieces(ctx, j);
      MatchesItself(PiecesOf(ctx, j));
      var first := FindFirstMatch(ctx.rules, Current(at), 0, j);
    }
    ListMatchKept(ctx, next, paths, Current(at));
  }

  /** A proposed path is matched where it points. */
  lemma {:induction false} ProposalMatches(ctx: MaskContext, next: MaskContext, paths: set<string>, at: Place)
    requires Reached(ctx, next, paths, at) && Printed(at) in paths
    ensures MatchRule(next, Current(at), true).Some?
  {
    assert ProposedIn(next, Printed(at));
    var j :| 0 <= j < |next.rules| && next.rules[j].rule == MaskRule(Printed(at), LEARNED_TOKEN, None);
    var p := Segments(at);
    PrintedIsRendered(at);
    forall i | 0 <= i < |p|
      ensures CleanSegment(p[i], true) && SegmentMatches(p[i], p[i])
    {
      assert CleanSegment(p[i], false);
    }
    PrintParse(p);
    assert next.rules[j].segments == Current(at);
    var first := FindFirstMatch(next.rules, Current(at), 0, j);
  }

  lemma {:induction false} Closes(v: Value, w: Value, ctx: MaskContext, next: MaskContext, paths: set<string>,
          at: Place, parentKey: Option<string>, depth: nat)
    requires Reached(ctx, next, paths, at) && PatternFree(ctx)
    requires WellFormed(v) && WellFormed(w) && PlainKeys(ctx, v) && PlainKeys(ctx, w)
    requires Comparable(Mask(v, ctx, at, parentKey, depth, true), Mask(w, ctx, at, parentKey, depth, true), at, paths)
    ensures Canon(Mask(v, next, at, parentKey, depth, true), true)
         == Canon(Mask(w, next, at, parentKey, depth, true), true)
    decreases v, 1
  {
    if depth <= ctx.maxDepth {
      if MatchRule(next, Current(at), true).Some? {
        var j := MatchedRule(next, Current(at), true);
      } else {
        if MatchRule(ctx, Current(at), true).Some? { MatchKept(ctx, next, paths, at); }
        UnmatchedClose(v, w, ctx, next, paths, at, parentKey, depth);
      }
    }
  }

  lemma {:induction false} UnmatchedClose(v: Value, w: Value, ctx: MaskContext, next: MaskContext, paths: set<string>,
          at: Place, parentKey: Option<string>, depth: nat)
    requires Reached(ctx, next, paths, at) && PatternFree(ctx)
    requires WellFormed(v) && WellFormed(w) && PlainKeys(ctx, v) && PlainKeys(ctx, w)
    requires Comparable(Mask(v, ctx, at, parentKey, depth, true), Mask(w, ctx, at, parentKey, depth, true), at, paths)
    requires depth <= ctx.maxDepth && MatchRule(next, Current(at), true).None?
    requires MatchRule(ctx, Current(at), true).None?
    ensures Canon(Mask(v, next, at, parentKey, depth, true), true)
         == Canon(Mask(w, next, at, parentKey, depth, true), true)
    decreases v, 0
  {
    SameKinds(v, w, ctx, at, parentKey, depth);
    if v.Obj? {
      MaskedObject(v.fields, ctx, at, parentKey, depth, true);
      MaskedObject(w.fields, ctx, at, parentKey, depth, true);
      MaskedObject(v.fields, next, at, parentKey, depth, true);
      MaskedObject(w.fields, next, at, parentKey, depth, true);
      FieldsClose(v.fields, w.fields, ctx, next, paths, at, depth);
    } else if v.Arr? {
      MaskedArray(v.items, ctx, at, parentKey, depth, true);
      MaskedArray(w.items, ctx, at, parentKey, depth, true);
      MaskedArray(v.items, next, at, parentKey, depth, true);
      MaskedArray(w.items, next, at, parentKey, depth, true);
      ItemsClose(v.items, w.items, ctx, next, paths, at, parentKey, depth);
    } else {
      ScalarsClose(v, w, ctx, next, paths, at, parentKey, depth);
    }
  }

  lemma {:induction false} SameKinds(v: Value, w: Value, ctx: MaskContext, at: Place, parentKey: Option<string>,
          depth: nat)
    requires depth <= ctx.maxDepth && MatchRule(ctx, Current(at), true).None?
    requires SameSkeleton(Mask(v, ctx, at, parentKey, depth, true), Mask(w, ctx, at, parentKey, depth, true))
    ensures v.Obj? == w.Obj? && v.Arr? == w.Arr?
  {
    SkeletonKinds(Mask(v, ctx, at, parentKey, depth, true), Mask(w, ctx, at, parentKey, depth, true));
    if !IsContainer(v) { MaskScalarTwice(v, ctx, parentKey); }
    if !IsContainer(w) { MaskScalarTwice(w, ctx, parentKey); }
  }

  ghost predicate Comparable(a: Value, b: Value, at: Place, paths: set<string>) {
    SameSkeleton(a, b) && DifferOnly(a, b, at, paths) && CleanDocument(a) && CleanDocument(b)
  }

  lemma {:induction false} ScalarsClose(v: Value, w: Value, ctx: MaskContext, next: MaskContext, paths: set<string>,
          at: Place, parentKey: Option<string>, depth: nat)
    requires Reached(ctx, next, paths, at) && depth <= ctx.maxDepth && !IsContainer(v) && !IsContainer(w)
    requires MatchRule(next, Current(at), true).None? && MatchRule(ctx, Current(at), true).None?
    requires Comparable(Mask(v, ctx, at, parentKey, depth, true), Mask(w, ctx, at, parentKey, depth, true), at, paths)
    ensures Mask(v, next, at, parentKey, depth, true) == Mask(w, next, at, parentKey, depth, true)
  {
    if Printed(at) in paths { ProposalMatches(ctx, next, paths, at); }
    MaskScalarTwice(v, ctx, parentKey);
    MaskScalarTwice(w, ctx, parentKey);
  }

  lemma StepReached(ctx: MaskContext, next: MaskContext, paths: set<string>, at: Place, s: Segment)
    requires Reached(ctx, next, paths, at) && MatchRule(ctx, Current(at), true).None?
    requires CleanSegment(s, false) && (s.Key? ==> PlainKey(ctx, s.k))
    ensures Reached(ctx, next, paths, Under(at, s))
  {
    PlainBelow(ctx, Segments(at), s);
    CleanBelow(Segments(at), s);
  }

  lemma CleanBelow(p: Path, s: Segment)
    requires Clean(p, false) && CleanSegment(s, false)
    ensures Clean(p + [s], false)
  {
  }

  lemma {:induction false} FieldsClose(fs: seq<Field>, gs: seq<Field>, ctx: MaskContext, next: MaskContext,
          paths: set<string>, at: Place, depth: nat)
    requires Reached(ctx, next, paths, at) && PatternFree(ctx) && MatchRule(ctx, Current(at), true).None?
    requires WellFormed(Obj(fs)) && WellFormed(Obj(gs)) && PlainKeys(ctx, Obj(fs)) && PlainKeys(ctx, Obj(gs))
    requires Comparable(Obj(MaskFields(fs, ctx, at, depth, true)), Obj(MaskFields(gs, ctx, at, depth, true)), at, paths)
    ensures Canon(Obj(MaskFields(fs, next, at, depth, true)), true)
         == Canon(Obj(MaskFields(gs, next, at, depth, true)), true)
    decreases fs, 0
  {
    var mf, mg := MaskFields(fs, ctx, at, depth, true), MaskFields(gs, ctx, at, depth, true);
    var nf, ng := MaskFields(fs, next, at, depth, true), MaskFields(gs, next, at, depth, true);
    MaskFieldsKeys(fs, ctx, at, depth, true);
    MaskFieldsKeys(gs, ctx, at, depth, true);
    MaskFieldsKeys(fs, next, at, depth, true);
    MaskFieldsKeys(gs, next, at, depth, true);
    SkeletonObjects(mf, mg);
    forall i, j {:trigger nf[i], ng[j]} | 0 <= i < |nf| && 0 <= j < |ng| && nf[i].key == ng[j].key
      ensures Canon(nf[i].value, true) == Canon(ng[j].value, true)
    {
      var s := Key(fs[i].key);
      assert mf[i].key == mg[j].key == fs[i].key;
      StepReached(ctx, next, paths, at, s);
      Closes(fs[i].value, gs[j].value, ctx, next, paths, Under(at, s), Some(fs[i].key), depth + 1);
    }
    EqualCanonObjects(nf, ng, true);
  }

  lemma {:induction false} ItemsClose(xs: seq<Value>, ys: seq<Value>, ctx: MaskContext, next: MaskContext,
          paths: set<string>, at: Place, parentKey: Option<string>, depth: nat)
    requires Reached(ctx, next, paths, at) && PatternFree(ctx) && MatchRule(ctx, Current(at), true).None?
    requires WellFormed(Arr(xs)) && WellFormed(Arr(ys)) && PlainKeys(ctx, Arr(xs)) && PlainKeys(ctx, Arr(ys))
    requires Comparable(Arr(MaskItems(xs, ctx, at, parentKey, depth, true)),
                        Arr(MaskItems(ys, ctx, at, parentKey, depth, true)), at, paths)
    ensures Canon(Arr(MaskItems(xs, next, at, parentKey, depth, true)), true)
         == Canon(Arr(MaskItems(ys, next, at, parentKey, depth, true)), true)
    decreases xs, 0
  {
    var mx, my := MaskItems(xs, ctx, at, parentKey, depth, true), MaskItems(ys, ctx, at, parentKey, depth, true);
    var nx, ny := MaskItems(xs, next, at, parentKey, depth, true), MaskItems(ys, next, at, parentKey, depth, true);
    SkeletonArrays(mx, my);
    forall i | 0 <= i < |xs| ensures Canon(nx[i], true) == Canon(ny[i], true) {
      StepReached(ctx, next, paths, at, Index(i));
      assert mx[i] == Mask(xs[i], ctx, Under(at, Index(i)), parentKey, depth + 1, true);
      assert my[i] == Mask(ys[i], ctx, Under(at, Index(i)), parentKey, depth + 1, true);
      Closes(xs[i], ys[i], ctx, next, paths, Under(at, Index(i)), parentKey, depth + 1);
    }
    CanonArrays(nx, ny, true);
  }

  lemma {:induction false} MaskWellFormed(v: Value, ctx: MaskContext, at: Place, parentKey: Option<string>, depth: nat)
    requires WellFormed(v)
    ensures WellFormed(Mask(v, ctx, at, parentKey, depth, true))
    decreases v, 1
  {
    if depth > ctx.maxDepth || MatchRule(ctx, Current(at), true).Some? {
    } else if v.Obj? {
      MaskFieldsWellFormed(v.fields, ctx, at, depth);
    } else if v.Arr? {
      MaskItemsWellFormed(v.items, ctx, at, parentKey, depth);
    }
  }

  lemma {:induction false} MaskFieldsWellFormed(fs: seq<Field>, ctx: MaskContext, at: Place, depth: nat)
    requires WellFormed(Obj(fs))
    ensures WellFormed(Obj(MaskFields(fs, ctx, at, depth, true)))
    decreases fs, 0
  {
    var ms := MaskFields(fs, ctx, at, depth, true);
    MaskFieldsKeys(fs, ctx, at, depth, true);
    forall i | 0 <= i < |fs| ensures WellFormed(ms[i].value) {
      MaskWellFormed(fs[i].value, ctx, Under(at, Key(fs[i].key)), Some(fs[i].key), depth + 1);
    }
  }

  lemma {:induction false} MaskItemsWellFormed(items: seq<Value>, ctx: MaskContext, at: Place,
          parentKey: Option<string>, depth: nat)
    requires WellFormed(Arr(items))
    ensures WellFormed(Arr(MaskItems(items, ctx, at, parentKey, depth, true)))
    decreases items, 0
  {
    var ms := MaskItems(items, ctx, at, parentKey, depth, true);
    forall i | 0 <= i < |items| ensures WellFormed(ms[i]) {
      MaskWellFormed(items[i], ctx, Under(at, Index(i)), parentKey, depth + 1);
    }
  }

  ghost predicate CleanResponses(raw: seq<Value>, ctx: MaskContext) {
    forall n :: 0 <= n < |raw| ==>
      WellFormed(raw[n]) && PlainKeys(ctx, raw[n]) && CleanDocument(MaskDocument(raw[n], ctx))
  }

  ghost predicate Alike(v: Value, w: Value, ctx: MaskContext) {
    SameSkeleton(MaskDocument(v, ctx), MaskDocument(w, ctx))
  }

  /** Every pair of responses of one skeleton masks to one document. */
  ghost predicate NoiseClosed(raw: seq<Value>, ctx: MaskContext, next: MaskContext) {
    forall i, j :: 0 <= i < |raw| && 0 <= j < |raw| && Alike(raw[i], raw[j], ctx) ==>
      Canon(MaskDocument(raw[i], next), true) == Canon(MaskDocument(raw[j], next), true)
  }

  /** Learning closes the noise: when the masked responses have one skeleton and clean keys, a context
      that also has the candidate rules masks all of them to one document. */
  lemma LearningClosesNoise(raw: seq<Value>, ctx: MaskContext, next: MaskContext,
          repr: Value -> string, i: nat, j: nat)
    requires Faithful(repr) && WellBuilt(ctx) && |ctx.rules| <= SENTINEL && PatternFree(ctx)
    requires Extends(next, ctx, UnstableIn(MaskAll(raw, ctx), repr))
    requires CleanResponses(raw, ctx) && i < |raw| && j < |raw| && Alike(raw[i], raw[j], ctx)
    ensures Canon(MaskDocument(raw[i], next), true) == Canon(MaskDocument(raw[j], next), true)
  {
    var masked := MaskAll(raw, ctx);
    var paths := UnstableIn(masked, repr);
    var a, b := masked[i], masked[j];
    forall s, t | s in Leaves(a, Top, repr) && t in Leaves(b, Top, repr) && s.path == t.path && s != t
      ensures s.path in paths
    {
      SeenInAll(masked, repr, i, s);
      SeenInAll(masked, repr, j, t);
      assert s == Seen(s.path, s.text) && t == Seen(s.path, t.text);
      UnstableSeesTwo(masked, repr, s.path);
    }
    MaskWellFormed(raw[i], ctx, Top, None, 0);
    MaskWellFormed(raw[j], ctx, Top, None, 0);
    CoveredDifferOnly(a, b, Top, repr, paths);
    Closes(raw[i], raw[j], ctx, next, paths, Top, None, 0);
  }

  // ---------------------------------------------------------------- learning, then masking again

  ghost predicate NoPatterns(rules: seq<MaskRule>) {
    forall i :: 0 <= i < |rules| ==> rules[i].pattern.None?
  }

  /** The context built from the overrides and the candidates extends the one built from the overrides. */
  lemma {:induction false} CandidatesExtend(ctx: MaskContext, next: MaskContext, rules: seq<MaskRule>,
          paths: set<string>)
    requires WellBuilt(ctx) && WellBuilt(next) && next.(rules := ctx.rules, compiled := ctx.compiled) == ctx
    requires |ctx.rules| == |rules| && forall i :: 0 <= i < |rules| ==> ctx.rules[i].rule == rules[i]
    requires var more := RulesFor(SortedKeys(paths));
      |next.rules| == |rules| + |more| && forall i :: 0 <= i < |next.rules| ==> next.rules[i].rule == (rules + more)[i]
    requires NoPatterns(rules)
    ensures PatternFree(ctx) && Extends(next, ctx, paths)
  {
    var known := SortedKeys(paths);
    forall i | 0 <= i < |ctx.rules| ensures ctx.rules[i] in next.rules { assert ctx.rules[i] == next.rules[i]; }
    forall p | p in paths ensures ProposedIn(next, p) {
      assert p in known;
      var j :| 0 <= j < |known| && known[j] == p;
      assert next.rules[|rules| + j].rule == RulesFor(known)[j];
    }
  }

  /** What adaptive learning is for: mask with the configured rules and learn from two or more responses. With the
      context a user gets by adopting the candidates as overrides, the responses that agreed in structure no longer
      differ at all. */
  method LearnAndExtend(heuristics: bool, strictPii: bool, allowList: set<string>, globalRules: seq<MaskRule>,
                        overrides: seq<MaskRule>, re: Regexes, raw: seq<Value>, repr: Value -> string)
    returns (ctx: MaskContext, report: Report, next: MaskContext)
    requires |raw| >= 2
    ensures WellBuilt(ctx) && report.candidateRules == RulesFor(report.unstablePaths)
    ensures NoPatterns(globalRules + overrides) ==> Extends(next, ctx, UnstableIn(MaskAll(raw, ctx), repr))
    ensures NoPatterns(globalRules + overrides) && Faithful(repr) && |ctx.rules| <= SENTINEL && CleanResponses(raw, ctx)
      ==> NoiseClosed(raw, ctx, next)
  {
    ctx := NewContext(heuristics, strictPii, allowList, globalRules, overrides, re);
    report := LearnEndpoint(raw, ctx, repr);
    next := NewContext(heuristics, strictPii, allowList, globalRules, overrides + report.candidateRules, re);
    if NoPatterns(globalRules + overrides) { LearnedExtends(ctx, next, globalRules, overrides, report, raw, repr); }
  }

  lemma LearnedExtends(ctx: MaskContext, next: MaskContext, globalRules: seq<MaskRule>, overrides: seq<MaskRule>,
          report: Report, raw: seq<Value>, repr: Value -> string)
    requires WellBuilt(ctx) && WellBuilt(next) && next.(rules := ctx.rules, compiled := ctx.compiled) == ctx
    requires var rules := globalRules + overrides;
      |ctx.rules| == |rules| && forall i :: 0 <= i < |ctx.rules| ==> ctx.rules[i].rule == rules[i]
    requires var rules := globalRules + (overrides + report.candidateRules);
      |next.rules| == |rules| && forall i :: 0 <= i < |next.rules| ==> next.rules[i].rule == rules[i]
    requires report.candidateRules == RulesFor(report.unstablePaths)
    requires report.unstablePaths == SortedKeys(UnstableIn(MaskAll(raw, ctx), repr))
    requires NoPatterns(globalRules + overrides)
    ensures Extends(next, ctx, UnstableIn(MaskAll(raw, ctx), repr))
    ensures Faithful(repr) && |ctx.rules| <= SENTINEL && CleanResponses(raw, ctx) ==> NoiseClosed(raw, ctx, next)
  {
    assert globalRules + (overrides + report.candidateRules) == (globalRules + overrides) + report.candidateRules;
    CandidatesExtend(ctx, next, globalRules + overrides, UnstableIn(MaskAll(raw, ctx), repr));
    if Faithful(repr) && |ctx.rules| <= SENTINEL && CleanResponses(raw, ctx) { ClosedAll(raw, ctx, next, repr); }
  }

  lemma ClosedAll(raw: seq<Value>, ctx: MaskContext, next: MaskContext, repr: Value -> string)
    requires Faithful(repr) && WellBuilt(ctx) && |ctx.rules| <= SENTINEL && PatternFree(ctx)
    requires Extends(next, ctx, UnstableIn(MaskAll(raw, ctx), repr)) && CleanResponses(raw, ctx)
    ensures NoiseClosed(raw, ctx, next)
  {
    forall i, j | 0 <= i < |raw| && 0 <= j < |raw| && Alike(raw[i], raw[j], ctx)
      ensures Canon(MaskDocument(raw[i], next), true) == Canon(MaskDocument(raw[j], next), true)
    {
      LearningClosesNoise(raw, ctx, next, repr, i, j);
    }
  }
}
