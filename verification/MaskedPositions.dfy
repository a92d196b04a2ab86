/** What masking leaves at each position of a document, stated on positions alone: which rules cover a
    position is decided by its keys and indices, and everything else about the traversal drops out. */
module MaskedPositions {
  import opened Json
  import opened Text
  import opened Paths
  import opened Navigation
  import opened RuleTrie
  import opened Masker
  import opened MaskerAgreement
  import opened MaskLaws

  // ---------------------------------------------------------------- rules that cover a position

  /** The same keys and indices, and any index where the rule has a wildcard. */
  ghost predicate Covers(r: Path, q: Path) {
    |r| == |q| && forall i :: 0 <= i < |r| ==> r[i] == q[i] || (r[i].Wildcard? && q[i].Index?)
  }

  ghost predicate Covered(rs: seq<Path>, q: Path) {
    exists i :: 0 <= i < |rs| && Covers(rs[i], q)
  }

  /** The rules of the context, read as paths. */
  ghost predicate ReadAs(ctx: MaskContext, rs: seq<Path>) {
    |rs| == |ctx.rules| && forall i :: 0 <= i < |rs| ==> ParseMaskPath(ctx.rules[i].rule.jsonPath) == [Root] + rs[i]
  }

  /** The key shares its hash with no other rule piece, and is no piece that spells a bracket. */
  ghost predicate OwnKey(ctx: MaskContext, k: string) {
    PlainKey(ctx, k) && ('[' in k ==>
      forall i, j :: 0 <= i < |ctx.rules| && 0 <= j < |PiecesOf(ctx, i)| ==> PiecesOf(ctx, i)[j] != k)
  }

  ghost predicate OwnKeys(ctx: MaskContext, v: Value) {
    match v
    case Arr(items) => forall i :: 0 <= i < |items| ==> OwnKeys(ctx, items[i])
    case Obj(fs) => forall i :: 0 <= i < |fs| ==> OwnKey(ctx, fs[i].key) && OwnKeys(ctx, fs[i].value)
    case _ => true
  }

  /** A path of such keys and of indices: what leads to a position of such a document. */
  ghost predicate OwnPath(ctx: MaskContext, p: Path) {
    forall i :: 0 <= i < |p| ==> p[i].Index? || (p[i].Key? && OwnKey(ctx, p[i].k))
  }

  ghost predicate Settled(ctx: MaskContext, rs: seq<Path>) {
    WellBuilt(ctx) && |ctx.rules| <= SENTINEL && ReadAs(ctx, rs)
  }

  lemma MatchingCovers(r: Path, q: Path)
    requires forall i :: 0 <= i < |q| ==> q[i].Key? || q[i].Index?
    ensures SegmentsMatch([Root] + r, [Root] + q) <==> Covers(r, q)
  {
    var x, y := [Root] + r, [Root] + q;
    if SegmentsMatch(x, y) {
      forall i | 0 <= i < |r| ensures r[i] == q[i] || (r[i].Wildcard? && q[i].Index?) {
        assert SegmentMatches(x[i + 1], y[i + 1]);
      }
    }
    if Covers(r, q) {
      forall i | 0 <= i < |x| ensures SegmentMatches(x[i], y[i]) {
        if i > 0 { assert x[i] == r[i - 1] && y[i] == q[i - 1]; }
      }
    }
  }

  lemma OwnIsPlain(ctx: MaskContext, p: Path)
    requires OwnPath(ctx, p)
    ensures PlainPath(ctx, p)
  {
  }

  lemma OwnPieces(ctx: MaskContext, p: Path, j: nat)
    requires j < |ctx.rules| && OwnPath(ctx, p) && p == KeySegments(PiecesOf(ctx, j))
    ensures NoBrackets(PiecesOf(ctx, j))
  {
    var ks := PiecesOf(ctx, j);
    forall i | 0 <= i < |ks| ensures '[' !in ks[i] { assert p[i] == Key(ks[i]) && OwnKey(ctx, p[i].k); }
  }

  /** Whatever fires where the traversal stands covers the position. */
  lemma FiringCovers(ctx: MaskContext, rs: seq<Path>, at: Place) returns (i: nat)
    requires Settled(ctx, rs) && Unmatched(ctx, at) && OwnPath(ctx, Segments(at))
    requires MatchRule(ctx, Current(at), true).Some?
    ensures i < |rs| && Covers(rs[i], Segments(at)) && MatchRule(ctx, Current(at), true) == Some(ctx.rules[i].rule)
  {
    if CompiledMatch(ctx, Current(at)).Some? {
      OwnIsPlain(ctx, Segments(at));
      i := FiresAtItsPath(ctx, at);
      OwnPieces(ctx, Segments(at), i);
      RuleOfPieces(ctx, i);
      assert [Root] + rs[i] == [Root] + Segments(at);
      assert rs[i] == ([Root] + rs[i])[1..] == Segments(at);
    } else {
      i := ListMatchFrom(ctx.rules, Current(at), 0);
      MatchingCovers(rs[i], Segments(at));
    }
  }

  /** And where a rule covers the position, something fires. */
  lemma {:induction false} CoveredFires(ctx: MaskContext, rs: seq<Path>, at: Place)
    requires Settled(ctx, rs) && OwnPath(ctx, Segments(at)) && Covered(rs, Segments(at))
    ensures MatchRule(ctx, Current(at), true).Some?
  {
    var i :| 0 <= i < |rs| && Covers(rs[i], Segments(at));
    MatchingCovers(rs[i], Segments(at));
    var first := FindFirstMatch(ctx.rules, Current(at), 0, i);
  }

  // ---------------------------------------------------------------- following the traversal to a position

  ghost function Down(at: Place, q: Path): Place
    decreases |q|
  {
    if |q| == 0 then at else Down(Under(at, q[0]), q[1..])
  }

  lemma {:induction false} DownSegments(at: Place, q: Path)
    ensures Segments(Down(at, q)) == Segments(at) + q
    decreases |q|
  {
    if |q| == 0 {
      assert Segments(at) + q == Segments(at);
    } else {
      DownSegments(Under(at, q[0]), q[1..]);
      assert Segments(at) + [q[0]] + q[1..] == Segments(at) + q;
    }
  }

  /** The last key on the way: array items inherit the key of their array. */
  ghost function KeyAbove(key: Option<string>, q: Path): Option<string>
    decreases |q|
  {
    if |q| == 0 then key else KeyAbove(KeyOr(key, q[0]), q[1..])
  }

  ghost function KeyOr(key: Option<string>, s: Segment): Option<string> {
    if s.Key? then Some(s.k) else key
  }

  lemma {:induction false} FindMasked(fs: seq<Field>, gs: seq<Field>, k: string)
    requires |fs| == |gs| && forall i :: 0 <= i < |fs| ==> fs[i].key == gs[i].key
    ensures Find(fs, k) == Find(gs, k)
  {
    if |fs| != 0 { FindMasked(fs[1..], gs[1..], k); }
  }

  /** Where nothing fires, masking a container masks each child in its place. */
  lemma ChildMasked(v: Value, ctx: MaskContext, at: Place, key: Option<string>, depth: nat, s: Segment)
    requires depth <= ctx.maxDepth && MatchRule(ctx, Current(at), true).None? && Child(v, s).Some?
    ensures Child(Mask(v, ctx, at, key, depth, true), s)
         == Some(Mask(Child(v, s).value, ctx, Under(at, s), KeyOr(key, s), depth + 1, true))
  {
    if v.Obj? {
      var ms := MaskFields(v.fields, ctx, at, depth, true);
      MaskedObject(v.fields, ctx, at, key, depth, true);
      FindMasked(v.fields, ms, s.k);
    } else {
      MaskedArray(v.items, ctx, at, key, depth, true);
    }
  }

  /** No rule covers a position on the way. */
  ghost predicate Clear(rs: seq<Path>, p: Path, q: Path) {
    forall m :: 0 <= m < |q| ==> !Covered(rs, p + q[..m])
  }

  ghost predicate Standing(ctx: MaskContext, rs: seq<Path>, at: Place, depth: nat) {
    Settled(ctx, rs) && Unmatched(ctx, at) && OwnPath(ctx, Segments(at)) && depth == |Segments(at)|
  }

  lemma {:induction false} StandingBelow(ctx: MaskContext, rs: seq<Path>, v: Value, at: Place, depth: nat, s: Segment)
    requires Standing(ctx, rs, at, depth) && OwnKeys(ctx, v) && Child(v, s).Some?
    requires MatchRule(ctx, Current(at), true).None?
    ensures Standing(ctx, rs, Under(at, s), depth + 1) && OwnKeys(ctx, Child(v, s).value)
  {
    assert s.Index? || (s.Key? && OwnKey(ctx, s.k));
  }

  lemma {:induction false} NothingFires(ctx: MaskContext, rs: seq<Path>, at: Place, depth: nat)
    requires Standing(ctx, rs, at, depth) && !Covered(rs, Segments(at))
    ensures MatchRule(ctx, Current(at), true).None?
  {
    if MatchRule(ctx, Current(at), true).Some? { var i := FiringCovers(ctx, rs, at); }
  }

  lemma ClearHere(rs: seq<Path>, p: Path, q: Path)
    requires Clear(rs, p, q) && |q| > 0
    ensures !Covered(rs, p) && Clear(rs, p + [q[0]], q[1..])
  {
    assert p + q[..0] == p;
    forall m | 0 <= m < |q[1..]| ensures !Covered(rs, p + [q[0]] + q[1..][..m]) {
      assert p + [q[0]] + q[1..][..m] == p + q[..m + 1];
    }
  }

  lemma {:induction false} GetDown(v: Value, q: Path, c: Value)
    requires |q| > 0 && Child(v, q[0]) == Some(c)
    ensures Get(v, q) == Get(c, q[1..])
  {
  }

  /** One step of the way: what holds where the traversal stands holds below, and the child is masked there. */
  lemma OneStep(v: Value, ctx: MaskContext, rs: seq<Path>, at: Place, key: Option<string>, depth: nat, q: Path)
    requires Standing(ctx, rs, at, depth) && OwnKeys(ctx, v) && |q| > 0 && Child(v, q[0]).Some?
    requires Clear(rs, Segments(at), q) && depth <= ctx.maxDepth
    ensures Standing(ctx, rs, Under(at, q[0]), depth + 1) && OwnKeys(ctx, Child(v, q[0]).value)
    ensures Clear(rs, Segments(Under(at, q[0])), q[1..])
    ensures Child(Mask(v, ctx, at, key, depth, true), q[0])
         == Some(Mask(Child(v, q[0]).value, ctx, Under(at, q[0]), KeyOr(key, q[0]), depth + 1, true))
  {
    ClearHere(rs, Segments(at), q);
    NothingFires(ctx, rs, at, depth);
    ChildMasked(v, ctx, at, key, depth, q[0]);
    StandingBelow(ctx, rs, v, at, depth, q[0]);
  }

  /** Looking up a position after masking is masking what stands there. */
  ghost predicate Meets(v: Value, ctx: MaskContext, at: Place, key: Option<string>, depth: nat, q: Path, end: nat) {
    Get(v, q).Some? && Get(Mask(v, ctx, at, key, depth, true), q)
                    == Some(Mask(Get(v, q).value, ctx, Down(at, q), KeyAbove(key, q), end, true))
  }

  lemma MeetsAbove(v: Value, ctx: MaskContext, at: Place, key: Option<string>, depth: nat, q: Path, end: nat)
    requires |q| > 0 && Child(v, q[0]).Some?
    requires var c, below := Child(v, q[0]).value, Under(at, q[0]);
      && Child(Mask(v, ctx, at, key, depth, true), q[0])
         == Some(Mask(c, ctx, below, KeyOr(key, q[0]), depth + 1, true))
      && Meets(c, ctx, below, KeyOr(key, q[0]), depth + 1, q[1..], end)
    ensures Meets(v, ctx, at, key, depth, q, end)
  {
    var c, below := Child(v, q[0]).value, Under(at, q[0]);
    GetDown(v, q, c);
    GetDown(Mask(v, ctx, at, key, depth, true), q, Mask(c, ctx, below, KeyOr(key, q[0]), depth + 1, true));
  }

  /** Masking and looking up commute, as long as no rule covers a position on the way. */
  lemma {:induction false} MaskReaches(v: Value, ctx: MaskContext, rs: seq<Path>, at: Place, key: Option<string>,
          depth: nat, q: Path, end: nat)
    requires Standing(ctx, rs, at, depth) && OwnKeys(ctx, v) && Get(v, q).Some?
    requires Clear(rs, Segments(at), q) && depth + |q| == end <= ctx.maxDepth + 1
    ensures Standing(ctx, rs, Down(at, q), end)
    ensures Meets(v, ctx, at, key, depth, q, end)
    decreases |q|
  {
    if |q| != 0 {
      OneStep(v, ctx, rs, at, key, depth, q);
      MaskReaches(Child(v, q[0]).value, ctx, rs, Under(at, q[0]), KeyOr(key, q[0]), depth + 1, q[1..], end);
      MeetsAbove(v, ctx, at, key, depth, q, end);
    }
  }

  ghost predicate Approach(ctx: MaskContext, rs: seq<Path>, v: Value, q: Path) {
    && Settled(ctx, rs) && OwnKeys(ctx, v) && Get(v, q).Some?
    && |q| <= ctx.maxDepth + 1 && forall m :: 0 <= m < |q| ==> !Covered(rs, q[..m])
  }

  lemma {:induction false} MaskedFromTop(v: Value, ctx: MaskContext, rs: seq<Path>, q: Path)
    requires Approach(ctx, rs, v, q)
    ensures Standing(ctx, rs, Down(Top, q), |q|) && Segments(Down(Top, q)) == q
    ensures Get(MaskDocument(v, ctx), q)
         == Some(Mask(Get(v, q).value, ctx, Down(Top, q), KeyAbove(None, q), |q|, true))
  {
    forall m | 0 <= m < |q| ensures !Covered(rs, [] + q[..m]) { assert [] + q[..m] == q[..m]; }
    MaskReaches(v, ctx, rs, Top, None, 0, q, |q|);
    DownSegments(Top, q);
    assert [] + q == q;
  }

  // ---------------------------------------------------------------- what stands at a position afterwards

  /** The recognizers of the heuristics in their order, and what each puts in the place of the text. */
  ghost function Recognizers(re: Regexes): seq<(string -> bool, string)> {
    [(re.uuid, "<MASKED_UUID>"), (re.jwt, "<MASKED_JWT>"), (re.objectId, "<MASKED_OBJECT_ID>"),
     (re.ssn, "<MASKED_SSN>"), (re.creditCard, "<MASKED_CREDIT_CARD>"), (re.email, "<MASKED_EMAIL>"),
     (re.timestamp, "<MASKED_TIMESTAMP>")]
  }

  /** The first recognizer that accepts a text decides; a text that is a mask already, or that none accepts, stays. */
  ghost predicate FirstRecognized(s: string, t: string, re: Regexes) {
    var rs := Recognizers(re);
    if ("<MASKED_" <= s && s[|s| - 1] == '>') || forall i :: 0 <= i < |rs| ==> !rs[i].0(s) then t == s
    else exists i :: 0 <= i < |rs| && rs[i].0(s) && t == rs[i].1 && forall j :: 0 <= j < i ==> !rs[j].0(s)
  }

  lemma HeuristicsTakeTheFirst(s: string, re: Regexes)
    ensures FirstRecognized(s, MaskString(s, re), re)
  {
    var rs := Recognizers(re);
    assert rs[0].0 == re.uuid && rs[1].0 == re.jwt && rs[2].0 == re.objectId && rs[3].0 == re.ssn;
    assert rs[4].0 == re.creditCard && rs[5].0 == re.email && rs[6].0 == re.timestamp;
  }

  /** A covered value: replaced, or only the matches inside a text when the rule has a pattern that compiles. */
  ghost predicate Replaced(x: Value, y: Value, rule: MaskRule, re: Regexes) {
    match rule.pattern
    case None => y == Str(rule.replacement)
    case Some(p) =>
      if x.Str? && re.compiles(p) then y == Str(re.replaceAll(p, x.s, rule.replacement)) else y == x
  }

  /** A value that no rule covers: redacted in strict mode unless its path is allowed, and otherwise up to the
      heuristics; containers stay, with their keys or their length. */
  ghost predicate Left(x: Value, y: Value, ctx: MaskContext, q: Path) {
    if ctx.strictPii && (x.Str? || x.Num? || x.Bool?) && Render(q) !in ctx.allowList then y == Str("<REDACTED>")
    else
      match x
      case Str(s) => if ctx.heuristics then y.Str? && FirstRecognized(s, y.s, ctx.regexes) else y == x
      case Num(n) =>
        var key := KeyAbove(None, q);
        if ctx.heuristics && key.Some? && ctx.regexes.timeKey(key.value) && ctx.regexes.epoch(n)
        then y == Str("<MASKED_EPOCH>") else y == x
      case Arr(items) => y.Arr? && |y.items| == |items|
      case Obj(fs) => y.Obj? && |y.fields| == |fs| && forall i :: 0 <= i < |fs| ==> y.fields[i].key == fs[i].key
      case _ => y == x
  }

  lemma ReplacedHere(x: Value, ctx: MaskContext, rs: seq<Path>, at: Place, key: Option<string>, depth: nat)
    returns (i: nat)
    requires Standing(ctx, rs, at, depth) && depth <= ctx.maxDepth && Covered(rs, Segments(at))
    ensures i < |rs| && Covers(rs[i], Segments(at))
    ensures Replaced(x, Mask(x, ctx, at, key, depth, true), ctx.rules[i].rule, ctx.regexes)
  {
    CoveredFires(ctx, rs, at);
    i := FiringCovers(ctx, rs, at);
  }

  lemma {:induction false} LeftHere(x: Value, ctx: MaskContext, rs: seq<Path>, at: Place, depth: nat)
    requires Standing(ctx, rs, at, depth) && depth <= ctx.maxDepth && !Covered(rs, Segments(at))
    ensures Left(x, Mask(x, ctx, at, KeyAbove(None, Segments(at)), depth, true), ctx, Segments(at))
  {
    var key := KeyAbove(None, Segments(at));
    NothingFires(ctx, rs, at, depth);
    PrintedIsRendered(at);
    if x.Str? { HeuristicsTakeTheFirst(x.s, ctx.regexes); }
    if x.Obj? { MaskedObject(x.fields, ctx, at, key, depth, true); }
    if x.Arr? { MaskedArray(x.items, ctx, at, key, depth, true); }
  }

  /** Masking, position by position. For a position of the document none of whose ancestors is covered by a rule:
      one level below the depth limit stands the depth marker; a covered value has been replaced as some covering
      rule says; and any other is left as strict mode and the heuristics leave it. */
  lemma {:induction false} MaskedAt(v: Value, ctx: MaskContext, rs: seq<Path>, q: Path)
    requires Approach(ctx, rs, v, q)
    ensures Get(MaskDocument(v, ctx), q).Some?
    ensures var x, y := Get(v, q).value, Get(MaskDocument(v, ctx), q).value;
      if |q| > ctx.maxDepth then y == Str("<DEPTH_EXCEEDED>")
      else if Covered(rs, q) then
        exists i :: 0 <= i < |rs| && Covers(rs[i], q) && Replaced(x, y, ctx.rules[i].rule, ctx.regexes)
      else Left(x, y, ctx, q)
  {
    var x, at := Get(v, q).value, Down(Top, q);
    MaskedFromTop(v, ctx, rs, q);
    if |q| > ctx.maxDepth {
    } else if Covered(rs, q) {
      var i := ReplacedHere(x, ctx, rs, at, KeyAbove(None, q), |q|);
    } else {
      LeftHere(x, ctx, rs, at, |q|);
    }
  }

  // ---------------------------------------------------------------- what is not covered stays as it was

  /** Only rules are at work. */
  ghost predicate OnlyRules(ctx: MaskContext) {
    !ctx.strictPii && !ctx.heuristics
  }

  /** No rule covers this position or one below it. */
  ghost predicate Untouched(rs: seq<Path>, v: Value, p: Path) {
    forall q :: Get(v, q).Some? ==> !Covered(rs, p + q)
  }

  lemma UntouchedBelow(rs: seq<Path>, v: Value, p: Path, s: Segment)
    requires Untouched(rs, v, p) && Child(v, s).Some?
    ensures Untouched(rs, Child(v, s).value, p + [s])
  {
    forall q | Get(Child(v, s).value, q).Some? ensures !Covered(rs, p + [s] + q) {
      GetStep(v, s, q);
      assert p + [s] + q == p + ([s] + q);
    }
  }

  /** A value with the traversal standing at it, none of whose positions any rule covers. */
  ghost predicate Spared(v: Value, ctx: MaskContext, rs: seq<Path>, at: Place, depth: nat) {
    && Standing(ctx, rs, at, depth) && OwnKeys(ctx, v) && WellFormed(v) && OnlyRules(ctx)
    && Untouched(rs, v, Segments(at)) && depth <= ctx.maxDepth && NoDeeper(v, ctx.maxDepth - depth)
  }

  lemma SparedHere(v: Value, ctx: MaskContext, rs: seq<Path>, at: Place, depth: nat)
    requires Spared(v, ctx, rs, at, depth)
    ensures MatchRule(ctx, Current(at), true).None?
  {
    assert Get(v, []).Some? && Segments(at) + [] == Segments(at);
    NothingFires(ctx, rs, at, depth);
  }

  lemma SparedBelow(v: Value, ctx: MaskContext, rs: seq<Path>, at: Place, depth: nat, s: Segment)
    requires Spared(v, ctx, rs, at, depth) && Child(v, s).Some?
    ensures Child(v, s).value < v && Spared(Child(v, s).value, ctx, rs, Under(at, s), depth + 1)
  {
    SparedHere(v, ctx, rs, at, depth);
    UntouchedBelow(rs, v, Segments(at), s);
    StandingBelow(ctx, rs, v, at, depth, s);
  }

  lemma {:induction false} SparedStays(v: Value, ctx: MaskContext, rs: seq<Path>, at: Place, key: Option<string>,
          depth: nat)
    requires Spared(v, ctx, rs, at, depth)
    ensures Mask(v, ctx, at, key, depth, true) == v
    decreases v, 1
  {
    SparedHere(v, ctx, rs, at, depth);
    if v.Obj? {
      MaskedObject(v.fields, ctx, at, key, depth, true);
      var ms := MaskFields(v.fields, ctx, at, depth, true);
      forall i | 0 <= i < |v.fields| ensures ms[i] == v.fields[i] { SparedField(v, ctx, rs, at, depth, i); }
      assert ms == v.fields;
    } else if v.Arr? {
      MaskedArray(v.items, ctx, at, key, depth, true);
      var ms := MaskItems(v.items, ctx, at, key, depth, true);
      forall i | 0 <= i < |v.items| ensures ms[i] == v.items[i] { SparedItem(v, ctx, rs, at, key, depth, i); }
      assert ms == v.items;
    }
  }

  lemma {:induction false} SparedField(v: Value, ctx: MaskContext, rs: seq<Path>, at: Place, depth: nat, i: nat)
    requires Spared(v, ctx, rs, at, depth) && v.Obj? && i < |v.fields|
    ensures var f := v.fields[i];
      Mask(f.value, ctx, Under(at, Key(f.key)), Some(f.key), depth + 1, true) == f.value
    decreases v, 0
  {
    var f := v.fields[i];
    FindDistinct(v.fields, i);
    SparedBelow(v, ctx, rs, at, depth, Key(f.key));
    SparedStays(Child(v, Key(f.key)).value, ctx, rs, Under(at, Key(f.key)), Some(f.key), depth + 1);
  }

  lemma SparedItem(v: Value, ctx: MaskContext, rs: seq<Path>, at: Place, key: Option<string>,
          depth: nat, i: nat)
    requires Spared(v, ctx, rs, at, depth) && v.Arr? && i < |v.items|
    ensures Mask(v.items[i], ctx, Under(at, Index(i)), key, depth + 1, true) == v.items[i]
    decreases v, 0
  {
    var c := Child(v, Index(i)).value;
    SparedBelow(v, ctx, rs, at, depth, Index(i));
    SparedStays(c, ctx, rs, Under(at, Index(i)), key, depth + 1);
  }

  lemma DeepEnough(v: Value, q: Path, levels: nat)
    requires NoDeeper(v, levels) && Get(v, q).Some?
    ensures |q| <= levels && NoDeeper(Get(v, q).value, levels - |q|)
    decreases |q|
  {
    if |q| != 0 { DeepEnough(Child(v, q[0]).value, q[1..], levels - 1); }
  }

  lemma {:induction false} PartOf(v: Value, ctx: MaskContext, q: Path)
    requires OwnKeys(ctx, v) && WellFormed(v) && Get(v, q).Some?
    ensures OwnKeys(ctx, Get(v, q).value) && WellFormed(Get(v, q).value)
    decreases |q|
  {
    if |q| != 0 { PartOf(Child(v, q[0]).value, ctx, q[1..]); }
  }

  /** With rules alone and within the depth limit, what no rule covers, above, here or below, is as it was. */
  lemma {:induction false} ElsewhereUnchanged(v: Value, ctx: MaskContext, rs: seq<Path>, q: Path)
    requires Settled(ctx, rs) && OwnKeys(ctx, v) && WellFormed(v) && OnlyRules(ctx) && NoDeeper(v, ctx.maxDepth)
    requires Get(v, q).Some? && (forall m :: 0 <= m < |q| ==> !Covered(rs, q[..m]))
    requires Untouched(rs, Get(v, q).value, q)
    ensures Get(MaskDocument(v, ctx), q) == Get(v, q)
  {
    DeepEnough(v, q, ctx.maxDepth);
    PartOf(v, ctx, q);
    MaskedFromTop(v, ctx, rs, q);
    SparedStays(Get(v, q).value, ctx, rs, Down(Top, q), KeyAbove(None, q), |q|);
  }

  // ---------------------------------------------------------------- one rule

  /** The rule covers no position of the document above, at or below this one. */
  ghost predicate Apart(r: Path, v: Value, q: Path)
    requires Get(v, q).Some?
  {
    && (forall m :: 0 <= m <= |q| ==> !Covers(r, q[..m]))
    && forall t :: Get(Get(v, q).value, t).Some? ==> !Covers(r, q + t)
  }

  /** One rule and nothing else at work, on a document within the depth limit. */
  ghost predicate OneRule(ctx: MaskContext, r: Path, replacement: string, v: Value) {
    && WellBuilt(ctx) && |ctx.rules| == 1 && ctx.rules[0].rule == MaskRule(Render(r), replacement, None)
    && Clean(r, true) && OnlyRules(ctx) && OwnKeys(ctx, v) && WellFormed(v) && NoDeeper(v, ctx.maxDepth)
  }

  lemma OneRuleSettled(ctx: MaskContext, r: Path, replacement: string, v: Value)
    requires OneRule(ctx, r, replacement, v)
    ensures Settled(ctx, [r])
  {
    PrintParse(r);
  }

  lemma OneCovers(r: Path, q: Path)
    ensures Covered([r], q) <==> Covers(r, q)
  {
    if Covers(r, q) { assert Covers([r][0], q); }
  }

  lemma {:induction false} OneRuleCovered(v: Value, ctx: MaskContext, r: Path, replacement: string, q: Path)
    requires OneRule(ctx, r, replacement, v) && Get(v, q).Some? && Covers(r, q)
    ensures Get(MaskDocument(v, ctx), q) == Some(Str(replacement))
  {
    OneRuleSettled(ctx, r, replacement, v);
    DeepEnough(v, q, ctx.maxDepth);
    OneCovers(r, q);
    forall m | 0 <= m < |q| ensures !Covered([r], q[..m]) { OneCovers(r, q[..m]); }
    MaskedAt(v, ctx, [r], q);
  }

  lemma {:induction false} OneRuleApart(v: Value, ctx: MaskContext, r: Path, replacement: string, q: Path)
    requires OneRule(ctx, r, replacement, v) && Get(v, q).Some? && Apart(r, v, q)
    ensures Get(MaskDocument(v, ctx), q) == Get(v, q)
  {
    OneRuleSettled(ctx, r, replacement, v);
    forall m | 0 <= m < |q| ensures !Covered([r], q[..m]) { OneCovers(r, q[..m]); }
    forall t | Get(Get(v, q).value, t).Some? ensures !Covered([r], q + t) { OneCovers(r, q + t); }
    ElsewhereUnchanged(v, ctx, [r], q);
  }

  /** One rule and nothing else: every position that is the rule's path with an index for each wildcard holds the
      replacement, and what lies neither above nor below such a position is unchanged. */
  lemma {:induction false} OneRuleMasks(v: Value, ctx: MaskContext, r: Path, replacement: string, q: Path)
    requires OneRule(ctx, r, replacement, v) && Get(v, q).Some?
    ensures Covers(r, q) ==> Get(MaskDocument(v, ctx), q) == Some(Str(replacement))
    ensures Apart(r, v, q) ==> Get(MaskDocument(v, ctx), q) == Get(v, q)
  {
    if Covers(r, q) { OneRuleCovered(v, ctx, r, replacement, q); }
    if Apart(r, v, q) { OneRuleApart(v, ctx, r, replacement, q); }
  }
}
