/** The compiled matcher and the rule list disagree on single paths: the code also accepts every
    extension of a rule, and never returns a rule that another one extends. Masking a whole document
    with either gives the same result, because the traversal stops at the first match, exactly when the
    list does what the code does wherever the code can fire. */
module MaskerAgreement {
  import opened Json
  import opened Paths
  import opened Fnv
  import opened RuleTrie
  import opened RuleCompiler
  import opened Masker

  // ---------------------------------------------------------------- the two readings of a rule path

  function KeySegments(ks: seq<string>): (ss: seq<Segment>)
    ensures |ss| == |ks| && forall i :: 0 <= i < |ks| ==> ss[i] == Key(ks[i])
  {
    seq(|ks|, i requires 0 <= i < |ks| => Key(ks[i]))
  }

  lemma {:induction false} PieceExtends(cs: string, cur: string)
    requires cur != ""
    ensures |SplitChars(cs, cur)| > 0 && cur <= SplitChars(cs, cur)[0]
    decreases |cs|
  {
    if |cs| != 0 && cs[0] != '.' { PieceExtends(cs[1..], cur + [cs[0]]); }
  }

  ghost predicate NoBrackets(pieces: seq<string>) {
    forall i :: 0 <= i < |pieces| ==> '[' !in pieces[i]
  }

  lemma FlushedKeys(cur: string, rest: seq<string>)
    ensures KeySegments(FlushText(cur) + rest) == Flush(cur) + KeySegments(rest)
  {
    if cur == "" {
      assert FlushText(cur) + rest == rest && Flush(cur) + KeySegments(rest) == KeySegments(rest);
    } else {
      assert KeySegments([cur] + rest) == [Key(cur)] + KeySegments(rest);
    }
  }

  lemma NoBracketsAfter(a: seq<string>, rest: seq<string>)
    requires NoBrackets(a + rest)
    ensures NoBrackets(rest)
  {
    forall i | 0 <= i < |rest| ensures '[' !in rest[i] { assert (a + rest)[|a| + i] == rest[i]; }
  }

  /** A character the splitter takes into a piece is in that piece. */
  lemma {:induction false} TakenChar(cs: string, cur: string)
    requires |cs| > 0 && cs[0] != '.' && NoBrackets(SplitChars(cs, cur))
    ensures cs[0] != '['
  {
    PieceExtends(cs[1..], cur + [cs[0]]);
    var first := SplitChars(cs, cur)[0];
    assert first[|cur|] == (cur + [cs[0]])[|cur|] && first[|cur|] in first;
  }

  /** When no dot-separated piece holds a bracket, the parser reads the pieces as keys. */
  lemma {:induction false} SplitIsParse(cs: string, cur: string)
    requires NoBrackets(SplitChars(cs, cur))
    ensures ParseChars(cs, cur, true) == KeySegments(SplitChars(cs, cur))
    decreases |cs|
  {
    if |cs| == 0 {
    } else if cs[0] == '.' {
      var rest := SplitChars(cs[1..], "");
      NoBracketsAfter(FlushText(cur), rest);
      FlushedKeys(cur, rest);
      SplitIsParse(cs[1..], "");
    } else {
      TakenChar(cs, cur);
      SplitIsParse(cs[1..], cur + [cs[0]]);
    }
  }

  function PiecesOf(ctx: MaskContext, i: nat): seq<string>
    requires i < |ctx.rules|
  {
    SplitPath(ctx.rules[i].rule.jsonPath)
  }

  ghost function Hashes(ctx: MaskContext): seq<seq<Hash64>> {
    RuleHashes(RulePaths(ctx.rules))
  }

  lemma RuleOfPieces(ctx: MaskContext, i: nat)
    requires WellBuilt(ctx) && i < |ctx.rules| && NoBrackets(PiecesOf(ctx, i))
    ensures ctx.rules[i].segments == [Root] + KeySegments(PiecesOf(ctx, i))
  {
    SplitIsParse(TrimDollars(ctx.rules[i].rule.jsonPath), "");
  }

  // ---------------------------------------------------------------- plain keys

  /** No rule piece has the hash of this key but the key itself. */
  ghost predicate PlainKey(ctx: MaskContext, k: string) {
    forall i, j :: 0 <= i < |ctx.rules| && 0 <= j < |PiecesOf(ctx, i)| ==>
      Fnv1a(PiecesOf(ctx, i)[j]) == Fnv1a(k) ==> PiecesOf(ctx, i)[j] == k
  }

  ghost predicate PlainKeys(ctx: MaskContext, v: Value) {
    match v
    case Arr(items) => forall i :: 0 <= i < |items| ==> PlainKeys(ctx, items[i])
    case Obj(fs) => forall i :: 0 <= i < |fs| ==> PlainKey(ctx, fs[i].key) && PlainKeys(ctx, fs[i].value)
    case _ => true
  }

  ghost predicate PlainPath(ctx: MaskContext, p: Path) {
    forall i :: 0 <= i < |p| && p[i].Key? ==> PlainKey(ctx, p[i].k)
  }

  // ---------------------------------------------------------------- the traversal's invariant

  /** No position on the way to this one matches a rule: what the traversal knows where it stands. */
  ghost predicate Unmatched(ctx: MaskContext, at: Place) {
    at.Under? ==> MatchRule(ctx, Current(at.parent), true).None? && Unmatched(ctx, at.parent)
  }

  lemma {:induction false} UnmatchedPrefix(ctx: MaskContext, at: Place, m: nat)
    requires Unmatched(ctx, at) && m < |Segments(at)|
    ensures MatchRule(ctx, [Root] + Segments(at)[..m], true).None?
  {
    var p := Segments(at.parent);
    assert Segments(at)[..m] == p[..m];
    if m < |p| { UnmatchedPrefix(ctx, at.parent, m); } else { assert p[..m] == p; }
  }

  ghost predicate FirstMatch(rules: seq<ParsedRule>, current: seq<Segment>, from: nat, i: nat) {
    && from <= i < |rules| && SegmentsMatch(rules[i].segments, current)
    && forall j :: from <= j < i ==> !SegmentsMatch(rules[j].segments, current)
  }

  lemma FindFirstMatch(rules: seq<ParsedRule>, current: seq<Segment>, from: nat, i: nat)
    returns (first: nat)
    requires from <= i < |rules| && SegmentsMatch(rules[i].segments, current)
    ensures FirstMatch(rules, current, from, first) && ListMatch(rules, current, from) == Some(rules[first].rule)
    decreases |rules| - from
  {
    if SegmentsMatch(rules[from].segments, current) {
      first := from;
    } else {
      first := FindFirstMatch(rules, current, from + 1, i);
    }
  }

  lemma MatchesItself(ks: seq<string>)
    ensures SegmentsMatch([Root] + KeySegments(ks), [Root] + KeySegments(ks))
  {
  }

  // ---------------------------------------------------------------- where the compiled code fires

  lemma {:induction false} KeyHashesAt(ss: seq<Segment>, i: nat)
    requires i < |ss| && ss[i].Key?
    ensures |KeyHashes(ss)| == |ss| && KeyHashes(ss)[i] == Fnv1a(ss[i].k)
  {
    KeyHashesLength(ss);
    KeyHashesLength(ss[..|ss| - 1]);
    if i < |ss| - 1 { KeyHashesAt(ss[..|ss| - 1], i); }
  }

  lemma {:induction false} KeyHashesLength(ss: seq<Segment>)
    ensures |KeyHashes(ss)| == |ss|
  {
    if |ss| != 0 { KeyHashesLength(ss[..|ss| - 1]); }
  }

  /** A rule whose hashes start the hashes of plain keys has those keys as its pieces. */
  lemma {:induction false} PrefixOfHashes(ctx: MaskContext, i: nat, p: Path)
    requires i < |ctx.rules| && PlainPath(ctx, p) && (forall j :: 0 <= j < |p| ==> p[j].Key?)
    requires HashAll(PiecesOf(ctx, i)) <= KeyHashes(p)
    ensures |PiecesOf(ctx, i)| <= |p| && p[..|PiecesOf(ctx, i)|] == KeySegments(PiecesOf(ctx, i))
  {
    var pieces := PiecesOf(ctx, i);
    KeyHashesLength(p);
    forall j | 0 <= j < |pieces| ensures p[j] == Key(pieces[j]) {
      KeyHashesAt(p, j);
      assert HashAll(pieces)[j] == KeyHashes(p)[j];
      assert PlainKey(ctx, p[j].k);
    }
  }

  lemma CompiledMatchSelects(ctx: MaskContext, current: seq<Segment>) returns (j: nat)
    requires WellBuilt(ctx) && |ctx.rules| <= SENTINEL && CompiledMatch(ctx, current).Some?
    ensures j < |ctx.rules| && CompiledMatch(ctx, current) == Some(ctx.rules[j].rule)
    ensures Selected(Hashes(ctx), j, KeyHashes(current[1..]))
  {
    var input := KeyHashes(current[1..]);
    j := Match(BuildTrie(Hashes(ctx)), input);
    assert Execute(ctx.compiled.value, input) == Returned(j);
    MatchSelects(Hashes(ctx), input, j);
  }

  /** The position a rule names to the code: its dot-separated pieces, read as keys. */
  ghost function CodePath(ctx: MaskContext, j: nat): seq<Segment>
    requires j < |ctx.rules|
  {
    [Root] + KeySegments(PiecesOf(ctx, j))
  }

  lemma {:induction false} HashesOfKeys(ks: seq<string>)
    ensures KeyHashes(KeySegments(ks)) == HashAll(ks)
  {
    var ss := KeySegments(ks);
    KeyHashesLength(ss);
    forall m | 0 <= m < |ks| ensures KeyHashes(ss)[m] == HashAll(ks)[m] { KeyHashesAt(ss, m); }
  }

  lemma SelectedRuns(ctx: MaskContext, j: nat)
    requires WellBuilt(ctx) && |ctx.rules| <= SENTINEL && j < |ctx.rules|
    requires Selected(Hashes(ctx), j, Hashes(ctx)[j])
    ensures Execute(ctx.compiled.value, HashAll(PiecesOf(ctx, j))) == Returned(j)
  {
    MatchSelects(Hashes(ctx), Hashes(ctx)[j], j);
  }

  lemma SelectedFires(ctx: MaskContext, j: nat)
    requires WellBuilt(ctx) && |ctx.rules| <= SENTINEL && j < |ctx.rules| && PiecesOf(ctx, j) != []
    requires Selected(Hashes(ctx), j, Hashes(ctx)[j])
    ensures CompiledMatch(ctx, CodePath(ctx, j)) == Some(ctx.rules[j].rule)
  {
    var current := CodePath(ctx, j);
    assert current[1..] == KeySegments(PiecesOf(ctx, j));
    HashesOfKeys(PiecesOf(ctx, j));
    SelectedRuns(ctx, j);
    assert KeyOnly(current);
  }

  /** A rule the code selects at a proper ancestor would have stopped the traversal there. */
  lemma {:induction false} NotFiredBefore(ctx: MaskContext, at: Place, j: nat)
    requires WellBuilt(ctx) && |ctx.rules| <= SENTINEL && Unmatched(ctx, at)
    requires j < |ctx.rules| && Selected(Hashes(ctx), j, Hashes(ctx)[j]) && |PiecesOf(ctx, j)| <= |Segments(at)|
    requires Segments(at)[..|PiecesOf(ctx, j)|] == KeySegments(PiecesOf(ctx, j))
    ensures |PiecesOf(ctx, j)| == |Segments(at)|
  {
    var ks := PiecesOf(ctx, j);
    if ks == [] {
      RuleOfPieces(ctx, j);
      MatchesItself(ks);
      var first := FindFirstMatch(ctx.rules, [Root] + KeySegments(ks), 0, j);
    } else {
      SelectedFires(ctx, j);
    }
    if |ks| < |Segments(at)| { UnmatchedPrefix(ctx, at, |ks|); }
  }

  /** Where the traversal stands, the compiled code fires only for a rule that names exactly this position. */
  lemma FiresAtItsPath(ctx: MaskContext, at: Place) returns (j: nat)
    requires WellBuilt(ctx) && |ctx.rules| <= SENTINEL
    requires Unmatched(ctx, at) && PlainPath(ctx, Segments(at)) && CompiledMatch(ctx, Current(at)).Some?
    ensures j < |ctx.rules| && CompiledMatch(ctx, Current(at)) == Some(ctx.rules[j].rule)
    ensures Selected(Hashes(ctx), j, Hashes(ctx)[j])
    ensures Segments(at) == KeySegments(PiecesOf(ctx, j)) && Current(at) == CodePath(ctx, j)
  {
    var p := Segments(at);
    assert Current(at)[1..] == p;
    assert forall i :: 0 <= i < |p| ==> p[i] == Current(at)[i + 1];
    j := CompiledMatchSelects(ctx, Current(at));
    PrefixOfHashes(ctx, j, p);
    NotFiredBefore(ctx, at, j);
    assert p[..|p|] == p;
  }

  // ---------------------------------------------------------------- the exact condition

  /** The code can select rule `j` at a position the traversal reaches: no later rule has its pieces, no rule
      extends them, none is listed on the way there, and the position is within the depth limit. */
  ghost predicate Live(ctx: MaskContext, j: nat) {
    && j < |ctx.rules|
    && var ks := PiecesOf(ctx, j);
    && 0 < |ks| <= ctx.maxDepth && (forall m :: 0 <= m < |ks| ==> PlainKey(ctx, ks[m]))
    && Selected(Hashes(ctx), j, Hashes(ctx)[j])
    && forall m :: 0 <= m < |ks| ==> ListMatch(ctx.rules, [Root] + KeySegments(ks[..m]), 0).None?
  }

  ghost predicate SameEffect(ctx: MaskContext, r: MaskRule, s: MaskRule) {
    forall v :: Apply(v, r, ctx.regexes) == Apply(v, s, ctx.regexes)
  }

  /** At the position a rule names to the code, the list finds a rule of the same effect. */
  ghost predicate Listed(ctx: MaskContext, j: nat)
    requires j < |ctx.rules|
  {
    var first := ListMatch(ctx.rules, CodePath(ctx, j), 0);
    first.Some? && SameEffect(ctx, first.value, ctx.rules[j].rule)
  }

  ghost predicate LiveRulesListed(ctx: MaskContext) {
    forall j: nat :: Live(ctx, j) ==> Listed(ctx, j)
  }

  ghost predicate SameMatch(ctx: MaskContext, at: Place) {
    var f, s := MatchRule(ctx, Current(at), true), MatchRule(ctx, Current(at), false);
    f.Some? == s.Some? && (f.Some? ==> SameEffect(ctx, s.value, f.value))
  }

  lemma {:induction false} MatchersAgreeAt(ctx: MaskContext, at: Place)
    requires WellBuilt(ctx) && |ctx.rules| <= SENTINEL && LiveRulesListed(ctx)
    requires Unmatched(ctx, at) && PlainPath(ctx, Segments(at)) && |Segments(at)| <= ctx.maxDepth
    ensures SameMatch(ctx, at)
  {
    if CompiledMatch(ctx, Current(at)).Some? {
      var j := FiresAtItsPath(ctx, at);
      FiredIsLive(ctx, at, j);
      assert Listed(ctx, j);
    }
  }

  lemma {:induction false} FiredIsLive(ctx: MaskContext, at: Place, j: nat)
    requires j < |ctx.rules| && Selected(Hashes(ctx), j, Hashes(ctx)[j])
    requires Unmatched(ctx, at) && PlainPath(ctx, Segments(at)) && 0 < |Segments(at)| <= ctx.maxDepth
    requires Segments(at) == KeySegments(PiecesOf(ctx, j))
    ensures Live(ctx, j)
  {
    var ks, p := PiecesOf(ctx, j), Segments(at);
    forall m | 0 <= m < |ks|
      ensures PlainKey(ctx, ks[m]) && ListMatch(ctx.rules, [Root] + KeySegments(ks[..m]), 0).None?
    {
      assert p[m] == Key(ks[m]);
      assert p[..m] == KeySegments(ks[..m]);
      UnmatchedPrefix(ctx, at, m);
    }
  }

  // ---------------------------------------------------------------- whole documents

  ghost predicate Ready(ctx: MaskContext, at: Place, depth: nat) {
    && WellBuilt(ctx) && |ctx.rules| <= SENTINEL && LiveRulesListed(ctx)
    && Unmatched(ctx, at) && PlainPath(ctx, Segments(at)) && depth == |Segments(at)|
  }

  lemma PlainBelow(ctx: MaskContext, p: Path, s: Segment)
    requires PlainPath(ctx, p) && (s.Key? ==> PlainKey(ctx, s.k))
    ensures PlainPath(ctx, p + [s])
  {
  }

  lemma ReadyBelow(ctx: MaskContext, at: Place, depth: nat, s: Segment)
    requires Ready(ctx, at, depth) && MatchRule(ctx, Current(at), true).None? && (s.Key? ==> PlainKey(ctx, s.k))
    ensures Ready(ctx, Under(at, s), depth + 1)
  {
    PlainBelow(ctx, Segments(at), s);
  }

  lemma {:induction false} MatchedAgrees(v: Value, ctx: MaskContext, at: Place, parentKey: Option<string>, depth: nat)
    requires SameMatch(ctx, at) && MatchRule(ctx, Current(at), true).Some?
    ensures Mask(v, ctx, at, parentKey, depth, true) == Mask(v, ctx, at, parentKey, depth, false)
  {
  }

  lemma {:induction false} MaskAgrees(v: Value, ctx: MaskContext, at: Place, parentKey: Option<string>, depth: nat)
    requires Ready(ctx, at, depth) && PlainKeys(ctx, v)
    ensures Mask(v, ctx, at, parentKey, depth, true) == Mask(v, ctx, at, parentKey, depth, false)
    decreases v, 1
  {
    if depth <= ctx.maxDepth {
      MatchersAgreeAt(ctx, at);
      if MatchRule(ctx, Current(at), true).Some? {
        MatchedAgrees(v, ctx, at, parentKey, depth);
      } else if v.Obj? {
        FieldsAgree(v.fields, ctx, at, depth);
      } else if v.Arr? {
        ItemsAgree(v.items, ctx, at, parentKey, depth);
      }
    }
  }

  lemma {:induction false} FieldsAgree(fs: seq<Field>, ctx: MaskContext, at: Place, depth: nat)
    requires Ready(ctx, at, depth) && PlainKeys(ctx, Obj(fs)) && MatchRule(ctx, Current(at), true).None?
    ensures MaskFields(fs, ctx, at, depth, true) == MaskFields(fs, ctx, at, depth, false)
    decreases fs, 1
  {
    var fast, slow := MaskFields(fs, ctx, at, depth, true), MaskFields(fs, ctx, at, depth, false);
    forall i | 0 <= i < |fs| ensures fast[i] == slow[i] { FieldAgrees(fs, ctx, at, depth, i); }
  }

  lemma {:induction false} FieldAgrees(fs: seq<Field>, ctx: MaskContext, at: Place, depth: nat, i: nat)
    requires Ready(ctx, at, depth) && PlainKeys(ctx, Obj(fs)) && MatchRule(ctx, Current(at), true).None? && i < |fs|
    ensures MaskFields(fs, ctx, at, depth, true)[i] == MaskFields(fs, ctx, at, depth, false)[i]
    decreases fs, 0
  {
    ReadyBelow(ctx, at, depth, Key(fs[i].key));
    MaskAgrees(fs[i].value, ctx, Under(at, Key(fs[i].key)), Some(fs[i].key), depth + 1);
  }

  lemma {:induction false} ItemsAgree(items: seq<Value>, ctx: MaskContext, at: Place, parentKey: Option<string>,
          depth: nat)
    requires Ready(ctx, at, depth) && PlainKeys(ctx, Arr(items)) && MatchRule(ctx, Current(at), true).None?
    ensures MaskItems(items, ctx, at, parentKey, depth, true) == MaskItems(items, ctx, at, parentKey, depth, false)
    decreases items, 1
  {
    var fast := MaskItems(items, ctx, at, parentKey, depth, true);
    var slow := MaskItems(items, ctx, at, parentKey, depth, false);
    forall i | 0 <= i < |items| ensures fast[i] == slow[i] { ItemAgrees(items, ctx, at, parentKey, depth, i); }
  }

  lemma ItemAgrees(items: seq<Value>, ctx: MaskContext, at: Place, parentKey: Option<string>,
          depth: nat, i: nat)
    requires Ready(ctx, at, depth) && PlainKeys(ctx, Arr(items)) && MatchRule(ctx, Current(at), true).None?
    requires i < |items|
    ensures var below := Under(at, Index(i));
      Mask(items[i], ctx, below, parentKey, depth + 1, true) == Mask(items[i], ctx, below, parentKey, depth + 1, false)
    decreases items, 0
  {
    ReadyBelow(ctx, at, depth, Index(i));
    MaskAgrees(items[i], ctx, Under(at, Index(i)), parentKey, depth + 1);
  }

  lemma ReadyAtTop(ctx: MaskContext)
    requires WellBuilt(ctx) && |ctx.rules| <= SENTINEL && LiveRulesListed(ctx)
    ensures Ready(ctx, Top, 0)
  {
  }

  ghost function MaskByList(v: Value, ctx: MaskContext): Value {
    Mask(v, ctx, Top, None, 0, false)
  }

  ghost predicate AgreesOn(ctx: MaskContext, v: Value) {
    MaskDocument(v, ctx) == MaskByList(v, ctx)
  }

  // ---------------------------------------------------------------- the condition is needed

  ghost function Nest(ks: seq<string>, x: Value): Value {
    if |ks| == 0 then x else Obj([Field(ks[0], Nest(ks[1..], x))])
  }

  lemma {:induction false} NestInjective(ks: seq<string>, x: Value, y: Value)
    requires Nest(ks, x) == Nest(ks, y)
    ensures x == y
  {
    if |ks| != 0 {
      assert [Field(ks[0], Nest(ks[1..], x))][0] == [Field(ks[0], Nest(ks[1..], y))][0];
      NestInjective(ks[1..], x, y);
    }
  }

  lemma {:induction false} NestPlain(ctx: MaskContext, ks: seq<string>, x: Value)
    requires (forall m :: 0 <= m < |ks| ==> PlainKey(ctx, ks[m])) && PlainKeys(ctx, x) && WellFormed(x)
    ensures PlainKeys(ctx, Nest(ks, x)) && WellFormed(Nest(ks, x))
  {
    if |ks| != 0 { NestPlain(ctx, ks[1..], x); }
  }

  lemma {:induction false} MaskSingle(k: string, w: Value, ctx: MaskContext, at: Place, parentKey: Option<string>,
          depth: nat, fast: bool)
    requires depth <= ctx.maxDepth && MatchRule(ctx, Current(at), fast).None?
    ensures Mask(Obj([Field(k, w)]), ctx, at, parentKey, depth, fast)
         == Obj([Field(k, Mask(w, ctx, Under(at, Key(k)), Some(k), depth + 1, fast))])
  {
    var fs := [Field(k, w)];
    assert MaskFields(fs, ctx, at, depth, fast)
        == [Field(k, Mask(w, ctx, Under(at, Key(k)), Some(k), depth + 1, fast))];
  }

  ghost predicate Quiet(ctx: MaskContext, ks: seq<string>, m: nat, fast: bool)
    requires m <= |ks|
  {
    MatchRule(ctx, [Root] + KeySegments(ks[..m]), fast).None?
  }

  lemma ReachPlace(ctx: MaskContext, j: nat, m: nat) returns (at: Place)
    requires WellBuilt(ctx) && |ctx.rules| <= SENTINEL && Live(ctx, j) && m <= |PiecesOf(ctx, j)|
    ensures Unmatched(ctx, at) && Segments(at) == KeySegments(PiecesOf(ctx, j)[..m])
    decreases m, 0
  {
    if m == 0 {
      at := Top;
    } else {
      var ks := PiecesOf(ctx, j);
      NoMatchOnTheWay(ctx, j, m - 1);
      var parent := ReachPlace(ctx, j, m - 1);
      at := StepPlace(ctx, ks, m - 1, parent);
    }
  }

  lemma StepPlace(ctx: MaskContext, ks: seq<string>, m: nat, parent: Place) returns (at: Place)
    requires m < |ks| && Quiet(ctx, ks, m, true) && Unmatched(ctx, parent) && Segments(parent) == KeySegments(ks[..m])
    ensures Unmatched(ctx, at) && Segments(at) == KeySegments(ks[..m + 1])
  {
    at := Under(parent, Key(ks[m]));
    assert Segments(at) == KeySegments(ks[..m + 1]);
  }

  /** Above a live rule's position the code is silent too: a rule it could select there would be extended. */
  lemma NoMatchOnTheWay(ctx: MaskContext, j: nat, m: nat)
    requires WellBuilt(ctx) && |ctx.rules| <= SENTINEL && Live(ctx, j) && m < |PiecesOf(ctx, j)|
    ensures Quiet(ctx, PiecesOf(ctx, j), m, true) && Quiet(ctx, PiecesOf(ctx, j), m, false)
    decreases m, 1
  {
    var ks := PiecesOf(ctx, j);
    var at := ReachPlace(ctx, j, m);
    assert PlainPath(ctx, Segments(at)) by {
      forall i | 0 <= i < m ensures PlainKey(ctx, Segments(at)[i].k) { assert PlainKey(ctx, ks[i]); }
    }
    if CompiledMatch(ctx, Current(at)).Some? {
      var i := FiresAtItsPath(ctx, at);
      SamePieces(PiecesOf(ctx, i), ks[..m]);
      ShorterIsExtended(ctx, i, j, m);
    }
  }

  lemma SamePieces(a: seq<string>, b: seq<string>)
    requires KeySegments(a) == KeySegments(b)
    ensures a == b
  {
    forall i | 0 <= i < |a| ensures a[i] == b[i] { assert KeySegments(a)[i] == KeySegments(b)[i]; }
  }

  lemma ShorterIsExtended(ctx: MaskContext, i: nat, j: nat, m: nat)
    requires i < |ctx.rules| && j < |ctx.rules| && m < |PiecesOf(ctx, j)| && PiecesOf(ctx, i) == PiecesOf(ctx, j)[..m]
    ensures !Selected(Hashes(ctx), i, Hashes(ctx)[i])
  {
    var hi, hj := Hashes(ctx)[i], Hashes(ctx)[j];
    assert hi == hj[..m];
    assert hi <= hj && hi != hj;
  }

  /** Whatever stands at the end of the path is masked to `y`. */
  ghost predicate EndsAs(ctx: MaskContext, ks: seq<string>, x: Value, y: Value, fast: bool) {
    forall at, parentKey :: Segments(at) == KeySegments(ks) ==> Mask(x, ctx, at, parentKey, |ks|, fast) == y
  }

  /** Masking a chain of single-key objects masks what stands at its end. */
  lemma {:induction false} MaskNest(ctx: MaskContext, ks: seq<string>, n: nat, x: Value, y: Value,
          at: Place, parentKey: Option<string>, fast: bool)
    requires n <= |ks| <= ctx.maxDepth && Segments(at) == KeySegments(ks[..n])
    requires forall m :: 0 <= m < |ks| ==> Quiet(ctx, ks, m, fast)
    requires EndsAs(ctx, ks, x, y, fast)
    ensures Mask(Nest(ks[n..], x), ctx, at, parentKey, n, fast) == Nest(ks[n..], y)
    decreases |ks| - n
  {
    if n == |ks| {
      assert ks[..n] == ks;
    } else {
      var next := Under(at, Key(ks[n]));
      assert Segments(next) == KeySegments(ks[..n + 1]);
      assert Quiet(ctx, ks, n, fast);
      assert ks[n..][0] == ks[n] && ks[n..][1..] == ks[n + 1..];
      MaskNest(ctx, ks, n + 1, x, y, next, Some(ks[n]), fast);
      MaskSingle(ks[n], Nest(ks[n + 1..], x), ctx, at, parentKey, n, fast);
    }
  }

  lemma {:induction false} MaskNestDocument(ctx: MaskContext, j: nat, x: Value, y: Value, fast: bool)
    requires WellBuilt(ctx) && |ctx.rules| <= SENTINEL && Live(ctx, j) && EndsAs(ctx, PiecesOf(ctx, j), x, y, fast)
    ensures Mask(Nest(PiecesOf(ctx, j), x), ctx, Top, None, 0, fast) == Nest(PiecesOf(ctx, j), y)
  {
    var ks := PiecesOf(ctx, j);
    forall m | 0 <= m < |ks| ensures Quiet(ctx, ks, m, fast) { NoMatchOnTheWay(ctx, j, m); }
    assert ks[0..] == ks && ks[..0] == [];
    MaskNest(ctx, ks, 0, x, y, Top, None, fast);
  }

  /** At the end of a live rule's path the code applies the rule. */
  lemma {:induction false} CodeApplies(ctx: MaskContext, j: nat, x: Value)
    requires WellBuilt(ctx) && |ctx.rules| <= SENTINEL && Live(ctx, j)
    ensures MaskDocument(Nest(PiecesOf(ctx, j), x), ctx)
         == Nest(PiecesOf(ctx, j), Apply(x, ctx.rules[j].rule, ctx.regexes))
  {
    SelectedFires(ctx, j);
    MaskNestDocument(ctx, j, x, Apply(x, ctx.rules[j].rule, ctx.regexes), true);
  }

  /** The list applies its first match there. */
  lemma {:induction false} ListApplies(ctx: MaskContext, j: nat, x: Value)
    requires WellBuilt(ctx) && |ctx.rules| <= SENTINEL && Live(ctx, j)
    requires ListMatch(ctx.rules, CodePath(ctx, j), 0).Some?
    ensures MaskByList(Nest(PiecesOf(ctx, j), x), ctx)
         == Nest(PiecesOf(ctx, j), Apply(x, ListMatch(ctx.rules, CodePath(ctx, j), 0).value, ctx.regexes))
  {
    MaskNestDocument(ctx, j, x, Apply(x, ListMatch(ctx.rules, CodePath(ctx, j), 0).value, ctx.regexes), false);
  }

  // ---------------------------------------------------------------- brackets

  ghost predicate HasBracket(p: seq<Segment>) {
    exists i :: 0 <= i < |p| && p[i].Key? && '[' in p[i].k
  }

  lemma BracketWithin(a: seq<Segment>, p: seq<Segment>, b: seq<Segment>)
    requires HasBracket(p)
    ensures HasBracket(a + p) && HasBracket(p + b)
  {
    var i :| 0 <= i < |p| && p[i].Key? && '[' in p[i].k;
    assert (a + p)[|a| + i] == p[i] && (p + b)[i] == p[i];
  }

  lemma MatchedHasNone(clean: seq<Segment>, current: seq<Segment>)
    requires Clean(clean, true) && SegmentsMatch([Root] + clean, current)
    ensures !HasBracket(current)
  {
    forall i | 0 <= i < |current| && current[i].Key? ensures '[' !in current[i].k {
      assert SegmentMatches(([Root] + clean)[i], current[i]);
      assert ([Root] + clean)[i] == clean[i - 1];
      assert CleanSegment(clean[i - 1], true);
    }
  }

  /** The list never matches at or below a key that holds a bracket. */
  lemma {:induction false} BracketUnlisted(ctx: MaskContext, current: seq<Segment>, from: nat)
    requires WellBuilt(ctx) && HasBracket(current)
    ensures ListMatch(ctx.rules, current, from).None?
    decreases |ctx.rules| - from
  {
    if from < |ctx.rules| {
      BracketUnlisted(ctx, current, from + 1);
      var path := TrimDollars(ctx.rules[from].rule.jsonPath);
      ParsedIsClean(path, "", true);
      if SegmentsMatch(ctx.rules[from].segments, current) { MatchedHasNone(ParseChars(path, "", true), current); }
    }
  }

  /** The position a rule names to the code is listed exactly when no piece holds a bracket. */
  lemma ListedWithoutBrackets(ctx: MaskContext, j: nat)
    requires WellBuilt(ctx) && j < |ctx.rules|
    ensures ListMatch(ctx.rules, CodePath(ctx, j), 0).Some? <==> NoBrackets(PiecesOf(ctx, j))
  {
    var ks := PiecesOf(ctx, j);
    if NoBrackets(ks) {
      RuleOfPieces(ctx, j);
      MatchesItself(ks);
      var first := FindFirstMatch(ctx.rules, CodePath(ctx, j), 0, j);
    } else {
      BracketPiece(ks);
      BracketUnlisted(ctx, CodePath(ctx, j), 0);
    }
  }

  /** Arrays in arrays, and what the depth limit leaves of them when no rule matches. */
  ghost function Deep(n: nat): Value {
    if n == 0 then Null else Arr([Deep(n - 1)])
  }

  ghost function Cut(n: nat, room: nat): Value
    decreases n
  {
    if n == 0 then Null else Arr([if room == 0 then Str(DEPTH_EXCEEDED) else Cut(n - 1, room - 1)])
  }

  lemma {:induction false} CutDiffers(n: nat, room: nat)
    requires n > room
    ensures Cut(n, room) != Deep(n)
    decreases n
  {
    assert Arr([Deep(n - 1)]).items[0] == Deep(n - 1);
    if room > 0 {
      CutDiffers(n - 1, room - 1);
      assert Arr([Cut(n - 1, room - 1)]).items[0] == Cut(n - 1, room - 1);
    } else {
      assert Arr([Str(DEPTH_EXCEEDED)]).items[0] == Str(DEPTH_EXCEEDED);
    }
  }

  lemma {:induction false} DeepIsPlain(ctx: MaskContext, n: nat)
    ensures PlainKeys(ctx, Deep(n)) && WellFormed(Deep(n))
  {
    if n > 0 { DeepIsPlain(ctx, n - 1); }
  }

  lemma {:induction false} MaskOneItem(w: Value, ctx: MaskContext, at: Place, parentKey: Option<string>, depth: nat)
    requires depth <= ctx.maxDepth && ListMatch(ctx.rules, Current(at), 0).None?
    ensures Mask(Arr([w]), ctx, at, parentKey, depth, false)
         == Arr([Mask(w, ctx, Under(at, Index(0)), parentKey, depth + 1, false)])
  {
    var items := [w];
    assert MaskItems(items, ctx, at, parentKey, depth, false)
        == [Mask(w, ctx, Under(at, Index(0)), parentKey, depth + 1, false)];
  }

  lemma {:induction false} BelowBracket(ctx: MaskContext, at: Place)
    requires WellBuilt(ctx) && HasBracket(Segments(at))
    ensures ListMatch(ctx.rules, Current(at), 0).None? && HasBracket(Segments(Under(at, Index(0))))
  {
    BracketWithin([Root], Segments(at), [Index(0)]);
    BracketUnlisted(ctx, Current(at), 0);
  }

  lemma {:induction false} ListCuts(ctx: MaskContext, n: nat, at: Place, parentKey: Option<string>, depth: nat)
    requires WellBuilt(ctx) && HasBracket(Segments(at)) && depth <= ctx.maxDepth
    ensures Mask(Deep(n), ctx, at, parentKey, depth, false) == Cut(n, ctx.maxDepth - depth)
    decreases n
  {
    BelowBracket(ctx, at);
    if n > 0 {
      MaskOneItem(Deep(n - 1), ctx, at, parentKey, depth);
      if depth < ctx.maxDepth { ListCuts(ctx, n - 1, Under(at, Index(0)), parentKey, depth + 1); }
    }
  }

  // ---------------------------------------------------------------- main result

  /** Two rules that differ at all differ on a string or on null. */
  lemma EffectWitness(ctx: MaskContext, r: MaskRule, s: MaskRule) returns (x: Value)
    requires !SameEffect(ctx, r, s)
    ensures (x.Str? || x.Null?) && Apply(x, r, ctx.regexes) != Apply(x, s, ctx.regexes)
  {
    var v :| Apply(v, r, ctx.regexes) != Apply(v, s, ctx.regexes);
    x := if v.Str? then v else Null;
  }

  lemma DuplicateShows(ctx: MaskContext, j: nat) returns (v: Value)
    requires WellBuilt(ctx) && |ctx.rules| <= SENTINEL && Live(ctx, j) && !Listed(ctx, j)
    requires ListMatch(ctx.rules, CodePath(ctx, j), 0).Some?
    ensures WellFormed(v) && PlainKeys(ctx, v) && !AgreesOn(ctx, v)
  {
    var ks, first := PiecesOf(ctx, j), ListMatch(ctx.rules, CodePath(ctx, j), 0).value;
    var x := EffectWitness(ctx, first, ctx.rules[j].rule);
    v := Nest(ks, x);
    NestPlain(ctx, ks, x);
    CodeApplies(ctx, j, x);
    ListApplies(ctx, j, x);
    if AgreesOn(ctx, v) {
      NestInjective(ks, Apply(x, ctx.rules[j].rule, ctx.regexes), Apply(x, first, ctx.regexes));
    }
  }

  /** A rule the code reads as bracket keys: it replaces or keeps what the list would cut off. */
  lemma BracketShows(ctx: MaskContext, j: nat) returns (v: Value)
    requires WellBuilt(ctx) && |ctx.rules| <= SENTINEL && Live(ctx, j)
    requires ListMatch(ctx.rules, CodePath(ctx, j), 0).None?
    ensures WellFormed(v) && PlainKeys(ctx, v) && !AgreesOn(ctx, v)
  {
    var ks, n := PiecesOf(ctx, j), ctx.maxDepth + 1;
    var x, cut := Deep(n), Cut(n, ctx.maxDepth - |ks|);
    v := Nest(ks, x);
    DeepIsPlain(ctx, n);
    NestPlain(ctx, ks, x);
    CodeApplies(ctx, j, x);
    BracketEnds(ctx, j, n);
    MaskNestDocument(ctx, j, x, cut, false);
    CutDiffers(n, ctx.maxDepth - |ks|);
    if AgreesOn(ctx, v) { NestInjective(ks, Apply(x, ctx.rules[j].rule, ctx.regexes), cut); }
  }

  lemma {:induction false} BracketEnds(ctx: MaskContext, j: nat, n: nat)
    requires WellBuilt(ctx) && Live(ctx, j) && ListMatch(ctx.rules, CodePath(ctx, j), 0).None?
    ensures EndsAs(ctx, PiecesOf(ctx, j), Deep(n), Cut(n, ctx.maxDepth - |PiecesOf(ctx, j)|), false)
  {
    var ks := PiecesOf(ctx, j);
    ListedWithoutBrackets(ctx, j);
    BracketPiece(ks);
    forall at, parentKey | Segments(at) == KeySegments(ks)
      ensures Mask(Deep(n), ctx, at, parentKey, |ks|, false) == Cut(n, ctx.maxDepth - |ks|)
    {
      ListCuts(ctx, n, at, parentKey, |ks|);
    }
  }

  lemma BracketPiece(ks: seq<string>)
    requires !NoBrackets(ks)
    ensures HasBracket(KeySegments(ks)) && HasBracket([Root] + KeySegments(ks))
  {
    var i :| 0 <= i < |ks| && '[' in ks[i];
    assert KeySegments(ks)[i] == Key(ks[i]) && ([Root] + KeySegments(ks))[i + 1] == Key(ks[i]);
  }

  lemma UnlistedShows(ctx: MaskContext, j: nat) returns (v: Value)
    requires WellBuilt(ctx) && |ctx.rules| <= SENTINEL && Live(ctx, j) && !Listed(ctx, j)
    ensures WellFormed(v) && PlainKeys(ctx, v) && !AgreesOn(ctx, v)
  {
    if ListMatch(ctx.rules, CodePath(ctx, j), 0).Some? {
      v := DuplicateShows(ctx, j);
    } else {
      v := BracketShows(ctx, j);
    }
  }

  /** Compiled masking with fallback equals masking by the rule list alone, on every document whose keys
      collide with no rule piece, exactly when every live rule is listed: no piece of it holds a bracket,
      and the first rule for its path does what the last one does. */
  lemma {:induction false} CompiledMaskingAgrees(ctx: MaskContext)
    requires WellBuilt(ctx) && |ctx.rules| <= SENTINEL
    ensures (forall v :: WellFormed(v) && PlainKeys(ctx, v) ==> AgreesOn(ctx, v)) <==> LiveRulesListed(ctx)
  {
    if LiveRulesListed(ctx) {
      ReadyAtTop(ctx);
      forall v | PlainKeys(ctx, v) ensures AgreesOn(ctx, v) { MaskAgrees(v, ctx, Top, None, 0); }
    } else {
      var j: nat :| Live(ctx, j) && !Listed(ctx, j);
      var v := UnlistedShows(ctx, j);
    }
  }

  /** Rules without brackets and with pairwise different segments are listed. */
  lemma DistinctRulesListed(ctx: MaskContext)
    requires WellBuilt(ctx) && forall i :: 0 <= i < |ctx.rules| ==> NoBrackets(PiecesOf(ctx, i))
    requires forall i, j :: 0 <= i < j < |ctx.rules| ==> ctx.rules[i].segments != ctx.rules[j].segments
    ensures LiveRulesListed(ctx)
  {
    forall j: nat | Live(ctx, j) ensures Listed(ctx, j) {
      DistinctRuleListed(ctx, j);
    }
  }

  lemma DistinctRuleListed(ctx: MaskContext, j: nat)
    requires WellBuilt(ctx) && j < |ctx.rules| && NoBrackets(PiecesOf(ctx, j))
    requires forall i, k :: 0 <= i < k < |ctx.rules| ==> ctx.rules[i].segments != ctx.rules[k].segments
    ensures Listed(ctx, j)
  {
    RuleOfPieces(ctx, j);
    MatchesItself(PiecesOf(ctx, j));
    var i := FindFirstMatch(ctx.rules, CodePath(ctx, j), 0, j);
    KeyPathMatch(ctx.rules[i].segments, PiecesOf(ctx, j));
    assert i == j;
  }

  /** Only the path itself matches a path of keys. */
  lemma KeyPathMatch(r: seq<Segment>, ks: seq<string>)
    requires SegmentsMatch(r, [Root] + KeySegments(ks))
    ensures r == [Root] + KeySegments(ks)
  {
    var c := [Root] + KeySegments(ks);
    forall m | 0 <= m < |c| ensures r[m] == c[m] { assert SegmentMatches(r[m], c[m]); }
  }

  // ---------------------------------------------------------------- where the two differ

  lemma SingleKeyPath()
    ensures SplitPath("$.a") == ["a"]
  {
    assert "$.a"[1..] == ".a";
    assert TrimDollars("$.a") == ".a";
    assert ".a"[1..] == "a" && "a"[1..] == "" && "" + ['a'] == "a";
    assert SplitChars("", "a") == ["a"];
    assert SplitChars("a", "") == ["a"];
    assert SplitChars(".a", "") == FlushText("") + ["a"] == ["a"];
  }

  lemma {:induction false} SecondOfTwo(ctx: MaskContext, ks: seq<string>)
    requires |ctx.rules| == 2 && PiecesOf(ctx, 0) == ks && PiecesOf(ctx, 1) == ks
    ensures Hashes(ctx)[1] == HashAll(ks) && Selected(Hashes(ctx), 1, Hashes(ctx)[1])
  {
    assert Hashes(ctx) == [HashAll(ks), HashAll(ks)];
  }

  lemma FirstOfTwo(ctx: MaskContext, ks: seq<string>)
    requires |ctx.rules| == 2 && ctx.rules[0].segments == ctx.rules[1].segments == [Root] + KeySegments(ks)
    ensures ListMatch(ctx.rules, [Root] + KeySegments(ks), 0) == Some(ctx.rules[0].rule)
    ensures ks != [] ==> ListMatch(ctx.rules, [Root], 0).None?
  {
    MatchesItself(ks);
    if ks != [] { NotAtRoot(ctx.rules, 0); }
  }

  lemma SecondRuleIsLive(ctx: MaskContext, k: string)
    requires WellBuilt(ctx) && |ctx.rules| == 2 && ctx.maxDepth > 0 && '[' !in k
    requires PiecesOf(ctx, 0) == [k] && PiecesOf(ctx, 1) == [k]
    ensures Live(ctx, 1) && ListMatch(ctx.rules, CodePath(ctx, 1), 0) == Some(ctx.rules[0].rule)
  {
    RuleOfPieces(ctx, 0);
    RuleOfPieces(ctx, 1);
    SecondOfTwo(ctx, [k]);
    FirstOfTwo(ctx, [k]);
    OneKeyPath(ctx, k);
    OneKeyLive(ctx, 1, k);
  }

  lemma OneKeyLive(ctx: MaskContext, j: nat, k: string)
    requires j < |ctx.rules| && PiecesOf(ctx, j) == [k] && ctx.maxDepth > 0 && PlainKey(ctx, k)
    requires Selected(Hashes(ctx), j, Hashes(ctx)[j]) && ListMatch(ctx.rules, [Root], 0).None?
    ensures Live(ctx, j)
  {
    assert [Root] + KeySegments([k][..0]) == [Root];
  }

  lemma OneKeyPath(ctx: MaskContext, k: string)
    requires forall i :: 0 <= i < |ctx.rules| ==> PiecesOf(ctx, i) == [k]
    ensures PlainKey(ctx, k)
  {
  }

  lemma {:induction false} NotAtRoot(rules: seq<ParsedRule>, i: nat)
    requires forall j :: 0 <= j < |rules| ==> |rules[j].segments| > 1
    ensures ListMatch(rules, [Root], i).None?
    decreases |rules| - i
  {
    if i < |rules| { NotAtRoot(rules, i + 1); }
  }

  lemma {:induction false} NestOne(k: string, x: Value)
    ensures Nest([k], x) == Obj([Field(k, x)])
  {
    assert [k][1..] == [];
  }

  /** Of two rules for one key, the code applies the second and the list the first. */
  lemma TwoRulesMask(ctx: MaskContext, k: string, x: Value)
    requires WellBuilt(ctx) && |ctx.rules| == 2 && ctx.maxDepth > 0 && '[' !in k
    requires PiecesOf(ctx, 0) == [k] && PiecesOf(ctx, 1) == [k]
    ensures MaskDocument(Obj([Field(k, x)]), ctx) == Obj([Field(k, Apply(x, ctx.rules[1].rule, ctx.regexes))])
    ensures MaskByList(Obj([Field(k, x)]), ctx) == Obj([Field(k, Apply(x, ctx.rules[0].rule, ctx.regexes))])
  {
    SecondRuleIsLive(ctx, k);
    CodeApplies(ctx, 1, x);
    ListApplies(ctx, 1, x);
    NestOne(k, x);
    NestOne(k, Apply(x, ctx.rules[1].rule, ctx.regexes));
    NestOne(k, Apply(x, ctx.rules[0].rule, ctx.regexes));
  }

  /** Two rules for one path, and a document on which compiled and list masking differ. */
  method DuplicateRulesDisagree(re: Regexes) returns (ctx: MaskContext, v: Value)
    ensures WellBuilt(ctx) && RulePaths(ctx.rules) == ["$.a", "$.a"] && WellFormed(v) && PlainKeys(ctx, v)
    ensures MaskDocument(v, ctx) == Obj([Field("a", Str("second"))])
    ensures MaskByList(v, ctx) == Obj([Field("a", Str("first"))])
  {
    ctx := NewContext(false, false, {}, [MaskRule("$.a", "first", None), MaskRule("$.a", "second", None)], [], re);
    v := Obj([Field("a", Null)]);
    SingleKeyPath();
    OneKeyPath(ctx, "a");
    TwoRulesMask(ctx, "a", Null);
  }

  lemma BracketPieces()
    ensures SplitPath("$.a[*]") == ["a[*]"]
  {
    var s := "a[*]";
    assert "$.a[*]"[1..] == ".a[*]";
    assert TrimDollars("$.a[*]") == ".a[*]";
    assert ".a[*]"[1..] == s;
    NoDots(s, "");
    assert "" + s == s;
  }

  lemma {:induction false} NoDots(cs: string, cur: string)
    requires '.' !in cs
    ensures SplitChars(cs, cur) == FlushText(cur + cs)
    decreases |cs|
  {
    if |cs| == 0 {
      assert cur + cs == cur;
    } else {
      assert cs[0] in cs;
      NoDots(cs[1..], cur + [cs[0]]);
      assert cur + [cs[0]] + cs[1..] == cur + cs;
    }
  }

  lemma BracketSegments()
    ensures ParseMaskPath("$.a[*]") == [Root, Key("a"), Wildcard]
  {
    var p := [Key("a"), Wildcard];
    assert p[1..] == [Wildcard] && p[1..][1..] == [];
    assert Pieces(p[1..]) == "[*]";
    assert Pieces(p) == ".a" + "[*]";
    assert Render(p) == "$.a[*]";
    assert CleanKey("a");
    PrintParse(p);
  }

  lemma OnlyRuleFires(ctx: MaskContext, ks: seq<string>)
    requires WellBuilt(ctx) && |ctx.rules| == 1 && PiecesOf(ctx, 0) == ks && ks != []
    ensures CompiledMatch(ctx, [Root] + KeySegments(ks)) == Some(ctx.rules[0].rule)
  {
    assert Hashes(ctx) == [HashAll(ks)];
    SelectedFires(ctx, 0);
  }

  /** A rule whose path is one piece, but more than one segment, fires on a key it does not name. */
  lemma OnePieceRule(ctx: MaskContext, path: string, k: string)
    requires WellBuilt(ctx) && |ctx.rules| == 1 && ctx.rules[0].rule.jsonPath == path
    requires SplitPath(path) == [k] && |ParseMaskPath(path)| > 2
    ensures CompiledMatch(ctx, [Root, Key(k)]) == Some(ctx.rules[0].rule)
    ensures ListMatch(ctx.rules, [Root, Key(k)], 0).None? && MatchRule(ctx, [Root], true).None?
  {
    OnlyRuleFires(ctx, [k]);
    assert [Root] + KeySegments([k]) == [Root, Key(k)];
    assert ListMatch(ctx.rules, [Root, Key(k)], 1).None? && ListMatch(ctx.rules, [Root], 1).None?;
  }

  lemma MaskOnePiece(ctx: MaskContext, path: string, k: string)
    requires WellBuilt(ctx) && |ctx.rules| == 1 && ctx.rules[0].rule.jsonPath == path && ctx.maxDepth > 0
    requires SplitPath(path) == [k] && |ParseMaskPath(path)| > 2
    ensures MaskDocument(Obj([Field(k, Null)]), ctx) == Obj([Field(k, Apply(Null, ctx.rules[0].rule, ctx.regexes))])
    ensures MaskByList(Obj([Field(k, Null)]), ctx) == Obj([Field(k, Null)])
  {
    OnePieceRule(ctx, path, k);
    assert Current(Top) == [Root] && Current(Under(Top, Key(k))) == [Root, Key(k)];
    MaskSingle(k, Null, ctx, Top, None, 0, true);
    MaskSingle(k, Null, ctx, Top, None, 0, false);
  }

  /** A key that spells a bracket: the code reads a wildcard rule as that key. */
  method BracketKeyDisagrees(re: Regexes) returns (ctx: MaskContext, v: Value)
    ensures WellBuilt(ctx) && RulePaths(ctx.rules) == ["$.a[*]"] && WellFormed(v) && PlainKeys(ctx, v)
    ensures MaskDocument(v, ctx) == Obj([Field("a[*]", Str("masked"))]) && MaskByList(v, ctx) == v
  {
    ctx := NewContext(false, false, {}, [MaskRule("$.a[*]", "masked", None)], [], re);
    v := Obj([Field("a[*]", Null)]);
    BracketPieces();
    BracketSegments();
    OneKeyPath(ctx, "a[*]");
    MaskOnePiece(ctx, "$.a[*]", "a[*]");
  }
}
