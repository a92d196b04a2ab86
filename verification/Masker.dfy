/** The masker: a traversal that replaces values by path rules, by a strict mode with an allow-list,
    and by value heuristics. `Mask` is its meaning; the methods are the program. */
module Masker {
  import opened Json
  import opened Paths
  import opened Fnv
  import opened RuleTrie
  import opened RuleCompiler

  datatype MaskRule = MaskRule(jsonPath: string, replacement: string, pattern: Option<string>)

  datatype ParsedRule = ParsedRule(segments: seq<Segment>, rule: MaskRule)

  /** The foreign code: the regular expressions behind the heuristics and behind pattern rules. */
  datatype Regexes = Regexes(
    uuid: string -> bool, jwt: string -> bool, objectId: string -> bool, ssn: string -> bool,
    creditCard: string -> bool, email: string -> bool, timestamp: string -> bool,
    timeKey: string -> bool, epoch: Number -> bool,
    compiles: string -> bool, replaceAll: (string, string, string) -> string)

  datatype MaskContext = MaskContext(
    heuristics: bool,
    strictPii: bool,
    maxDepth: nat,
    allowList: set<string>,
    rules: seq<ParsedRule>,
    compiled: Option<Code>,
    regexes: Regexes)

  const DEPTH_EXCEEDED := "<DEPTH_EXCEEDED>"
  const REDACTED := "<REDACTED>"
  const MASKED_UUID := "<MASKED_UUID>"
  const MASKED_JWT := "<MASKED_JWT>"
  const MASKED_OBJECT_ID := "<MASKED_OBJECT_ID>"
  const MASKED_SSN := "<MASKED_SSN>"
  const MASKED_CREDIT_CARD := "<MASKED_CREDIT_CARD>"
  const MASKED_EMAIL := "<MASKED_EMAIL>"
  const MASKED_TIMESTAMP := "<MASKED_TIMESTAMP>"
  const MASKED_EPOCH := "<MASKED_EPOCH>"

  // ---------------------------------------------------------------- matching

  predicate SegmentMatches(r: Segment, c: Segment) {
    match (r, c)
    case (Root, Root) => true
    case (Key(k), Key(l)) => k == l
    case (Index(i), Index(j)) => i == j
    case (Wildcard, Index(_)) => true
    case _ => false
  }

  predicate SegmentsMatch(rule: seq<Segment>, current: seq<Segment>) {
    |rule| == |current| && forall i :: 0 <= i < |rule| ==> SegmentMatches(rule[i], current[i])
  }

  /** The fallback: the first rule from `i` on that matches. */
  function ListMatch(rules: seq<ParsedRule>, current: seq<Segment>, i: nat): Option<MaskRule>
    decreases |rules| - i
  {
    if i >= |rules| then None
    else if SegmentsMatch(rules[i].segments, current) then Some(rules[i].rule)
    else ListMatch(rules, current, i + 1)
  }

  predicate KeyOnly(current: seq<Segment>) {
    forall i :: 1 <= i < |current| ==> current[i].Key?
  }

  function KeyHashes(current: seq<Segment>): seq<Hash64> {
    if |current| == 0 then []
    else
      var last := current[|current| - 1];
      KeyHashes(current[..|current| - 1]) + [if last.Key? then Fnv1a(last.k) else 0]
  }

  /** The fast path: compiled code, on paths made of keys only. */
  function CompiledMatch(ctx: MaskContext, current: seq<Segment>): Option<MaskRule> {
    if ctx.compiled.Some? && KeyOnly(current) && |current| > 1 then
      match Execute(ctx.compiled.value, KeyHashes(current[1..]))
      case Returned(v) => if v != SENTINEL && v < |ctx.rules| then Some(ctx.rules[v].rule) else None
      case Trapped => None
    else None
  }

  function MatchRule(ctx: MaskContext, current: seq<Segment>, fast: bool): Option<MaskRule> {
    if fast && CompiledMatch(ctx, current).Some? then CompiledMatch(ctx, current)
    else ListMatch(ctx.rules, current, 0)
  }

  // ---------------------------------------------------------------- masking a value

  function Apply(v: Value, rule: MaskRule, re: Regexes): Value {
    match rule.pattern
    case None => Str(rule.replacement)
    case Some(p) => if re.compiles(p) && v.Str? then Str(re.replaceAll(p, v.s, rule.replacement)) else v
  }

  predicate LooksMasked(s: string) {
    "<MASKED_" <= s && |s| > 0 && s[|s| - 1] == '>'
  }

  function MaskString(s: string, re: Regexes): string {
    if LooksMasked(s) then s
    else if re.uuid(s) then MASKED_UUID
    else if re.jwt(s) then MASKED_JWT
    else if re.objectId(s) then MASKED_OBJECT_ID
    else if re.ssn(s) then MASKED_SSN
    else if re.creditCard(s) then MASKED_CREDIT_CARD
    else if re.email(s) then MASKED_EMAIL
    else if re.timestamp(s) then MASKED_TIMESTAMP
    else s
  }

  predicate IsLeaf(v: Value) {
    v.Str? || v.Num? || v.Bool?
  }

  /** A scalar, once no rule has matched and strict mode has let it through. */
  function MaskScalar(v: Value, ctx: MaskContext, parentKey: Option<string>): Value {
    match v
    case Str(s) => if ctx.heuristics then Str(MaskString(s, ctx.regexes)) else v
    case Num(n) =>
      if ctx.heuristics && parentKey.Some? && ctx.regexes.timeKey(parentKey.value) && ctx.regexes.epoch(n)
      then Str(MASKED_EPOCH) else v
    case _ => v
  }

  predicate Redacts(v: Value, ctx: MaskContext, at: Place) {
    ctx.strictPii && IsLeaf(v) && Printed(at) !in ctx.allowList
  }

  function Current(at: Place): seq<Segment> {
    [Root] + Segments(at)
  }

  /** Masking the value at a position. With `fast` unset, only the rule list is consulted. */
  function Mask(v: Value, ctx: MaskContext, at: Place, parentKey: Option<string>, depth: nat, fast: bool): Value
    decreases v
  {
    if depth > ctx.maxDepth then Str(DEPTH_EXCEEDED)
    else
      match MatchRule(ctx, Current(at), fast)
      case Some(rule) => Apply(v, rule, ctx.regexes)
      case None =>
        if Redacts(v, ctx, at) then Str(REDACTED)
        else
          match v
          case Obj(fs) => Obj(MaskFields(fs, ctx, at, depth, fast))
          case Arr(items) => Arr(MaskItems(items, ctx, at, parentKey, depth, fast))
          case _ => MaskScalar(v, ctx, parentKey)
  }

  function MaskFields(fs: seq<Field>, ctx: MaskContext, at: Place, depth: nat, fast: bool): seq<Field>
    decreases fs
  {
    seq(|fs|, i requires 0 <= i < |fs| =>
      Field(fs[i].key, Mask(fs[i].value, ctx, Under(at, Key(fs[i].key)), Some(fs[i].key), depth + 1, fast)))
  }

  function MaskItems(items: seq<Value>, ctx: MaskContext, at: Place, parentKey: Option<string>, depth: nat,
          fast: bool): seq<Value>
    decreases items
  {
    seq(|items|, i requires 0 <= i < |items| => Mask(items[i], ctx, Under(at, Index(i)), parentKey, depth + 1, fast))
  }

  function MaskDocument(v: Value, ctx: MaskContext): Value {
    Mask(v, ctx, Top, None, 0, true)
  }

  // ---------------------------------------------------------------- contexts

  function RulePaths(rules: seq<ParsedRule>): seq<string> {
    seq(|rules|, i requires 0 <= i < |rules| => rules[i].rule.jsonPath)
  }

  /** What `MaskContext::new` establishes: rules parsed from their paths, and compiled together. */
  ghost predicate WellBuilt(ctx: MaskContext) {
    && (forall i :: 0 <= i < |ctx.rules| ==> ctx.rules[i].segments == ParseMaskPath(ctx.rules[i].rule.jsonPath))
    && (ctx.compiled.Some? <==> ctx.rules != [])
    && (ctx.compiled.Some? ==> forall input ::
          Execute(ctx.compiled.value, input) == Returned(Match(BuildTrie(RuleHashes(RulePaths(ctx.rules))), input)))
  }

  method NewContext(heuristics: bool, strictPii: bool, allowList: set<string>, globalRules: seq<MaskRule>,
                    overrides: seq<MaskRule>, re: Regexes) returns (ctx: MaskContext)
    ensures WellBuilt(ctx)
    ensures |ctx.rules| == |globalRules + overrides|
    ensures forall i :: 0 <= i < |ctx.rules| ==> ctx.rules[i].rule == (globalRules + overrides)[i]
    ensures ctx.heuristics == heuristics && ctx.strictPii == strictPii && ctx.allowList == allowList
    ensures ctx.maxDepth == 512 && ctx.regexes == re
  {
    var rules: seq<ParsedRule> := [];
    var all := globalRules + overrides;
    for i := 0 to |all|
      invariant |rules| == i
      invariant forall j :: 0 <= j < i ==>
        rules[j].rule == all[j] && rules[j].segments == ParseMaskPath(all[j].jsonPath)
    {
      var segments := ParseJsonPathToSegments(all[i].jsonPath);
      rules := rules + [ParsedRule(segments, all[i])];
    }
    var compiled: Option<Code> := None;
    if rules != [] {
      var code := CompileRules(RulePaths(rules));
      compiled := Some(code);
    }
    ctx := MaskContext(heuristics, strictPii, 512, allowList, rules, compiled, re);
  }

  // ---------------------------------------------------------------- program

  /** `current_segments: &mut Vec<PathSegment>`. */
  class SegmentStack {
    var segments: seq<Segment>

    constructor ()
      ensures segments == [Root]
    {
      segments := [Root];
    }

    method Push(s: Segment)
      modifies this
      ensures segments == old(segments) + [s]
    {
      segments := segments + [s];
    }

    method Pop()
      requires |segments| > 0
      modifies this
      ensures segments == old(segments)[..|old(segments)| - 1]
    {
      segments := segments[..|segments| - 1];
    }
  }

  method MatchTokenizedRule(ctx: MaskContext, current: seq<Segment>) returns (r: Option<MaskRule>)
    ensures r == MatchRule(ctx, current, true)
  {
    if ctx.compiled.Some? && KeyOnly(current) && |current| > 1 {
      match Execute(ctx.compiled.value, KeyHashes(current[1..])) {
        case Returned(v) =>
          if v != SENTINEL && v < |ctx.rules| {
            return Some(ctx.rules[v].rule);
          }
        case Trapped =>
      }
    }
    for i := 0 to |ctx.rules|
      invariant CompiledMatch(ctx, current) == None
      invariant ListMatch(ctx.rules, current, i) == ListMatch(ctx.rules, current, 0)
    {
      if SegmentsMatch(ctx.rules[i].segments, current) {
        return Some(ctx.rules[i].rule);
      }
    }
    r := None;
  }

  method MaskValue(v: Value, ctx: MaskContext) returns (r: Value)
    ensures r == MaskDocument(v, ctx)
  {
    var current := new SegmentStack();
    r := MaskRecursive(v, ctx, current, Top, None, 0);
  }

  method MaskRecursive(v: Value, ctx: MaskContext, current: SegmentStack, at: Place, parentKey: Option<string>,
          depth: nat)
    returns (r: Value)
    requires current.segments == Current(at)
    modifies current
    ensures current.segments == old(current.segments)
    ensures r == Mask(v, ctx, at, parentKey, depth, true)
    decreases v, 1
  {
    if depth > ctx.maxDepth {
      return Str(DEPTH_EXCEEDED);
    }
    var rule := MatchTokenizedRule(ctx, current.segments);
    if rule.Some? {
      return Apply(v, rule.value, ctx.regexes);
    }
    if Redacts(v, ctx, at) {
      return Str(REDACTED);
    }
    match v {
      case Obj(fs) =>
        var fields := MaskObject(fs, ctx, current, at, depth);
        r := Obj(fields);
      case Arr(items) =>
        var masked := MaskArray(items, ctx, current, at, parentKey, depth);
        r := Arr(masked);
      case _ =>
        r := MaskScalar(v, ctx, parentKey);
    }
  }

  method MaskObject(fs: seq<Field>, ctx: MaskContext, current: SegmentStack, at: Place, depth: nat)
    returns (fields: seq<Field>)
    requires current.segments == Current(at)
    modifies current
    ensures current.segments == old(current.segments)
    ensures fields == MaskFields(fs, ctx, at, depth, true)
    decreases fs, 0
  {
    fields := fs;
    for i := 0 to |fs|
      invariant |fields| == |fs| && current.segments == Current(at)
      invariant forall j :: 0 <= j < i ==> fields[j] == MaskFields(fs, ctx, at, depth, true)[j]
      invariant forall j :: i <= j < |fs| ==> fields[j] == fs[j]
    {
      var key := fs[i].key;
      current.Push(Key(key));
      assert current.segments == Current(Under(at, Key(key)));
      var value := MaskRecursive(fs[i].value, ctx, current, Under(at, Key(key)), Some(key), depth + 1);
      current.Pop();
      assert current.segments == Current(at);
      fields := fields[i := Field(key, value)];
    }
  }

  method MaskArray(items: seq<Value>, ctx: MaskContext, current: SegmentStack, at: Place, parentKey: Option<string>,
          depth: nat)
    returns (masked: seq<Value>)
    requires current.segments == Current(at)
    modifies current
    ensures current.segments == old(current.segments)
    ensures masked == MaskItems(items, ctx, at, parentKey, depth, true)
    decreases items, 0
  {
    masked := items;
    for i := 0 to |items|
      invariant |masked| == |items| && current.segments == Current(at)
      invariant forall j :: 0 <= j < i ==> masked[j] == MaskItems(items, ctx, at, parentKey, depth, true)[j]
      invariant forall j :: i <= j < |items| ==> masked[j] == items[j]
    {
      current.Push(Index(i));
      assert current.segments == Current(Under(at, Index(i)));
      var value := MaskRecursive(items[i], ctx, current, Under(at, Index(i)), parentKey, depth + 1);
      current.Pop();
      assert current.segments == Current(at);
      masked := masked[i := value];
    }
  }
}
