/** Laws of masking: it is idempotent, it ignores key order, and in strict mode it reveals nothing but
    a document's shape and the scalars at allowed paths. */
module MaskLaws {
  import opened Json
  import opened Paths
  import opened Masker

  /** The rules whose replacement goes through a pattern replace the same text only once. */
  ghost predicate StablePatterns(ctx: MaskContext) {
    forall i, s {:trigger Replaced(ctx, i, s)} :: 0 <= i < |ctx.rules| && ctx.rules[i].rule.pattern.Some? ==>
      Replaced(ctx, i, Replaced(ctx, i, s)) == Replaced(ctx, i, s)
  }

  ghost function Replaced(ctx: MaskContext, i: nat, s: string): string
    requires i < |ctx.rules| && ctx.rules[i].rule.pattern.Some?
  {
    var r := ctx.rules[i].rule;
    if ctx.regexes.compiles(r.pattern.value) then ctx.regexes.replaceAll(r.pattern.value, s, r.replacement) else s
  }

  ghost predicate PatternFree(ctx: MaskContext) {
    forall i :: 0 <= i < |ctx.rules| ==> ctx.rules[i].rule.pattern.None?
  }

  /** Whichever matcher finds a rule, it is one of the context's. */
  lemma ListMatchFrom(rules: seq<ParsedRule>, current: seq<Segment>, i: nat) returns (j: nat)
    requires ListMatch(rules, current, i).Some?
    ensures i <= j < |rules| && ListMatch(rules, current, i) == Some(rules[j].rule)
    ensures SegmentsMatch(rules[j].segments, current)
    decreases |rules| - i
  {
    if SegmentsMatch(rules[i].segments, current) { j := i; } else { j := ListMatchFrom(rules, current, i + 1); }
  }

  lemma MatchedRule(ctx: MaskContext, current: seq<Segment>, fast: bool) returns (j: nat)
    requires MatchRule(ctx, current, fast).Some?
    ensures j < |ctx.rules| && MatchRule(ctx, current, fast) == Some(ctx.rules[j].rule)
  {
    if fast && CompiledMatch(ctx, current).Some? {
      var code := ctx.compiled.value;
      var v :| 0 <= v < |ctx.rules| && CompiledMatch(ctx, current) == Some(ctx.rules[v].rule);
      j := v;
    } else {
      j := ListMatchFrom(ctx.rules, current, 0);
    }
  }

  // ---------------------------------------------------------------- idempotence

  lemma ApplyTwice(ctx: MaskContext, j: nat, v: Value)
    requires StablePatterns(ctx) && j < |ctx.rules|
    ensures Apply(Apply(v, ctx.rules[j].rule, ctx.regexes), ctx.rules[j].rule, ctx.regexes)
         == Apply(v, ctx.rules[j].rule, ctx.regexes)
  {
    if v.Str? && ctx.rules[j].rule.pattern.Some? {
      assert Replaced(ctx, j, Replaced(ctx, j, v.s)) == Replaced(ctx, j, v.s);
    }
  }

  lemma TokensLookMasked()
    ensures LooksMasked(MASKED_UUID) && LooksMasked(MASKED_JWT)
    ensures LooksMasked(MASKED_OBJECT_ID) && LooksMasked(MASKED_SSN)
    ensures LooksMasked(MASKED_CREDIT_CARD) && LooksMasked(MASKED_EMAIL)
    ensures LooksMasked(MASKED_TIMESTAMP) && LooksMasked(MASKED_EPOCH)
  {
  }

  lemma MaskStringTwice(s: string, re: Regexes)
    ensures MaskString(MaskString(s, re), re) == MaskString(s, re)
  {
    TokensLookMasked();
  }

  lemma MaskScalarTwice(v: Value, ctx: MaskContext, parentKey: Option<string>)
    requires !IsContainer(v)
    ensures MaskScalar(MaskScalar(v, ctx, parentKey), ctx, parentKey) == MaskScalar(v, ctx, parentKey)
    ensures IsLeaf(MaskScalar(v, ctx, parentKey)) == IsLeaf(v) && !IsContainer(MaskScalar(v, ctx, parentKey))
  {
    TokensLookMasked();
    if v.Str? { MaskStringTwice(v.s, ctx.regexes); }
  }

  lemma {:induction false} MaskedObject(fs: seq<Field>, ctx: MaskContext, at: Place, parentKey: Option<string>,
          depth: nat, fast: bool)
    requires depth <= ctx.maxDepth && MatchRule(ctx, Current(at), fast).None?
    ensures Mask(Obj(fs), ctx, at, parentKey, depth, fast) == Obj(MaskFields(fs, ctx, at, depth, fast))
  {
  }

  lemma {:induction false} MaskedArray(items: seq<Value>, ctx: MaskContext, at: Place, parentKey: Option<string>,
          depth: nat, fast: bool)
    requires depth <= ctx.maxDepth && MatchRule(ctx, Current(at), fast).None?
    ensures Mask(Arr(items), ctx, at, parentKey, depth, fast) == Arr(MaskItems(items, ctx, at, parentKey, depth, fast))
  {
  }

  lemma {:induction false} MatchedTwice(v: Value, ctx: MaskContext, at: Place, parentKey: Option<string>, depth: nat,
          fast: bool)
    requires StablePatterns(ctx) && depth <= ctx.maxDepth && MatchRule(ctx, Current(at), fast).Some?
    ensures var once := Mask(v, ctx, at, parentKey, depth, fast);
      Mask(once, ctx, at, parentKey, depth, fast) == once
  {
    var j := MatchedRule(ctx, Current(at), fast);
    ApplyTwice(ctx, j, v);
  }

  lemma {:induction false} LeafTwice(v: Value, ctx: MaskContext, at: Place, parentKey: Option<string>, depth: nat,
          fast: bool)
    requires !IsContainer(v) && depth <= ctx.maxDepth && MatchRule(ctx, Current(at), fast).None?
    ensures var once := Mask(v, ctx, at, parentKey, depth, fast);
      Mask(once, ctx, at, parentKey, depth, fast) == once
  {
    MaskScalarTwice(v, ctx, parentKey);
  }

  lemma {:induction false} MaskTwice(v: Value, ctx: MaskContext, at: Place, parentKey: Option<string>, depth: nat,
          fast: bool)
    requires StablePatterns(ctx)
    ensures var once := Mask(v, ctx, at, parentKey, depth, fast);
      Mask(once, ctx, at, parentKey, depth, fast) == once
    decreases v, 1
  {
    if depth > ctx.maxDepth {
    } else if MatchRule(ctx, Current(at), fast).Some? {
      MatchedTwice(v, ctx, at, parentKey, depth, fast);
    } else if v.Obj? {
      MaskedObject(v.fields, ctx, at, parentKey, depth, fast);
      MaskedObject(MaskFields(v.fields, ctx, at, depth, fast), ctx, at, parentKey, depth, fast);
      MaskFieldsTwice(v.fields, ctx, at, depth, fast);
    } else if v.Arr? {
      MaskedArray(v.items, ctx, at, parentKey, depth, fast);
      MaskedArray(MaskItems(v.items, ctx, at, parentKey, depth, fast), ctx, at, parentKey, depth, fast);
      MaskItemsTwice(v.items, ctx, at, parentKey, depth, fast);
    } else {
      LeafTwice(v, ctx, at, parentKey, depth, fast);
    }
  }

  lemma {:induction false} MaskFieldsTwice(fs: seq<Field>, ctx: MaskContext, at: Place, depth: nat, fast: bool)
    requires StablePatterns(ctx)
    ensures MaskFields(MaskFields(fs, ctx, at, depth, fast), ctx, at, depth, fast)
         == MaskFields(fs, ctx, at, depth, fast)
    decreases fs, 0
  {
    var once := MaskFields(fs, ctx, at, depth, fast);
    var twice := MaskFields(once, ctx, at, depth, fast);
    forall i | 0 <= i < |fs| ensures twice[i] == once[i] {
      MaskTwice(fs[i].value, ctx, Under(at, Key(fs[i].key)), Some(fs[i].key), depth + 1, fast);
      assert once[i].key == fs[i].key;
    }
    assert twice == once;
  }

  lemma {:induction false} MaskItemsTwice(items: seq<Value>, ctx: MaskContext, at: Place, parentKey: Option<string>,
          depth: nat, fast: bool)
    requires StablePatterns(ctx)
    ensures MaskItems(MaskItems(items, ctx, at, parentKey, depth, fast), ctx, at, parentKey, depth, fast)
         == MaskItems(items, ctx, at, parentKey, depth, fast)
    decreases items, 0
  {
    var once := MaskItems(items, ctx, at, parentKey, depth, fast);
    var twice := MaskItems(once, ctx, at, parentKey, depth, fast);
    forall i | 0 <= i < |items| ensures twice[i] == once[i] {
      MaskTwice(items[i], ctx, Under(at, Index(i)), parentKey, depth + 1, fast);
    }
    assert twice == once;
  }

  /** Masking a masked document changes nothing, with any rules whose patterns are stable; in
      particular with rules that have no pattern. */
  lemma MaskIdempotent(v: Value, ctx: MaskContext)
    ensures StablePatterns(ctx) ==> MaskDocument(MaskDocument(v, ctx), ctx) == MaskDocument(v, ctx)
    ensures PatternFree(ctx) ==> StablePatterns(ctx)
  {
    if StablePatterns(ctx) { MaskTwice(v, ctx, Top, None, 0, true); }
  }

  // ---------------------------------------------------------------- key order

  lemma {:induction false} MaskFieldsKeys(fs: seq<Field>, ctx: MaskContext, at: Place, depth: nat, fast: bool)
    ensures |MaskFields(fs, ctx, at, depth, fast)| == |fs|
    ensures Keys(MaskFields(fs, ctx, at, depth, fast)) == Keys(fs)
    ensures Distinct(fs) ==> Distinct(MaskFields(fs, ctx, at, depth, fast))
  {
    var ms := MaskFields(fs, ctx, at, depth, fast);
    assert forall i :: 0 <= i < |fs| ==> ms[i].key == fs[i].key;
    forall k ensures k in Keys(ms) <==> k in Keys(fs) {
      if k in Keys(fs) {
        var i :| 0 <= i < |fs| && fs[i].key == k;
        assert ms[i].key == k;
      }
    }
  }

  /** Documents equal up to key order mask to documents equal up to key order. */
  lemma {:induction false} MaskIgnoresOrder(v: Value, w: Value, ctx: MaskContext, at: Place,
          parentKey: Option<string>, depth: nat, fast: bool)
    requires WellFormed(v) && WellFormed(w) && Canon(v, true) == Canon(w, true)
    ensures Canon(Mask(v, ctx, at, parentKey, depth, fast), true)
         == Canon(Mask(w, ctx, at, parentKey, depth, fast), true)
    decreases v, 1
  {
    if depth > ctx.maxDepth {
    } else if MatchRule(ctx, Current(at), fast).Some? {
      MatchedIgnoresOrder(v, w, ctx, at, parentKey, depth, fast);
    } else if v.Obj? {
      MaskedObject(v.fields, ctx, at, parentKey, depth, fast);
      MaskedObject(w.fields, ctx, at, parentKey, depth, fast);
      MaskFieldsIgnoreOrder(v.fields, w.fields, ctx, at, depth, fast);
    } else if v.Arr? {
      MaskedArray(v.items, ctx, at, parentKey, depth, fast);
      MaskedArray(w.items, ctx, at, parentKey, depth, fast);
      MaskItemsIgnoreOrder(v.items, w.items, ctx, at, parentKey, depth, fast);
    } else {
      assert v == w;
    }
  }

  lemma {:induction false} MatchedIgnoresOrder(v: Value, w: Value, ctx: MaskContext, at: Place,
          parentKey: Option<string>, depth: nat, fast: bool)
    requires Canon(v, true) == Canon(w, true) && depth <= ctx.maxDepth && MatchRule(ctx, Current(at), fast).Some?
    ensures Canon(Mask(v, ctx, at, parentKey, depth, fast), true)
         == Canon(Mask(w, ctx, at, parentKey, depth, fast), true)
  {
    assert v.Str? || w.Str? ==> v == w;
  }

  lemma {:induction false} MaskFieldsIgnoreOrder(fs: seq<Field>, gs: seq<Field>, ctx: MaskContext, at: Place,
          depth: nat, fast: bool)
    requires WellFormed(Obj(fs)) && WellFormed(Obj(gs)) && Canon(Obj(fs), true) == Canon(Obj(gs), true)
    ensures Canon(Obj(MaskFields(fs, ctx, at, depth, fast)), true)
         == Canon(Obj(MaskFields(gs, ctx, at, depth, fast)), true)
    decreases fs, 0
  {
    var mf, mg := MaskFields(fs, ctx, at, depth, fast), MaskFields(gs, ctx, at, depth, fast);
    CanonObjects(fs, gs, true);
    MaskFieldsKeys(fs, ctx, at, depth, fast);
    MaskFieldsKeys(gs, ctx, at, depth, fast);
    forall i, j {:trigger mf[i], mg[j]} | 0 <= i < |mf| && 0 <= j < |mg| && mf[i].key == mg[j].key
      ensures Canon(mf[i].value, true) == Canon(mg[j].value, true)
    {
      assert fs[i].key == gs[j].key;
      MaskIgnoresOrder(fs[i].value, gs[j].value, ctx, Under(at, Key(fs[i].key)), Some(fs[i].key), depth + 1, fast);
    }
    EqualCanonObjects(mf, mg, true);
  }

  lemma {:induction false} MaskItemsIgnoreOrder(xs: seq<Value>, ys: seq<Value>, ctx: MaskContext, at: Place,
          parentKey: Option<string>, depth: nat, fast: bool)
    requires WellFormed(Arr(xs)) && WellFormed(Arr(ys)) && Canon(Arr(xs), true) == Canon(Arr(ys), true)
    ensures Canon(Arr(MaskItems(xs, ctx, at, parentKey, depth, fast)), true)
         == Canon(Arr(MaskItems(ys, ctx, at, parentKey, depth, fast)), true)
    decreases xs, 0
  {
    var mx, my := MaskItems(xs, ctx, at, parentKey, depth, fast), MaskItems(ys, ctx, at, parentKey, depth, fast);
    CanonArrays(xs, ys, true);
    forall i | 0 <= i < |xs| ensures Canon(mx[i], true) == Canon(my[i], true) {
      MaskIgnoresOrder(xs[i], ys[i], ctx, Under(at, Index(i)), parentKey, depth + 1, fast);
    }
    CanonArrays(mx, my, true);
  }

  // ---------------------------------------------------------------- strict mode

  /** What strict mode lets through: keys, lengths, where a document is null, and the scalars at allowed paths. */
  function Visible(v: Value, at: Place, allow: set<string>): Value
    decreases v
  {
    match v
    case Null => Null
    case Arr(items) => Arr(VisibleItems(items, at, allow))
    case Obj(fs) => Obj(VisibleFields(fs, at, allow))
    case _ => if Printed(at) in allow then v else Str(REDACTED)
  }

  function VisibleItems(items: seq<Value>, at: Place, allow: set<string>): seq<Value>
    decreases items
  {
    seq(|items|, i requires 0 <= i < |items| => Visible(items[i], Under(at, Index(i)), allow))
  }

  function VisibleFields(fs: seq<Field>, at: Place, allow: set<string>): seq<Field>
    decreases fs
  {
    seq(|fs|, i requires 0 <= i < |fs| =>
      Field(fs[i].key, Visible(fs[i].value, Under(at, Key(fs[i].key)), allow)))
  }

  ghost predicate Strict(ctx: MaskContext) {
    ctx.strictPii && PatternFree(ctx)
  }

  lemma {:induction false} MatchedSeesVisible(v: Value, ctx: MaskContext, at: Place, parentKey: Option<string>,
          depth: nat, fast: bool)
    requires Strict(ctx) && MatchRule(ctx, Current(at), fast).Some?
    ensures Mask(v, ctx, at, parentKey, depth, fast)
         == Mask(Visible(v, at, ctx.allowList), ctx, at, parentKey, depth, fast)
  {
    var j := MatchedRule(ctx, Current(at), fast);
    assert ctx.rules[j].rule.pattern.None?;
  }

  lemma {:induction false} MaskSeesVisible(v: Value, ctx: MaskContext, at: Place, parentKey: Option<string>,
          depth: nat, fast: bool)
    requires Strict(ctx)
    ensures Mask(v, ctx, at, parentKey, depth, fast)
         == Mask(Visible(v, at, ctx.allowList), ctx, at, parentKey, depth, fast)
    decreases v, 1
  {
    if depth > ctx.maxDepth {
    } else if MatchRule(ctx, Current(at), fast).Some? {
      MatchedSeesVisible(v, ctx, at, parentKey, depth, fast);
    } else if v.Obj? {
      MaskedObject(v.fields, ctx, at, parentKey, depth, fast);
      MaskedObject(VisibleFields(v.fields, at, ctx.allowList), ctx, at, parentKey, depth, fast);
      MaskFieldsSeeVisible(v.fields, ctx, at, depth, fast);
    } else if v.Arr? {
      MaskedArray(v.items, ctx, at, parentKey, depth, fast);
      MaskedArray(VisibleItems(v.items, at, ctx.allowList), ctx, at, parentKey, depth, fast);
      MaskItemsSeeVisible(v.items, ctx, at, parentKey, depth, fast);
    }
  }

  lemma {:induction false} MaskFieldsSeeVisible(fs: seq<Field>, ctx: MaskContext, at: Place, depth: nat, fast: bool)
    requires Strict(ctx)
    ensures MaskFields(fs, ctx, at, depth, fast)
         == MaskFields(VisibleFields(fs, at, ctx.allowList), ctx, at, depth, fast)
    decreases fs, 0
  {
    var vf := VisibleFields(fs, at, ctx.allowList);
    forall i | 0 <= i < |fs|
      ensures MaskFields(fs, ctx, at, depth, fast)[i] == MaskFields(vf, ctx, at, depth, fast)[i]
    {
      assert vf[i] == Field(fs[i].key, Visible(fs[i].value, Under(at, Key(fs[i].key)), ctx.allowList));
      MaskSeesVisible(fs[i].value, ctx, Under(at, Key(fs[i].key)), Some(fs[i].key), depth + 1, fast);
    }
  }

  lemma {:induction false} MaskItemsSeeVisible(items: seq<Value>, ctx: MaskContext, at: Place,
          parentKey: Option<string>, depth: nat, fast: bool)
    requires Strict(ctx)
    ensures MaskItems(items, ctx, at, parentKey, depth, fast)
         == MaskItems(VisibleItems(items, at, ctx.allowList), ctx, at, parentKey, depth, fast)
    decreases items, 0
  {
    var vi := VisibleItems(items, at, ctx.allowList);
    forall i | 0 <= i < |items|
      ensures MaskItems(items, ctx, at, parentKey, depth, fast)[i] == MaskItems(vi, ctx, at, parentKey, depth, fast)[i]
    {
      assert vi[i] == Visible(items[i], Under(at, Index(i)), ctx.allowList);
      MaskSeesVisible(items[i], ctx, Under(at, Index(i)), parentKey, depth + 1, fast);
    }
  }

  lemma {:induction false} VisibleWellFormed(v: Value, at: Place, allow: set<string>)
    requires WellFormed(v)
    ensures WellFormed(Visible(v, at, allow))
  {
    match v
    case Obj(fs) =>
      forall i | 0 <= i < |fs| ensures WellFormed(VisibleFields(fs, at, allow)[i].value) {
        VisibleWellFormed(fs[i].value, Under(at, Key(fs[i].key)), allow);
      }
    case Arr(items) =>
      forall i | 0 <= i < |items| ensures WellFormed(VisibleItems(items, at, allow)[i]) {
        VisibleWellFormed(items[i], Under(at, Index(i)), allow);
      }
    case _ =>
  }

  /** In strict mode without patterns a masked document tells nothing but what is visible: documents with one
      visible part are masked alike, and up to key order when they agree up to key order. */
  lemma {:induction false} StrictMaskingHidesValues(v: Value, w: Value, ctx: MaskContext)
    requires Strict(ctx)
    ensures Visible(v, Top, ctx.allowList) == Visible(w, Top, ctx.allowList) ==>
      MaskDocument(v, ctx) == MaskDocument(w, ctx)
    ensures var vv, vw := Visible(v, Top, ctx.allowList), Visible(w, Top, ctx.allowList);
      WellFormed(v) && WellFormed(w) && Canon(vv, true) == Canon(vw, true) ==>
        Canon(MaskDocument(v, ctx), true) == Canon(MaskDocument(w, ctx), true)
  {
    var vv, vw := Visible(v, Top, ctx.allowList), Visible(w, Top, ctx.allowList);
    MaskSeesVisible(v, ctx, Top, None, 0, true);
    MaskSeesVisible(w, ctx, Top, None, 0, true);
    if WellFormed(v) && WellFormed(w) && Canon(vv, true) == Canon(vw, true) {
      VisibleWellFormed(v, Top, ctx.allowList);
      VisibleWellFormed(w, Top, ctx.allowList);
      MaskIgnoresOrder(vv, vw, ctx, Top, None, 0, true);
    }
  }

  // ---------------------------------------------------------------- and it hides no more

  ghost predicate NoDeeper(v: Value, levels: nat)
    decreases v
  {
    match v
    case Arr(items) => forall i :: 0 <= i < |items| ==> levels > 0 && NoDeeper(items[i], levels - 1)
    case Obj(fs) => forall i :: 0 <= i < |fs| ==> levels > 0 && NoDeeper(fs[i].value, levels - 1)
    case _ => true
  }

  /** Nothing but strict mode is at work: no rules and no heuristics. */
  ghost predicate OnlyStrict(ctx: MaskContext) {
    ctx.strictPii && !ctx.heuristics && ctx.rules == [] && ctx.compiled.None?
  }

  lemma {:induction false} MaskShowsVisible(v: Value, ctx: MaskContext, at: Place, parentKey: Option<string>,
          depth: nat)
    requires OnlyStrict(ctx) && depth <= ctx.maxDepth && NoDeeper(v, ctx.maxDepth - depth)
    ensures Mask(v, ctx, at, parentKey, depth, true) == Visible(v, at, ctx.allowList)
    decreases v
  {
    if v.Obj? {
      var mf, vf := MaskFields(v.fields, ctx, at, depth, true), VisibleFields(v.fields, at, ctx.allowList);
      MaskedObject(v.fields, ctx, at, parentKey, depth, true);
      forall i | 0 <= i < |v.fields| ensures mf[i] == vf[i] {
        var f := v.fields[i];
        MaskShowsVisible(f.value, ctx, Under(at, Key(f.key)), Some(f.key), depth + 1);
      }
      assert mf == vf;
    } else if v.Arr? {
      var mi, vi := MaskItems(v.items, ctx, at, parentKey, depth, true), VisibleItems(v.items, at, ctx.allowList);
      MaskedArray(v.items, ctx, at, parentKey, depth, true);
      forall i | 0 <= i < |v.items| ensures mi[i] == vi[i] {
        MaskShowsVisible(v.items[i], ctx, Under(at, Index(i)), parentKey, depth + 1);
      }
      assert mi == vi;
    }
  }

  /** Without rules and heuristics, and within the depth limit, the masked document is the visible part: strict
      mode then hides exactly the scalars that are not allowed. */
  lemma {:induction false} StrictMaskingShowsVisible(v: Value, ctx: MaskContext)
    requires OnlyStrict(ctx) && NoDeeper(v, ctx.maxDepth)
    ensures MaskDocument(v, ctx) == Visible(v, Top, ctx.allowList)
  {
    MaskShowsVisible(v, ctx, Top, None, 0);
  }
}
