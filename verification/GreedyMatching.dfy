/** Why greedy matching is complete without a tolerance. Under exact number comparison every
    document has a form in which unordered arrays are bags; the differ finds nothing exactly
    when the forms agree, so it finds a bijection whenever there is one, and what it records of
    an unordered array is the difference of two bags. */
module GreedyMatching {
  import opened Json
  import opened Paths
  import opened Differ
  import opened DifferEquality

  datatype Form =
    | FNull
    | FBool(b: bool)
    | FNum(n: Number)
    | FStr(s: string)
    | FArr(items: seq<Form>)
    | FBag(bag: multiset<Form>)
    | FObj(m: map<string, Form>)

  ghost function FormOf(v: Value, p: Place, o: Options): Form
    decreases v
  {
    match v
    case Null => FNull
    case Bool(b) => FBool(b)
    case Num(n) => FNum(FoldZero(n))
    case Str(s) => FStr(s)
    case Arr(items) =>
      if ModeAt(o, p) == Ordered then FArr(ItemForms(items, p, o)) else FBag(BagOf(items, p, o))
    case Obj(fs) => FObj(FieldForms(fs, p, o))
  }

  ghost function ItemForms(items: seq<Value>, p: Place, o: Options): seq<Form>
    decreases items
  {
    seq(|items|, i requires 0 <= i < |items| => FormOf(items[i], Under(p, Index(i)), o))
  }

  ghost function FieldForms(fs: seq<Field>, p: Place, o: Options): map<string, Form>
    decreases fs
  {
    var m := Collect(fs, o);
    map k | k in m :: FormOf(m[k], Under(p, Key(k)), o)
  }

  ghost function BagOf(items: seq<Value>, p: Place, o: Options): multiset<Form>
    decreases items
  {
    if |items| == 0 then multiset{}
    else multiset{FormOf(items[0], p, o)} + BagOf(items[1..], p, o)
  }

  /** The forms of the items of `xs` from `j` on that are not taken. */
  ghost function FreeForms(xs: seq<Value>, taken: seq<bool>, j: nat, p: Place, o: Options): multiset<Form>
    requires |taken| == |xs|
    decreases |xs| - j
  {
    if j >= |xs| then multiset{}
    else if taken[j] then FreeForms(xs, taken, j + 1, p, o)
    else multiset{FormOf(xs[j], p, o)} + FreeForms(xs, taken, j + 1, p, o)
  }

  lemma {:induction false} NothingTaken(xs: seq<Value>, j: nat, p: Place, o: Options)
    requires j <= |xs|
    ensures FreeForms(xs, seq(|xs|, _ => false), j, p, o) == BagOf(xs[j..], p, o)
    decreases |xs| - j
  {
    if j < |xs| {
      NothingTaken(xs, j + 1, p, o);
      assert xs[j..][0] == xs[j] && xs[j..][1..] == xs[j + 1..];
    }
  }

  lemma {:induction false} EverythingTaken(xs: seq<Value>, taken: seq<bool>, j: nat, p: Place, o: Options)
    requires |taken| == |xs|
    ensures |FreeForms(xs, taken, j, p, o)| == 0 <==> forall i :: j <= i < |xs| ==> taken[i]
    decreases |xs| - j
  {
    if j < |xs| {
      EverythingTaken(xs, taken, j + 1, p, o);
    }
  }

  lemma TakeBefore(xs: seq<Value>, taken: seq<bool>, r: nat, j: nat, p: Place, o: Options)
    requires |taken| == |xs| && r < |xs| && r < j
    ensures FreeForms(xs, taken, j, p, o) == FreeForms(xs, taken[r := true], j, p, o)
    decreases |xs| - j
  {
    if j < |xs| { TakeBefore(xs, taken, r, j + 1, p, o); }
  }

  lemma Swap<T>(a: multiset<T>, b: multiset<T>, c: multiset<T>)
    ensures a + (b + c) == b + (a + c)
  {
  }

  lemma TakeOne(xs: seq<Value>, taken: seq<bool>, r: nat, j: nat, p: Place, o: Options)
    requires |taken| == |xs| && j <= r < |xs| && !taken[r]
    ensures FreeForms(xs, taken, j, p, o) == multiset{FormOf(xs[r], p, o)} + FreeForms(xs, taken[r := true], j, p, o)
    decreases r - j
  {
    if j < r {
      TakeOne(xs, taken, r, j + 1, p, o);
      Swap(multiset{FormOf(xs[j], p, o)}, multiset{FormOf(xs[r], p, o)}, FreeForms(xs, taken[r := true], j + 1, p, o));
    } else {
      TakeBefore(xs, taken, r, j + 1, p, o);
    }
  }

  lemma {:induction false} FreeFormHasItem(xs: seq<Value>, taken: seq<bool>, j: nat, f: Form, p: Place, o: Options)
    requires |taken| == |xs| && f in FreeForms(xs, taken, j, p, o)
    ensures exists i :: j <= i < |xs| && !taken[i] && FormOf(xs[i], p, o) == f
    decreases |xs| - j
  {
    if j < |xs| && (taken[j] || FormOf(xs[j], p, o) != f) {
      FreeFormHasItem(xs, taken, j + 1, f, p, o);
    }
  }

  ghost predicate FormAgreesAt(em: map<string, Value>, am: map<string, Value>, k: string, p: Place, o: Options)
    requires k in em && k in am
  {
    FormOf(em[k], Under(p, Key(k)), o) == FormOf(am[k], Under(p, Key(k)), o)
  }

  lemma {:induction false} FieldFormsEqual(fs: seq<Field>, gs: seq<Field>, p: Place, o: Options)
    ensures FieldForms(fs, p, o) == FieldForms(gs, p, o) <==>
      (var em, am := Collect(fs, o), Collect(gs, o);
       em.Keys == am.Keys && forall k :: k in em ==> FormAgreesAt(em, am, k, p, o))
  {
    var em, am := Collect(fs, o), Collect(gs, o);
    var fe, fa := FieldForms(fs, p, o), FieldForms(gs, p, o);
    assert fe.Keys == em.Keys && fa.Keys == am.Keys;
    forall k | k in em && k in am ensures fe[k] == fa[k] <==> FormAgreesAt(em, am, k, p, o) {
      FieldFormsAt(fs, gs, k, p, o);
    }
    MapsEqual(fe, fa);
  }

  lemma MapsEqual<T>(a: map<string, T>, b: map<string, T>)
    ensures a == b <==> a.Keys == b.Keys && forall k :: k in a && k in b ==> a[k] == b[k]
  {
  }

  lemma {:induction false} FieldFormsAt(fs: seq<Field>, gs: seq<Field>, k: string, p: Place, o: Options)
    requires k in Collect(fs, o) && k in Collect(gs, o)
    ensures k in FieldForms(fs, p, o) && k in FieldForms(gs, p, o)
    ensures FieldForms(fs, p, o)[k] == FieldForms(gs, p, o)[k] <==>
      FormAgreesAt(Collect(fs, o), Collect(gs, o), k, p, o)
  {
  }

  // ---------------------------------------------------------------- empty diff, equal forms

  ghost predicate FormsAgree(x: Value, y: Value, p: Place, o: Options, d: nat) {
    FormOf(x, p, o) == FormOf(y, p, o) && Fits(x, o, d)
  }

  ghost predicate DiffDecidesForms(x: Value, y: Value, p: Place, o: Options, d: nat) {
    Diff(x, y, p, o, d) == [] <==> FormsAgree(x, y, p, o, d)
  }

  lemma {:induction false} FreeFormIsFound(e: Value, xs: seq<Value>, taken: seq<bool>, p: Place, o: Options, d: nat)
    requires |taken| == |xs| && FormOf(e, p, o) in FreeForms(xs, taken, 0, p, o) && Fits(e, o, d + 1)
    requires forall j {:trigger xs[j]} :: 0 <= j < |xs| ==> DiffDecidesForms(e, xs[j], p, o, d + 1)
    ensures FirstFree(e, xs, taken, 0, p, o, d).Some?
  {
    FreeFormHasItem(xs, taken, 0, FormOf(e, p, o), p, o);
    var i :| 0 <= i < |xs| && !taken[i] && FormOf(xs[i], p, o) == FormOf(e, p, o);
    FirstFreeIsFirst(e, xs, taken, 0, p, o, d);
    assert DiffDecidesForms(e, xs[i], p, o, d + 1);
  }

  lemma {:induction false} GreedyDecidesBags(es: seq<Value>, xs: seq<Value>, taken: seq<bool>, p: Place, o: Options,
          d: nat)
    requires |taken| == |xs|
    requires forall i, j {:trigger es[i], xs[j]} :: 0 <= i < |es| && 0 <= j < |xs| ==>
      DiffDecidesForms(es[i], xs[j], p, o, d + 1)
    ensures DiffUnordered(es, xs, taken, p, o, d) == [] <==>
      BagOf(es, p, o) == FreeForms(xs, taken, 0, p, o) && forall i :: 0 <= i < |es| ==> Fits(es[i], o, d + 1)
    decreases |es|
  {
    if |es| == 0 {
      AddedFreeEmpty(xs, taken, 0, p);
      EverythingTaken(xs, taken, 0, p, o);
    } else {
      assert es == [es[0]] + es[1..];
      match FirstFree(es[0], xs, taken, 0, p, o, d)
      case Some(j) =>
        FirstFreeIsFirst(es[0], xs, taken, 0, p, o, d);
        assert DiffDecidesForms(es[0], xs[j], p, o, d + 1);
        GreedyDecidesBags(es[1..], xs, taken[j := true], p, o, d);
        TakeFront(es, xs, taken, j, p, o);
      case None =>
        if FormOf(es[0], p, o) in FreeForms(xs, taken, 0, p, o) && Fits(es[0], o, d + 1) {
          FreeFormIsFound(es[0], xs, taken, p, o, d);
        }
        assert FormOf(es[0], p, o) in BagOf(es, p, o);
    }
  }

  lemma {:induction false} TakeFront(es: seq<Value>, xs: seq<Value>, taken: seq<bool>, j: nat, p: Place, o: Options)
    requires |taken| == |xs| && |es| > 0 && j < |xs| && !taken[j] && FormOf(es[0], p, o) == FormOf(xs[j], p, o)
    ensures BagOf(es, p, o) == FreeForms(xs, taken, 0, p, o) <==>
      BagOf(es[1..], p, o) == FreeForms(xs, taken[j := true], 0, p, o)
  {
    TakeOne(xs, taken, j, 0, p, o);
    CancelOne(FormOf(es[0], p, o), BagOf(es[1..], p, o), FreeForms(xs, taken[j := true], 0, p, o));
  }

  lemma CancelOne<T>(f: T, a: multiset<T>, b: multiset<T>)
    ensures multiset{f} + a == multiset{f} + b <==> a == b
  {
    assert a == multiset{f} + a - multiset{f};
    assert b == multiset{f} + b - multiset{f};
  }

  lemma ScalarDiffDecidesForms(e: Value, a: Value, p: Place, o: Options, d: nat)
    requires o.epsilon <= 0.0 && (!IsContainer(e) || TypeNameOf(e) != TypeNameOf(a) || d > o.maxDepth)
    ensures DiffDecidesForms(e, a, p, o, d)
  {
  }

  /** Without a tolerance, the differ finds nothing exactly when the two forms agree and the
      expected document stays within the depth limit. */
  lemma ExactDiffDecidesForms(e: Value, a: Value, p: Place, o: Options, d: nat)
    requires o.epsilon <= 0.0
    ensures DiffDecidesForms(e, a, p, o, d)
    decreases e, 1
  {
    if !IsContainer(e) || TypeNameOf(e) != TypeNameOf(a) || d > o.maxDepth {
      ScalarDiffDecidesForms(e, a, p, o, d);
    } else if e.Obj? {
      DiffFieldsEmpty(e, a, p, o, d);
      ExactFields(e, a, p, o, d);
    } else if ModeAt(o, p) == Ordered {
      DiffArrayEmpty(e, a, p, o, d);
      ExactItems(e.items, a.items, p, o, d);
    } else {
      ExactBags(e, a, p, o, d);
    }
  }

  lemma ExactBags(e: Value, a: Value, p: Place, o: Options, d: nat)
    requires o.epsilon <= 0.0 && e.Arr? && a.Arr? && ModeAt(o, p) == Unordered
    ensures DiffUnordered(e.items, a.items, seq(|a.items|, _ => false), p, o, d) == [] <==>
      FormOf(e, p, o) == FormOf(a, p, o) && forall i :: 0 <= i < |e.items| ==> Fits(e.items[i], o, d + 1)
    decreases e, 0
  {
    var es, xs := e.items, a.items;
    forall i, j {:trigger es[i], xs[j]} | 0 <= i < |es| && 0 <= j < |xs|
      ensures DiffDecidesForms(es[i], xs[j], p, o, d + 1)
    {
      ExactDiffDecidesForms(es[i], xs[j], p, o, d + 1);
    }
    GreedyDecidesBags(es, xs, seq(|xs|, _ => false), p, o, d);
    NothingTaken(xs, 0, p, o);
    assert xs[0..] == xs;
  }

  lemma {:induction false} ExactItems(es: seq<Value>, xs: seq<Value>, p: Place, o: Options, d: nat)
    requires o.epsilon <= 0.0
    ensures ItemsEmpty(es, xs, p, o, d) <==>
      ItemForms(es, p, o) == ItemForms(xs, p, o) && forall i :: 0 <= i < |es| ==> Fits(es[i], o, d + 1)
    decreases es, 0
  {
    var fe, fx := ItemForms(es, p, o), ItemForms(xs, p, o);
    if |es| == |xs| {
      forall i | 0 <= i < |es|
        ensures PairEmpty(es, xs, i, p, o, d) <==> fe[i] == fx[i] && Fits(es[i], o, d + 1)
      {
        ExactDiffDecidesForms(es[i], xs[i], Under(p, Index(i)), o, d + 1);
      }
    }
    assert fe == fx <==> |fe| == |fx| && forall i :: 0 <= i < |fe| ==> fe[i] == fx[i];
  }

  lemma {:induction false} ExactFields(e: Value, a: Value, p: Place, o: Options, d: nat)
    requires o.epsilon <= 0.0 && e.Obj? && a.Obj?
    ensures FieldsEmpty(e, a, p, o, d) <==>
      FieldForms(e.fields, p, o) == FieldForms(a.fields, p, o) && FieldsFit(e, o, d)
    decreases e, 0
  {
    var em, am := Collect(e.fields, o), Collect(a.fields, o);
    FieldFormsEqual(e.fields, a.fields, p, o);
    if em.Keys == am.Keys {
      forall k | k in em
        ensures Diff(em[k], am[k], Under(p, Key(k)), o, d + 1) == [] <==>
          FormAgreesAt(em, am, k, p, o) && Fits(em[k], o, d + 1)
      {
        ExactDiffDecidesForms(em[k], am[k], Under(p, Key(k)), o, d + 1);
      }
    }
  }

  // ---------------------------------------------------------------- what the records of a set-mode array are

  /** The forms of the items that stay within the depth limit, or of those that do not. */
  ghost function FormsThat(fit: bool, es: seq<Value>, p: Place, o: Options, d: nat): multiset<Form> {
    if |es| == 0 then multiset{}
    else
      (if Fits(es[0], o, d + 1) == fit then multiset{FormOf(es[0], p, o)} else multiset{}) +
      FormsThat(fit, es[1..], p, o, d)
  }

  lemma {:induction false} AllFit(es: seq<Value>, p: Place, o: Options, d: nat)
    requires forall i :: 0 <= i < |es| ==> Fits(es[i], o, d + 1)
    ensures FormsThat(true, es, p, o, d) == BagOf(es, p, o) && FormsThat(false, es, p, o, d) == multiset{}
  {
    if |es| != 0 { AllFit(es[1..], p, o, d); }
  }

  ghost function RemovedForms(rs: seq<DiffKind>, p: Place, o: Options): multiset<Form> {
    if |rs| == 0 then multiset{}
    else
      (if rs[0].Removed? then multiset{FormOf(rs[0].oldValue, p, o)} else multiset{}) + RemovedForms(rs[1..], p, o)
  }

  ghost function AddedForms(rs: seq<DiffKind>, p: Place, o: Options): multiset<Form> {
    if |rs| == 0 then multiset{}
    else (if rs[0].Added? then multiset{FormOf(rs[0].newValue, p, o)} else multiset{}) + AddedForms(rs[1..], p, o)
  }

  lemma {:induction false} OneMoreRecord(r: DiffKind, rs: seq<DiffKind>, p: Place, o: Options)
    ensures RemovedForms([r] + rs, p, o)
         == (if r.Removed? then multiset{FormOf(r.oldValue, p, o)} else multiset{}) + RemovedForms(rs, p, o)
    ensures AddedForms([r] + rs, p, o)
         == (if r.Added? then multiset{FormOf(r.newValue, p, o)} else multiset{}) + AddedForms(rs, p, o)
  {
    assert ([r] + rs)[1..] == rs;
  }

  lemma {:induction false} AddedFreeForms(xs: seq<Value>, taken: seq<bool>, j: nat, p: Place, o: Options)
    requires |taken| == |xs|
    ensures AddedForms(AddedFree(xs, taken, j, p), p, o) == FreeForms(xs, taken, j, p, o)
    ensures RemovedForms(AddedFree(xs, taken, j, p), p, o) == multiset{}
    decreases |xs| - j
  {
    if j < |xs| {
      var rest := AddedFree(xs, taken, j + 1, p);
      AddedFreeForms(xs, taken, j + 1, p, o);
      if taken[j] {
        assert AddedFree(xs, taken, j, p) == rest;
      } else {
        OneMoreRecord(Added(Under(p, Wildcard), xs[j]), rest, p, o);
      }
    }
  }

  lemma MinusBoth<T>(f: T, a: multiset<T>, b: multiset<T>)
    ensures (multiset{f} + a) - (multiset{f} + b) == a - b
  {
  }

  lemma MinusAbsent<T>(f: T, a: multiset<T>, b: multiset<T>)
    requires f !in b
    ensures (multiset{f} + a) - b == multiset{f} + (a - b) && b - (multiset{f} + a) == b - a
  {
  }

  lemma Regroup<T>(a: multiset<T>, b: multiset<T>, c: multiset<T>)
    ensures a + (b + c) == (a + b) + c
  {
  }

  /** The records are the difference of two bags: removed is what has no counterpart left, or lies too deep to be
      compared; added is what no fitting item accounts for. */
  ghost predicate IsDifference(rs: seq<DiffKind>, fit: multiset<Form>, deep: multiset<Form>, free: multiset<Form>,
          p: Place, o: Options)
  {
    RemovedForms(rs, p, o) == (fit - free) + deep && AddedForms(rs, p, o) == free - fit
  }

  lemma {:induction false} RemovedFits(f: Form, r: DiffKind, rs: seq<DiffKind>, fit: multiset<Form>,
          deep: multiset<Form>, free: multiset<Form>, p: Place, o: Options)
    requires IsDifference(rs, fit, deep, free, p, o) && r.Removed? && FormOf(r.oldValue, p, o) == f && f !in free
    ensures IsDifference([r] + rs, multiset{f} + fit, deep, free, p, o)
  {
    OneMoreRecord(r, rs, p, o);
    MinusAbsent(f, fit, free);
    Regroup(multiset{f}, fit - free, deep);
  }

  lemma {:induction false} RemovedDeep(f: Form, r: DiffKind, rs: seq<DiffKind>, fit: multiset<Form>,
          deep: multiset<Form>, free: multiset<Form>, p: Place, o: Options)
    requires IsDifference(rs, fit, deep, free, p, o) && r.Removed? && FormOf(r.oldValue, p, o) == f
    ensures IsDifference([r] + rs, fit, multiset{f} + deep, free, p, o)
  {
    OneMoreRecord(r, rs, p, o);
    Swap(multiset{f}, fit - free, deep);
  }

  lemma MatchedBoth(f: Form, rs: seq<DiffKind>, fit: multiset<Form>, deep: multiset<Form>,
          free: multiset<Form>, p: Place, o: Options)
    requires IsDifference(rs, fit, deep, free, p, o)
    ensures IsDifference(rs, multiset{f} + fit, deep, multiset{f} + free, p, o)
  {
    MinusBoth(f, fit, free);
    MinusBoth(f, free, fit);
  }

  /** Splitting off the first item: it counts among those that fit, or among those that do not. */
  lemma FirstForm(es: seq<Value>, p: Place, o: Options, d: nat)
    requires |es| > 0
    ensures var f, fits := multiset{FormOf(es[0], p, o)}, Fits(es[0], o, d + 1);
      && FormsThat(fits, es, p, o, d) == f + FormsThat(fits, es[1..], p, o, d)
      && FormsThat(!fits, es, p, o, d) == FormsThat(!fits, es[1..], p, o, d)
  {
  }

  ghost predicate DifferenceAt(es: seq<Value>, xs: seq<Value>, taken: seq<bool>, p: Place, o: Options, d: nat)
    requires |taken| == |xs|
  {
    IsDifference(DiffUnordered(es, xs, taken, p, o, d), FormsThat(true, es, p, o, d), FormsThat(false, es, p, o, d),
                 FreeForms(xs, taken, 0, p, o), p, o)
  }

  lemma {:induction false} MatchedStep(es: seq<Value>, xs: seq<Value>, taken: seq<bool>, j: nat, p: Place, o: Options,
          d: nat)
    requires |taken| == |xs| && |es| > 0 && FirstFree(es[0], xs, taken, 0, p, o, d) == Some(j)
    requires DiffDecidesForms(es[0], xs[j], p, o, d + 1) && DifferenceAt(es[1..], xs, taken[j := true], p, o, d)
    ensures DifferenceAt(es, xs, taken, p, o, d)
  {
    var rest := es[1..];
    Matched(es[0], xs, taken, j, p, o, d);
    FirstForm(es, p, o, d);
    MatchedBoth(FormOf(es[0], p, o), DiffUnordered(rest, xs, taken[j := true], p, o, d),
                FormsThat(true, rest, p, o, d), FormsThat(false, rest, p, o, d),
                FreeForms(xs, taken[j := true], 0, p, o), p, o);
  }

  lemma {:induction false} RemovedStep(es: seq<Value>, xs: seq<Value>, taken: seq<bool>, p: Place, o: Options, d: nat)
    requires |taken| == |xs| && |es| > 0 && FirstFree(es[0], xs, taken, 0, p, o, d).None?
    requires Fits(es[0], o, d + 1) ==> FormOf(es[0], p, o) !in FreeForms(xs, taken, 0, p, o)
    requires DifferenceAt(es[1..], xs, taken, p, o, d)
    ensures DifferenceAt(es, xs, taken, p, o, d)
  {
    var f, rest, r := FormOf(es[0], p, o), es[1..], Removed(Under(p, Wildcard), es[0]);
    var fit, deep := FormsThat(true, rest, p, o, d), FormsThat(false, rest, p, o, d);
    FirstForm(es, p, o, d);
    if Fits(es[0], o, d + 1) {
      RemovedFits(f, r, DiffUnordered(rest, xs, taken, p, o, d), fit, deep, FreeForms(xs, taken, 0, p, o), p, o);
    } else {
      RemovedDeep(f, r, DiffUnordered(rest, xs, taken, p, o, d), fit, deep, FreeForms(xs, taken, 0, p, o), p, o);
    }
  }

  lemma GreedyIsDifference(es: seq<Value>, xs: seq<Value>, taken: seq<bool>, p: Place, o: Options,
          d: nat)
    requires |taken| == |xs|
    requires forall i, j {:trigger es[i], xs[j]} :: 0 <= i < |es| && 0 <= j < |xs| ==>
      DiffDecidesForms(es[i], xs[j], p, o, d + 1)
    ensures DifferenceAt(es, xs, taken, p, o, d)
    decreases |es|
  {
    if |es| == 0 {
      AddedFreeForms(xs, taken, 0, p, o);
    } else {
      match FirstFree(es[0], xs, taken, 0, p, o, d)
      case Some(j) =>
        GreedyIsDifference(es[1..], xs, taken[j := true], p, o, d);
        MatchedStep(es, xs, taken, j, p, o, d);
      case None =>
        GreedyIsDifference(es[1..], xs, taken, p, o, d);
        if FormOf(es[0], p, o) in FreeForms(xs, taken, 0, p, o) && Fits(es[0], o, d + 1) {
          FreeFormIsFound(es[0], xs, taken, p, o, d);
        }
        RemovedStep(es, xs, taken, p, o, d);
    }
  }

  lemma {:induction false} Matched(e: Value, xs: seq<Value>, taken: seq<bool>, j: nat, p: Place, o: Options, d: nat)
    requires |taken| == |xs| && FirstFree(e, xs, taken, 0, p, o, d) == Some(j)
    requires DiffDecidesForms(e, xs[j], p, o, d + 1)
    ensures Fits(e, o, d + 1)
    ensures FreeForms(xs, taken, 0, p, o)
         == multiset{FormOf(e, p, o)} + FreeForms(xs, taken[j := true], 0, p, o)
  {
    FirstFreeIsFirst(e, xs, taken, 0, p, o, d);
    TakeOne(xs, taken, j, 0, p, o);
  }

  /** A removed expected item or an added actual item, at the wildcard position of the array. */
  ghost predicate FromSet(r: DiffKind, es: seq<Value>, xs: seq<Value>, p: Place) {
    r.path == Under(p, Wildcard) && ((r.Removed? && r.oldValue in es) || (r.Added? && r.newValue in xs))
  }

  lemma {:induction false} SetRecords(es: seq<Value>, xs: seq<Value>, taken: seq<bool>, p: Place, o: Options, d: nat)
    requires |taken| == |xs|
    ensures forall r :: r in DiffUnordered(es, xs, taken, p, o, d) ==> FromSet(r, es, xs, p)
    decreases |es|
  {
    if |es| == 0 {
      FreeRecords(xs, taken, 0, p);
    } else {
      match FirstFree(es[0], xs, taken, 0, p, o, d)
      case Some(j) => SetRecords(es[1..], xs, taken[j := true], p, o, d);
      case None => SetRecords(es[1..], xs, taken, p, o, d);
    }
  }

  lemma {:induction false} FreeRecords(xs: seq<Value>, taken: seq<bool>, j: nat, p: Place)
    requires |taken| == |xs|
    ensures forall r :: r in AddedFree(xs, taken, j, p) ==>
      r.Added? && r.path == Under(p, Wildcard) && r.newValue in xs
    decreases |xs| - j
  {
    if j < |xs| { FreeRecords(xs, taken, j + 1, p); }
  }

  /** Without a tolerance, the records of a set-mode array are complete and minimal: nothing but removals and
      additions, which are the two differences between the bags of the expected and the actual items. An expected
      item that reaches below the depth limit matches nothing and is always removed. */
  lemma {:induction false} SetDiffIsDifference(e: Value, a: Value, p: Place, o: Options, d: nat)
    requires o.epsilon <= 0.0 && d <= o.maxDepth && e.Arr? && a.Arr? && ModeAt(o, p) == Unordered
    ensures var rs := Diff(e, a, p, o, d);
      && (forall r :: r in rs ==> FromSet(r, e.items, a.items, p))
      && RemovedForms(rs, p, o)
         == (FormsThat(true, e.items, p, o, d) - BagOf(a.items, p, o)) + FormsThat(false, e.items, p, o, d)
      && AddedForms(rs, p, o) == BagOf(a.items, p, o) - FormsThat(true, e.items, p, o, d)
    ensures var rs := Diff(e, a, p, o, d);
      (forall i :: 0 <= i < |e.items| ==> Fits(e.items[i], o, d + 1)) ==>
        && RemovedForms(rs, p, o) == BagOf(e.items, p, o) - BagOf(a.items, p, o)
        && AddedForms(rs, p, o) == BagOf(a.items, p, o) - BagOf(e.items, p, o)
  {
    SetDifference(e, a, p, o, d);
    SetRecords(e.items, a.items, seq(|a.items|, _ => false), p, o, d);
    if forall i :: 0 <= i < |e.items| ==> Fits(e.items[i], o, d + 1) { AllFit(e.items, p, o, d); }
  }

  lemma {:induction false} SetDifference(e: Value, a: Value, p: Place, o: Options, d: nat)
    requires o.epsilon <= 0.0 && d <= o.maxDepth && e.Arr? && a.Arr? && ModeAt(o, p) == Unordered
    ensures Diff(e, a, p, o, d) == DiffUnordered(e.items, a.items, seq(|a.items|, _ => false), p, o, d)
    ensures IsDifference(Diff(e, a, p, o, d), FormsThat(true, e.items, p, o, d), FormsThat(false, e.items, p, o, d),
                         BagOf(a.items, p, o), p, o)
  {
    var es, xs, none := e.items, a.items, seq(|a.items|, _ => false);
    forall i, j {:trigger es[i], xs[j]} | 0 <= i < |es| && 0 <= j < |xs|
      ensures DiffDecidesForms(es[i], xs[j], p, o, d + 1)
    {
      ExactDiffDecidesForms(es[i], xs[j], p, o, d + 1);
    }
    GreedyIsDifference(es, xs, none, p, o, d);
    NothingTaken(xs, 0, p, o);
    assert xs[0..] == xs;
  }
}
