/** The equality shortcut of the differ (`fast_hash_bypass`): when skipping the walk over equal
    documents gives the answer the walk would give. */
module EqualityShortcut {
  import opened Json
  import opened Paths
  import opened Differ
  import opened DifferEquality

  /** Doubles that compare equal have distance zero. */
  ghost predicate GapOfEquals(o: Options) {
    forall x, y :: NumberEq(x, y) ==> o.gap(x, y) == 0.0
  }

  ghost predicate KeysApart(fs: seq<Field>, o: Options) {
    forall i, j :: 0 <= i < j < |fs| ==> KeyOf(o, fs[i].key) != KeyOf(o, fs[j].key)
  }

  /** Key normalisation identifies no two keys of any one object. */
  ghost predicate KeysInjective(v: Value, o: Options) {
    match v
    case Arr(items) => forall i :: 0 <= i < |items| ==> KeysInjective(items[i], o)
    case Obj(fs) => KeysApart(fs, o) && forall i :: 0 <= i < |fs| ==> KeysInjective(fs[i].value, o)
    case _ => true
  }

  ghost predicate KeysIn(v: Value, ks: iset<string>) {
    match v
    case Arr(items) => forall i :: 0 <= i < |items| ==> KeysIn(items[i], ks)
    case Obj(fs) => forall i :: 0 <= i < |fs| ==> fs[i].key in ks && KeysIn(fs[i].value, ks)
    case _ => true
  }

  /** Normalisation identifies no two of these keys. */
  ghost predicate ToldApart(ks: iset<string>, o: Options) {
    forall k, l :: k in ks && l in ks && KeyOf(o, k) == KeyOf(o, l) ==> k == l
  }

  lemma FieldsToldApart(fs: seq<Field>, ks: iset<string>, o: Options)
    requires Distinct(fs) && ToldApart(ks, o) && forall i :: 0 <= i < |fs| ==> fs[i].key in ks
    ensures KeysApart(fs, o)
  {
  }

  lemma {:induction false} WinnersOfApart(fs: seq<Field>, o: Options)
    requires KeysApart(fs, o)
    ensures forall i :: 0 <= i < |fs| ==>
      KeyOf(o, fs[i].key) in Winners(fs, o) && Winners(fs, o)[KeyOf(o, fs[i].key)] == i
  {
    if |fs| != 0 {
      var init := fs[..|fs| - 1];
      WinnersOfApart(init, o);
      forall i | 0 <= i < |fs|
        ensures KeyOf(o, fs[i].key) in Winners(fs, o) && Winners(fs, o)[KeyOf(o, fs[i].key)] == i
      {
        if i < |init| { assert init[i] == fs[i]; }
      }
    }
  }

  lemma {:induction false} WinnerKeys(fs: seq<Field>, o: Options)
    ensures forall k :: k in Winners(fs, o) ==> KeyOf(o, fs[Winners(fs, o)[k]].key) == k
  {
    if |fs| != 0 {
      WinnerKeys(fs[..|fs| - 1], o);
    }
  }

  lemma {:induction false} EqualObjectsSameKeys(fs: seq<Field>, gs: seq<Field>)
    requires Distinct(fs) && Distinct(gs) && EntriesMatch(fs, gs)
    ensures Keys(fs) == Keys(gs)
  {
    DistinctKeyCount(fs);
    DistinctKeyCount(gs);
    forall k | k in Keys(fs) ensures k in Keys(gs) {
      var i :| 0 <= i < |fs| && fs[i].key == k;
      assert EntryFound(fs[i], gs);
    }
    SubsetOfSameSize(Keys(fs), Keys(gs));
  }

  lemma ApartTransfers(fs: seq<Field>, gs: seq<Field>, o: Options)
    requires Distinct(fs) && Distinct(gs) && Keys(fs) == Keys(gs) && KeysApart(fs, o)
    ensures KeysApart(gs, o)
  {
    forall i, j | 0 <= i < j < |gs| ensures KeyOf(o, gs[i].key) != KeyOf(o, gs[j].key) {
      assert gs[i].key in Keys(fs) && gs[j].key in Keys(fs);
    }
  }

  lemma {:induction false} SameWinnerKeys(fs: seq<Field>, gs: seq<Field>, o: Options)
    requires KeysApart(fs, o) && KeysApart(gs, o) && Keys(fs) == Keys(gs)
    ensures Winners(gs, o).Keys <= Winners(fs, o).Keys
  {
    WinnerKeys(gs, o);
    WinnersOfApart(fs, o);
    forall k | k in Winners(gs, o) ensures k in Winners(fs, o) {
      var j := Winners(gs, o)[k];
      assert gs[j].key in Keys(fs);
    }
  }

  lemma {:induction false} EqualAtKey(fs: seq<Field>, gs: seq<Field>, k: string, o: Options)
    requires EntriesMatch(fs, gs) && KeysApart(fs, o) && KeysApart(gs, o)
    requires k in Collect(fs, o)
    ensures k in Collect(gs, o) && SerdeEq(Collect(fs, o)[k], Collect(gs, o)[k])
  {
    WinnerKeys(fs, o);
    var i := Winners(fs, o)[k];
    assert EntryFound(fs[i], gs);
    var j := Find(gs, fs[i].key).value;
    WinnersOfApart(gs, o);
    assert Winners(gs, o)[KeyOf(o, gs[j].key)] == j;
  }

  // ---------------------------------------------------------------- unordered arrays match in place

  function FirstTaken(n: nat, i: nat): seq<bool> {
    seq(n, t => t < i)
  }

  lemma {:induction false} SkipTaken(x: Value, xs: seq<Value>, i: nat, j: nat, p: Place, o: Options, d: nat)
    requires j <= i < |xs| && Diff(x, xs[i], p, o, d + 1) == []
    ensures FirstFree(x, xs, FirstTaken(|xs|, i), j, p, o, d) == Some(i)
    decreases i - j
  {
    if j < i {
      SkipTaken(x, xs, i, j + 1, p, o, d);
    }
  }

  lemma {:induction false} MatchInPlace(es: seq<Value>, xs: seq<Value>, i: nat, p: Place, o: Options, d: nat)
    requires i <= |es| == |xs|
    requires forall k {:trigger es[k]} :: i <= k < |es| ==> Diff(es[k], xs[k], p, o, d + 1) == []
    ensures DiffUnordered(es[i..], xs, FirstTaken(|xs|, i), p, o, d) == []
    decreases |es| - i
  {
    if i == |es| {
      AddedFreeEmpty(xs, FirstTaken(|xs|, i), 0, p);
    } else {
      assert es[i..][0] == es[i] && es[i..][1..] == es[i + 1..];
      SkipTaken(es[i], xs, i, 0, p, o, d);
      assert FirstTaken(|xs|, i)[i := true] == FirstTaken(|xs|, i + 1);
      MatchInPlace(es, xs, i + 1, p, o, d);
    }
  }

  // ---------------------------------------------------------------- equal documents do not differ

  lemma {:induction false} EqualDiffEmpty(e: Value, a: Value, p: Place, o: Options, d: nat)
    requires WellFormed(e) && WellFormed(a) && SerdeEq(e, a)
    requires KeysInjective(e, o) && GapOfEquals(o) && Fits(e, o, d)
    ensures Diff(e, a, p, o, d) == []
    decreases e, 1
  {
    if e.Obj? {
      EqualFieldsEmpty(e, a, p, o, d);
      DiffFieldsEmpty(e, a, p, o, d);
    } else if e.Arr? && ModeAt(o, p) == Ordered {
      EqualItemsEmpty(e, a, p, o, d);
      DiffArrayEmpty(e, a, p, o, d);
    } else if e.Arr? {
      EqualBagsEmpty(e, a, p, o, d);
    }
  }

  lemma {:induction false} EqualFieldsEmpty(e: Value, a: Value, p: Place, o: Options, d: nat)
    requires e.Obj? && a.Obj? && WellFormed(e) && WellFormed(a) && EntriesMatch(e.fields, a.fields)
    requires KeysInjective(e, o) && GapOfEquals(o) && FieldsFit(e, o, d)
    ensures FieldsEmpty(e, a, p, o, d)
    decreases e, 0, 1
  {
    var em, am := Collect(e.fields, o), Collect(a.fields, o);
    EqualObjectsSameKeys(e.fields, a.fields);
    ApartTransfers(e.fields, a.fields, o);
    SameWinnerKeys(e.fields, a.fields, o);
    SameWinnerKeys(a.fields, e.fields, o);
    forall k | k in em ensures k in am && Diff(em[k], am[k], Under(p, Key(k)), o, d + 1) == [] {
      EqualFieldEmpty(e, a, k, p, o, d);
    }
    assert em.Keys == Winners(e.fields, o).Keys && am.Keys == Winners(a.fields, o).Keys;
  }

  /** The values two equal objects collect under one key are equal, and in order themselves. */
  lemma {:induction false} EqualCollected(e: Value, a: Value, k: string, o: Options, d: nat)
    requires e.Obj? && a.Obj? && WellFormed(e) && WellFormed(a) && EntriesMatch(e.fields, a.fields)
    requires KeysInjective(e, o) && KeysApart(a.fields, o) && FieldsFit(e, o, d) && k in Collect(e.fields, o)
    ensures k in Collect(a.fields, o)
    ensures var x, y := Collect(e.fields, o)[k], Collect(a.fields, o)[k];
      x < e && WellFormed(x) && WellFormed(y) && SerdeEq(x, y) && KeysInjective(x, o) && Fits(x, o, d + 1)
  {
    EqualAtKey(e.fields, a.fields, k, o);
    WinnerKeys(e.fields, o);
    WinnerKeys(a.fields, o);
  }

  lemma {:induction false} EqualFieldEmpty(e: Value, a: Value, k: string, p: Place, o: Options, d: nat)
    requires e.Obj? && a.Obj? && WellFormed(e) && WellFormed(a) && EntriesMatch(e.fields, a.fields)
    requires KeysInjective(e, o) && KeysApart(a.fields, o) && GapOfEquals(o) && FieldsFit(e, o, d)
    requires k in Collect(e.fields, o)
    ensures k in Collect(a.fields, o)
    ensures Diff(Collect(e.fields, o)[k], Collect(a.fields, o)[k], Under(p, Key(k)), o, d + 1) == []
    decreases e, 0, 0
  {
    EqualCollected(e, a, k, o, d);
    EqualDiffEmpty(Collect(e.fields, o)[k], Collect(a.fields, o)[k], Under(p, Key(k)), o, d + 1);
  }

  lemma {:induction false} EqualItemsEmpty(e: Value, a: Value, p: Place, o: Options, d: nat)
    requires e.Arr? && a.Arr? && WellFormed(e) && WellFormed(a) && SerdeEq(e, a)
    requires KeysInjective(e, o) && GapOfEquals(o) && Fits(e, o, d)
    ensures ItemsEmpty(e.items, a.items, p, o, d)
    decreases e, 0
  {
    forall i | 0 <= i < |e.items| ensures PairEmpty(e.items, a.items, i, p, o, d) {
      EqualDiffEmpty(e.items[i], a.items[i], Under(p, Index(i)), o, d + 1);
    }
  }

  lemma EqualBagsEmpty(e: Value, a: Value, p: Place, o: Options, d: nat)
    requires e.Arr? && a.Arr? && WellFormed(e) && WellFormed(a) && SerdeEq(e, a)
    requires KeysInjective(e, o) && GapOfEquals(o) && Fits(e, o, d)
    ensures DiffUnordered(e.items, a.items, seq(|a.items|, _ => false), p, o, d) == []
    decreases e, 0
  {
    var es, xs := e.items, a.items;
    forall i | 0 <= i < |es| ensures Diff(es[i], xs[i], p, o, d + 1) == [] {
      EqualDiffEmpty(es[i], xs[i], p, o, d + 1);
    }
    MatchInPlace(es, xs, 0, p, o, d);
    assert es[0..] == es;
    assert FirstTaken(|xs|, 0) == seq(|xs|, _ => false);
  }

  // ---------------------------------------------------------------- main results

  /** The shortcut gives the answer of the full walk exactly when equal documents also stay within
      the depth limit. This holds for every tolerance and every array mode. */
  lemma {:induction false} ShortcutTransparent(e: Value, a: Value, o: Options)
    requires WellFormed(e) && WellFormed(a) && KeysInjective(e, o) && GapOfEquals(o) && o.bypass
    ensures CompareJson(e, a, o) == Diff(e, a, Top, o, 0) <==> (SerdeEq(e, a) ==> Fits(e, o, 0))
  {
    if SerdeEq(e, a) && Fits(e, o, 0) {
      EqualDiffEmpty(e, a, Top, o, 0);
    }
    if Diff(e, a, Top, o, 0) == [] {
      EmptyDiffMeansEqual(e, a, Top, o, 0);
      SemEqFits(e, a, Top, o, 0);
    }
  }

  lemma {:induction false} ToldApartInjective(v: Value, ks: iset<string>, o: Options)
    requires WellFormed(v) && KeysIn(v, ks) && ToldApart(ks, o)
    ensures KeysInjective(v, o)
  {
    match v
    case Obj(fs) =>
      FieldsToldApart(fs, ks, o);
      forall i | 0 <= i < |fs| ensures KeysInjective(fs[i].value, o) { ToldApartInjective(fs[i].value, ks, o); }
    case Arr(items) =>
      forall i | 0 <= i < |items| ensures KeysInjective(items[i], o) { ToldApartInjective(items[i], ks, o); }
    case _ =>
  }

  lemma CollidingPair(fs: seq<Field>, o: Options)
    requires |fs| == 2 && KeyOf(o, fs[0].key) == KeyOf(o, fs[1].key)
    ensures Collect(fs, o) == map[KeyOf(o, fs[0].key) := fs[1].value]
  {
    assert fs[..1] == [fs[0]] && [fs[0]][..0] == [];
    assert Winners([fs[0]], o).Keys == {KeyOf(o, fs[0].key)};
  }

  lemma SwappedEqual(f: Field, g: Field)
    requires f.key != g.key && f.value == Null && g.value == Bool(true)
    ensures WellFormed(Obj([f, g])) && WellFormed(Obj([g, f])) && SerdeEq(Obj([f, g]), Obj([g, f]))
  {
    var gs := [g, f];
    assert gs[1..] == [f] && Find(gs[1..], f.key) == Some(0);
    assert Find(gs, f.key) == Some(1) && Find(gs, g.key) == Some(0);
    assert EntryFound(f, gs) && EntryFound(g, gs);
  }

  lemma {:induction false} SwappedDiffer(f: Field, g: Field, o: Options)
    requires KeyOf(o, f.key) == KeyOf(o, g.key) && f.value == Null && g.value == Bool(true) && o.maxDepth >= 1
    ensures Diff(Obj([f, g]), Obj([g, f]), Top, o, 0) != [] && Fits(Obj([f, g]), o, 0)
  {
    var k := KeyOf(o, f.key);
    CollidingPair([f, g], o);
    CollidingPair([g, f], o);
    DiffFieldsEmpty(Obj([f, g]), Obj([g, f]), Top, o, 0);
    assert k in Collect([f, g], o);
    assert Diff(Bool(true), Null, Under(Top, Key(k)), o, 1) != [];
  }

  /** When normalisation identifies two keys of one object, key order decides which value the walk
      sees: two documents equal for serde_json then differ for the walk, and the shortcut hides it. */
  lemma ShortcutHidesCollidingKeys() returns (e: Value, a: Value, o: Options)
    ensures WellFormed(e) && WellFormed(a) && SerdeEq(e, a) && Fits(e, o, 0) && o.bypass && GapOfEquals(o)
    ensures CompareJson(e, a, o) == [] && Diff(e, a, Top, o, 0) != []
  {
    o := DefaultOptions((k: string) => "k", (x: Number, y: Number) => if NumberEq(x, y) then 0.0 else 1.0);
    var f, g := Field("a", Null), Field("b", Bool(true));
    e, a := Obj([f, g]), Obj([g, f]);
    SwappedEqual(f, g);
    SwappedDiffer(f, g, o);
  }

  ghost predicate Transparent(e: Value, a: Value, o: Options) {
    WellFormed(e) && WellFormed(a) && Fits(e, o, 0) ==> CompareJson(e, a, o) == Diff(e, a, Top, o, 0)
  }

  lemma {:induction false} ToldApartTransparent(e: Value, a: Value, ks: iset<string>, o: Options)
    requires GapOfEquals(o) && o.bypass && KeysIn(e, ks) && ToldApart(ks, o)
    ensures Transparent(e, a, o)
  {
    if WellFormed(e) && WellFormed(a) && Fits(e, o, 0) {
      ToldApartInjective(e, ks, o);
      ShortcutTransparent(e, a, o);
    }
  }

  lemma CollidingKeysHidden(k: string, l: string, o: Options)
    requires k != l && KeyOf(o, k) == KeyOf(o, l) && o.bypass && o.maxDepth >= 1
    ensures !Transparent(Obj([Field(k, Null), Field(l, Bool(true))]), Obj([Field(l, Bool(true)), Field(k, Null)]), o)
  {
    SwappedEqual(Field(k, Null), Field(l, Bool(true)));
    SwappedDiffer(Field(k, Null), Field(l, Bool(true)), o);
  }

  /** For documents over any set of keys that fit the depth limit, the shortcut never changes the answer
      exactly when normalisation tells those keys apart. */
  lemma {:induction false} ShortcutTransparentIff(ks: iset<string>, o: Options)
    requires GapOfEquals(o) && o.bypass && o.maxDepth >= 1
    ensures (forall e, a :: KeysIn(e, ks) && KeysIn(a, ks) ==> Transparent(e, a, o)) <==> ToldApart(ks, o)
  {
    if ToldApart(ks, o) {
      forall e, a | KeysIn(e, ks) && KeysIn(a, ks) ensures Transparent(e, a, o) { ToldApartTransparent(e, a, ks, o); }
    } else {
      var k, l :| k in ks && l in ks && KeyOf(o, k) == KeyOf(o, l) && k != l;
      CollidingKeysHidden(k, l, o);
      var e, a := Obj([Field(k, Null), Field(l, Bool(true))]), Obj([Field(l, Bool(true)), Field(k, Null)]);
      assert KeysIn(e, ks) && KeysIn(a, ks);
    }
  }
}
