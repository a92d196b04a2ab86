/** The JSON documents every other module works on: serde_json's `Value` with the
    insertion order of object keys kept (the `preserve_order` feature), and two
    order-free views of it. */
module Json {

  datatype Option<+T> = None | Some(value: T)

  function Min(a: nat, b: nat): nat {
    if a < b then a else b
  }

  const U32_LIMIT: nat := 0x1_0000_0000

  type u64 = n: nat | n < 0x1_0000_0000_0000_0000

  /** A number stored as a negative integer is never zero or positive. */
  type negI64 = n: int | -0x8000_0000_0000_0000 <= n < 0 witness -1

  const I64_MAX: nat := 0x7FFF_FFFF_FFFF_FFFF
  const NEGATIVE_ZERO: u64 := 0x8000_0000_0000_0000

  /** The bit pattern of a finite IEEE 754 double: JSON has no NaN and no infinity. */
  type finiteF64 = b: u64 | FiniteBits(b)

  predicate FiniteBits(b: u64) {
    (b / 0x10_0000_0000_0000) % 0x800 != 0x7FF
  }

  datatype Number = PosInt(u: u64) | NegInt(i: negI64) | Float(bits: finiteF64)

  /** The two zeros are one number; every other pair of finite doubles with different bits differs. */
  function FoldZero(n: Number): Number {
    if n.Float? && n.bits == NEGATIVE_ZERO then Float(0) else n
  }

  /** serde_json's `==` on numbers: equal representation, doubles compared as doubles. */
  predicate NumberEq(a: Number, b: Number) {
    FoldZero(a) == FoldZero(b)
  }

  datatype Field = Field(key: string, value: Value)

  datatype Value =
    | Null
    | Bool(b: bool)
    | Num(n: Number)
    | Str(s: string)
    | Arr(items: seq<Value>)
    | Obj(fields: seq<Field>)

  predicate IsContainer(v: Value) {
    v.Arr? || v.Obj?
  }

  /** The position of a key in an object, as the map lookups of the program find it. */
  function Find(fs: seq<Field>, k: string): (r: Option<nat>)
    ensures r.Some? ==> r.value < |fs| && fs[r.value].key == k
    ensures r.None? ==> forall i :: 0 <= i < |fs| ==> fs[i].key != k
  {
    if |fs| == 0 then None
    else if fs[0].key == k then Some(0)
    else match Find(fs[1..], k)
      case None => None
      case Some(i) => Some(i + 1)
  }

  ghost predicate Distinct(fs: seq<Field>) {
    forall i, j :: 0 <= i < j < |fs| ==> fs[i].key != fs[j].key
  }

  /** What the type `serde_json::Map` guarantees: no object holds a key twice. */
  ghost predicate WellFormed(v: Value) {
    match v
    case Arr(items) => forall i :: 0 <= i < |items| ==> WellFormed(items[i])
    case Obj(fs) => Distinct(fs) && forall i :: 0 <= i < |fs| ==> WellFormed(fs[i].value)
    case _ => true
  }

  function Keys(fs: seq<Field>): set<string> {
    set i | 0 <= i < |fs| :: fs[i].key
  }

  lemma DistinctKeyCount(fs: seq<Field>)
    requires Distinct(fs)
    ensures |Keys(fs)| == |fs|
  {
    if |fs| != 0 {
      var init, last := fs[..|fs| - 1], fs[|fs| - 1];
      DistinctKeyCount(init);
      forall k ensures k in Keys(fs) <==> k in Keys(init) + {last.key} {
        if k in Keys(init) {
          var i :| 0 <= i < |init| && init[i].key == k;
          assert fs[i].key == k;
        }
      }
      assert Keys(fs) == Keys(init) + {last.key};
    }
  }

  // ---------------------------------------------------------------- order-free view

  /** A document with key order forgotten. `Canon(v, true)` keeps number bits;
      `Canon(v, false)` also folds the two zeros, which is all serde_json's `==` can see. */
  datatype Tree =
    | TNull
    | TBool(b: bool)
    | TNum(n: Number)
    | TStr(s: string)
    | TArr(items: seq<Tree>)
    | TObj(m: map<string, Tree>)

  ghost function Canon(v: Value, exact: bool): Tree
    decreases v
  {
    match v
    case Null => TNull
    case Bool(b) => TBool(b)
    case Num(n) => TNum(if exact then n else FoldZero(n))
    case Str(s) => TStr(s)
    case Arr(items) => TArr(CanonItems(items, exact))
    case Obj(fs) => TObj(CanonFields(fs, exact))
  }

  ghost function CanonItems(items: seq<Value>, exact: bool): seq<Tree>
    decreases items
  {
    seq(|items|, i requires 0 <= i < |items| => Canon(items[i], exact))
  }

  ghost function CanonFields(fs: seq<Field>, exact: bool): map<string, Tree>
    decreases fs
  {
    if |fs| == 0 then map[]
    else CanonFields(fs[..|fs| - 1], exact)[fs[|fs| - 1].key := Canon(fs[|fs| - 1].value, exact)]
  }

  lemma {:induction false} CanonFieldsAt(fs: seq<Field>, exact: bool)
    requires Distinct(fs)
    ensures CanonFields(fs, exact).Keys == Keys(fs)
    ensures forall i :: 0 <= i < |fs| ==>
      fs[i].key in CanonFields(fs, exact) && CanonFields(fs, exact)[fs[i].key] == Canon(fs[i].value, exact)
  {
    if |fs| != 0 {
      var init, last := fs[..|fs| - 1], fs[|fs| - 1];
      CanonFieldsAt(init, exact);
      forall i | 0 <= i < |fs|
        ensures fs[i].key in CanonFields(fs, exact) && CanonFields(fs, exact)[fs[i].key] == Canon(fs[i].value, exact)
      {
        if i < |init| { assert fs[i] == init[i]; }
      }
      forall k | k in CanonFields(fs, exact) ensures k in Keys(fs) {
        if k != last.key {
          var i :| 0 <= i < |init| && init[i].key == k;
          assert fs[i].key == k;
        }
      }
    }
  }

  lemma {:induction false} CanonObjectsEqual(fs: seq<Field>, gs: seq<Field>, exact: bool, i: nat, j: nat)
    requires Distinct(fs) && Distinct(gs) && CanonFields(fs, exact) == CanonFields(gs, exact)
    requires i < |fs| && j < |gs| && fs[i].key == gs[j].key
    ensures Canon(fs[i].value, exact) == Canon(gs[j].value, exact)
  {
    CanonFieldsAt(fs, exact);
    CanonFieldsAt(gs, exact);
    assert CanonFields(fs, exact)[fs[i].key] == CanonFields(gs, exact)[gs[j].key];
  }

  lemma {:induction false} EqualCanonObjects(fs: seq<Field>, gs: seq<Field>, exact: bool)
    requires Distinct(fs) && Distinct(gs) && Keys(fs) == Keys(gs)
    requires forall i, j {:trigger fs[i], gs[j]} :: 0 <= i < |fs| && 0 <= j < |gs| && fs[i].key == gs[j].key ==>
      Canon(fs[i].value, exact) == Canon(gs[j].value, exact)
    ensures CanonFields(fs, exact) == CanonFields(gs, exact)
  {
    var a, b := CanonFields(fs, exact), CanonFields(gs, exact);
    CanonFieldsAt(fs, exact);
    CanonFieldsAt(gs, exact);
    forall k | k in a ensures a[k] == b[k] {
      var i :| 0 <= i < |fs| && fs[i].key == k;
      var j :| 0 <= j < |gs| && gs[j].key == k;
      assert a[fs[i].key] == Canon(fs[i].value, exact) && b[gs[j].key] == Canon(gs[j].value, exact);
    }
    assert a.Keys == b.Keys;
  }

  /** The order-free views of two objects are equal exactly when their keys are the same set and the
      values under each key have equal views. */
  lemma {:induction false} CanonObjects(fs: seq<Field>, gs: seq<Field>, exact: bool)
    requires Distinct(fs) && Distinct(gs)
    ensures Canon(Obj(fs), exact) == Canon(Obj(gs), exact) <==>
      && Keys(fs) == Keys(gs)
      && forall i, j {:trigger fs[i], gs[j]} :: 0 <= i < |fs| && 0 <= j < |gs| && fs[i].key == gs[j].key ==>
           Canon(fs[i].value, exact) == Canon(gs[j].value, exact)
  {
    if CanonFields(fs, exact) == CanonFields(gs, exact) {
      CanonFieldsAt(fs, exact);
      CanonFieldsAt(gs, exact);
      forall i, j {:trigger fs[i], gs[j]} | 0 <= i < |fs| && 0 <= j < |gs| && fs[i].key == gs[j].key
        ensures Canon(fs[i].value, exact) == Canon(gs[j].value, exact)
      {
        CanonObjectsEqual(fs, gs, exact, i, j);
      }
    } else if Keys(fs) == Keys(gs) &&
              forall i, j {:trigger fs[i], gs[j]} :: 0 <= i < |fs| && 0 <= j < |gs| && fs[i].key == gs[j].key ==>
                Canon(fs[i].value, exact) == Canon(gs[j].value, exact) {
      EqualCanonObjects(fs, gs, exact);
    }
  }

  lemma {:induction false} CanonArrays(xs: seq<Value>, ys: seq<Value>, exact: bool)
    ensures Canon(Arr(xs), exact) == Canon(Arr(ys), exact) <==>
      |xs| == |ys| && forall i :: 0 <= i < |xs| ==> Canon(xs[i], exact) == Canon(ys[i], exact)
  {
    var a, b := CanonItems(xs, exact), CanonItems(ys, exact);
    if |xs| == |ys| && forall i :: 0 <= i < |xs| ==> Canon(xs[i], exact) == Canon(ys[i], exact) {
      assert a == b;
    }
    if a == b {
      forall i | 0 <= i < |xs| ensures Canon(xs[i], exact) == Canon(ys[i], exact) { assert a[i] == b[i]; }
    }
  }

  /** serde_json's `==`, as the map type computes it: equal lengths, then each entry looked up by key. */
  predicate SerdeEq(a: Value, b: Value)
    decreases a
  {
    match (a, b)
    case (Null, Null) => true
    case (Bool(x), Bool(y)) => x == y
    case (Num(x), Num(y)) => NumberEq(x, y)
    case (Str(x), Str(y)) => x == y
    case (Arr(xs), Arr(ys)) => |xs| == |ys| && forall i :: 0 <= i < |xs| ==> SerdeEq(xs[i], ys[i])
    case (Obj(fs), Obj(gs)) =>
      EntriesMatch(fs, gs)
    case _ => false
  }

  /** Two objects have equally many entries, and each entry is found, equal, on the other side. */
  predicate EntriesMatch(fs: seq<Field>, gs: seq<Field>)
    decreases fs
  {
    |fs| == |gs| && forall i :: 0 <= i < |fs| ==> EntryFound(fs[i], gs)
  }

  predicate EntryFound(f: Field, gs: seq<Field>)
    decreases f
  {
    var j := Find(gs, f.key);
    j.Some? && SerdeEq(f.value, gs[j.value].value)
  }

  /** serde_json's `==` is exactly equality of the order-free views, so it is an equivalence
      relation although it is computed by an asymmetric walk. */
  lemma {:induction false} SerdeEqIsCanonical(a: Value, b: Value)
    requires WellFormed(a) && WellFormed(b)
    ensures SerdeEq(a, b) <==> Canon(a, false) == Canon(b, false)
    decreases a
  {
    match (a, b)
    case (Arr(xs), Arr(ys)) =>
      var cx, cy := CanonItems(xs, false), CanonItems(ys, false);
      assert |cx| == |xs| && |cy| == |ys|;
      if |xs| == |ys| {
        forall i | 0 <= i < |xs| ensures SerdeEq(xs[i], ys[i]) <==> cx[i] == cy[i] {
          SerdeEqIsCanonical(xs[i], ys[i]);
        }
        assert cx == cy <==> forall i :: 0 <= i < |xs| ==> cx[i] == cy[i];
      }
    case (Obj(fs), Obj(gs)) =>
      forall i, j {:trigger fs[i], gs[j]} | 0 <= i < |fs| && 0 <= j < |gs|
        ensures SerdeEq(fs[i].value, gs[j].value) <==> Canon(fs[i].value, false) == Canon(gs[j].value, false)
      {
        SerdeEqIsCanonical(fs[i].value, gs[j].value);
      }
      EntriesMatchIsCanonical(fs, gs);
    case _ =>
  }

  lemma {:induction false} EntriesMatchIsCanonical(fs: seq<Field>, gs: seq<Field>)
    requires WellFormed(Obj(fs)) && WellFormed(Obj(gs))
    requires forall i, j {:trigger fs[i], gs[j]} :: 0 <= i < |fs| && 0 <= j < |gs| ==>
      (SerdeEq(fs[i].value, gs[j].value) <==> Canon(fs[i].value, false) == Canon(gs[j].value, false))
    ensures EntriesMatch(fs, gs) <==> CanonFields(fs, false) == CanonFields(gs, false)
  {
    var ca, cb := CanonFields(fs, false), CanonFields(gs, false);
    CanonFieldsAt(fs, false);
    CanonFieldsAt(gs, false);
    DistinctKeyCount(fs);
    DistinctKeyCount(gs);
    forall i | 0 <= i < |fs|
      ensures EntryFound(fs[i], gs) <==> fs[i].key in cb && ca[fs[i].key] == cb[fs[i].key]
    {
      EntryFoundInView(fs[i], gs);
    }
    MapsAgree(fs, ca, cb);
    SameKeyCount(ca, cb);
  }

  lemma {:induction false} EntryFoundInView(f: Field, gs: seq<Field>)
    requires WellFormed(f.value) && WellFormed(Obj(gs))
    requires forall j :: 0 <= j < |gs| ==>
      (SerdeEq(f.value, gs[j].value) <==> Canon(f.value, false) == Canon(gs[j].value, false))
    ensures EntryFound(f, gs) <==>
      f.key in CanonFields(gs, false) && Canon(f.value, false) == CanonFields(gs, false)[f.key]
  {
    CanonFieldsAt(gs, false);
    var j := Find(gs, f.key);
    if j.Some? { assert gs[j.value].key == f.key; }
  }

  lemma MapsAgree<T>(fs: seq<Field>, a: map<string, T>, b: map<string, T>)
    requires a.Keys == Keys(fs)
    ensures (forall i :: 0 <= i < |fs| ==> fs[i].key in b && a[fs[i].key] == b[fs[i].key]) <==>
            a.Keys <= b.Keys && forall k :: k in a ==> a[k] == b[k]
  {
  }

  lemma SameKeyCount<T>(a: map<string, T>, b: map<string, T>)
    ensures a == b <==> |a.Keys| == |b.Keys| && a.Keys <= b.Keys && forall k :: k in a ==> k in b && a[k] == b[k]
  {
    if |a.Keys| == |b.Keys| && a.Keys <= b.Keys { SubsetOfSameSize(a.Keys, b.Keys); }
  }

  lemma SubsetOfSameSize<T>(a: set<T>, b: set<T>)
    requires a <= b && |a| == |b|
    ensures a == b
  {
    assert |b - a| == |b| - |a|;
  }
}
