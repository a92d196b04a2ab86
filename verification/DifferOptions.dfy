/** What each comparison option does, on the smallest documents that show it. */
module DifferOptions {
  import opened Json
  import opened Paths
  import opened Differ
  import opened EqualityShortcut

  /** Equal as serde sees them: the same number, or the two zeros. */
  predicate SameNumber(x: Number, y: Number) {
    x == y || (x.Float? && y.Float? && {x.bits, y.bits} == {0, 0x8000_0000_0000_0000})
  }

  /** The tolerance: within the depth limit two numbers yield no record exactly when they are at most
      epsilon apart, or, without a tolerance, equal. */
  lemma {:induction false} NumbersWithinTolerance(x: Number, y: Number, p: Place, o: Options, d: nat)
    requires d <= o.maxDepth
    ensures Diff(Num(x), Num(y), p, o, d) == [] <==>
      if o.epsilon > 0.0 then o.gap(x, y) <= o.epsilon else SameNumber(x, y)
  {
    assert SameNumber(x, y) <==> NumberEq(x, y);
  }

  /** For whole documents the shortcut adds: or it is on and sees them equal. */
  lemma NumbersCompared(x: Number, y: Number, o: Options)
    ensures CompareJson(Num(x), Num(y), o) == [] <==>
      || (o.bypass && SameNumber(x, y))
      || if o.epsilon > 0.0 then o.gap(x, y) <= o.epsilon else SameNumber(x, y)
  {
    NumbersWithinTolerance(x, y, Top, o, 0);
    assert SameNumber(x, y) <==> NumberEq(x, y);
  }

  /** The array's own printed path is configured to be compared as a set. */
  predicate SetPath(p: Place, o: Options) {
    Render(Segments(p)) in o.arrayModes && o.arrayModes[Render(Segments(p))] == Unordered
  }

  lemma {:induction false} TextsCompared(x: string, y: string, p: Place, o: Options, d: nat)
    ensures Diff(Str(x), Str(y), p, o, d) == [] <==> x == y && d <= o.maxDepth
  {
  }

  /** Two different items in the other order yield no record exactly when the array's own path is
      configured as a set and the limit leaves room for the items. */
  lemma {:induction false} OrderIgnored(x: string, y: string, p: Place, o: Options, d: nat)
    requires x != y && d <= o.maxDepth
    ensures Diff(Arr([Str(x), Str(y)]), Arr([Str(y), Str(x)]), p, o, d) == [] <==> SetPath(p, o) && d < o.maxDepth
  {
    var es, xs := [Str(x), Str(y)], [Str(y), Str(x)];
    PrintedIsRendered(p);
    if ModeAt(o, p) == Ordered {
      FirstItemDiffers(x, y, es, xs, p, o, d);
    } else {
      SwappedAsSet(x, y, p, o, d);
      assert seq(2, _ => false) == [false, false];
    }
  }

  lemma {:induction false} FirstItemDiffers(x: string, y: string, es: seq<Value>, xs: seq<Value>, p: Place,
          o: Options, d: nat)
    requires |es| == |xs| > 0 && es[0] == Str(x) && xs[0] == Str(y) && x != y
    ensures DiffItems(es, xs, 0, p, o, d) != []
  {
    TextsCompared(x, y, Under(p, Index(0)), o, d + 1);
    assert DiffItems(es, xs, 0, p, o, d)
        == Diff(Str(x), Str(y), Under(p, Index(0)), o, d + 1) + DiffItems(es, xs, 1, p, o, d);
  }

  lemma {:induction false} SwappedAsSet(x: string, y: string, p: Place, o: Options, d: nat)
    requires x != y
    ensures DiffUnordered([Str(x), Str(y)], [Str(y), Str(x)], [false, false], p, o, d) == [] <==> d < o.maxDepth
  {
    var es, xs := [Str(x), Str(y)], [Str(y), Str(x)];
    assert es[1..] == [Str(y)];
    FirstTaken(x, y, p, o, d);
    if d < o.maxDepth {
      SecondTaken(x, y, p, o, d);
      assert [false, false][1 := true] == [false, true];
    }
  }

  lemma {:induction false} FirstTaken(x: string, y: string, p: Place, o: Options, d: nat)
    requires x != y
    ensures FirstFree(Str(x), [Str(y), Str(x)], [false, false], 0, p, o, d) == if d < o.maxDepth then Some(1) else None
  {
    var xs := [Str(y), Str(x)];
    TextsCompared(x, y, p, o, d + 1);
    TextsCompared(x, x, p, o, d + 1);
    assert FirstFree(Str(x), xs, [false, false], 2, p, o, d) == None;
    assert FirstFree(Str(x), xs, [false, false], 1, p, o, d) == if d < o.maxDepth then Some(1) else None;
  }

  lemma {:induction false} SecondTaken(x: string, y: string, p: Place, o: Options, d: nat)
    requires d < o.maxDepth
    ensures DiffUnordered([Str(y)], [Str(y), Str(x)], [false, true], p, o, d) == []
  {
    var xs := [Str(y), Str(x)];
    TextsCompared(y, y, p, o, d + 1);
    assert FirstFree(Str(y), xs, [false, true], 0, p, o, d) == Some(0);
    assert [Str(y)][1..] == [] && [false, true][0 := true] == [true, true];
    AllTaken(xs, p);
    assert DiffUnordered([], xs, [true, true], p, o, d) == AddedFree(xs, [true, true], 0, p);
  }

  lemma {:induction false} AllTaken(xs: seq<Value>, p: Place)
    requires |xs| == 2
    ensures AddedFree(xs, [true, true], 0, p) == []
  {
    assert AddedFree(xs, [true, true], 2, p) == [];
    assert AddedFree(xs, [true, true], 1, p) == [];
  }

  /** What a caller gets who configures nothing: exact numbers, normalised keys, ordered arrays. */
  lemma DefaultsWrittenOut(nfc: string -> string, gap: (Number, Number) -> real)
    ensures var o := DefaultOptions(nfc, gap);
      && o.epsilon == 0.0 && o.normalizeKeys && o.maxDepth == 512 && o.bypass
      && forall p: Place {:trigger ModeAt(o, p)} :: ModeAt(o, p) == Ordered
  {
  }
}
