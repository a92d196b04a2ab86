/** When the greedy matching of set-mode arrays finds every bijection: exactly when the tolerance
    relates numbers in a zigzag, as equality does and a distance in general does not. */
module TolerantMatching {
  import opened Json
  import opened Paths
  import opened Differ
  import opened DifferEquality

  /** Two expected numbers that match one actual number match the same actual numbers. */
  ghost predicate ZigzagAt(w: Number, x: Number, y: Number, z: Number, o: Options) {
    NumberMatch(w, y, o) && NumberMatch(w, z, o) && NumberMatch(x, y, o) ==> NumberMatch(x, z, o)
  }

  ghost predicate Zigzag(o: Options) {
    forall w, x, y, z :: ZigzagAt(w, x, y, z, o)
  }

  lemma ExactIsZigzag(o: Options)
    requires o.epsilon <= 0.0
    ensures Zigzag(o)
  {
  }

  // ---------------------------------------------------------------- the relation carries over to documents

  lemma {:induction false} SemEqZigzag(w: Value, x: Value, y: Value, z: Value, p: Place, o: Options, d: nat)
    requires Zigzag(o) && SemEq(w, y, p, o, d) && SemEq(w, z, p, o, d) && SemEq(x, y, p, o, d)
    ensures SemEq(x, z, p, o, d)
    decreases w, 1
  {
    if w.Num? {
      assert ZigzagAt(w.n, x.n, y.n, z.n, o);
    } else if w.Obj? {
      FieldsZigzag(w, x, y, z, p, o, d);
    } else if w.Arr? && ModeAt(o, p) == Ordered {
      ItemsZigzag(w, x, y, z, p, o, d);
    } else if w.Arr? {
      BagsZigzag(w, x, y, z, p, o, d);
    }
  }

  lemma {:induction false} FieldsZigzag(w: Value, x: Value, y: Value, z: Value, p: Place, o: Options, d: nat)
    requires Zigzag(o) && w.Obj? && x.Obj? && y.Obj? && z.Obj?
    requires FieldsEq(w, y, p, o, d) && FieldsEq(w, z, p, o, d) && FieldsEq(x, y, p, o, d)
    ensures FieldsEq(x, z, p, o, d)
    decreases w, 0, 1
  {
    var xm, zm := Collect(x.fields, o), Collect(z.fields, o);
    forall k | k in xm ensures SemEq(xm[k], zm[k], Under(p, Key(k)), o, d + 1) { FieldZigzag(w, x, y, z, k, p, o, d); }
  }

  lemma {:induction false} FieldZigzag(w: Value, x: Value, y: Value, z: Value, k: string, p: Place, o: Options, d: nat)
    requires Zigzag(o) && w.Obj? && x.Obj? && y.Obj? && z.Obj? && k in Collect(w.fields, o)
    requires FieldsEq(w, y, p, o, d) && FieldsEq(w, z, p, o, d) && FieldsEq(x, y, p, o, d)
    ensures SemEq(Collect(x.fields, o)[k], Collect(z.fields, o)[k], Under(p, Key(k)), o, d + 1)
    decreases w, 0, 0
  {
    var wm, xm, ym, zm := Collect(w.fields, o), Collect(x.fields, o), Collect(y.fields, o), Collect(z.fields, o);
    SemEqZigzag(wm[k], xm[k], ym[k], zm[k], Under(p, Key(k)), o, d + 1);
  }

  lemma {:induction false} ItemsZigzag(w: Value, x: Value, y: Value, z: Value, p: Place, o: Options, d: nat)
    requires Zigzag(o) && w.Arr? && x.Arr? && y.Arr? && z.Arr?
    requires ItemsEq(w, y, p, o, d) && ItemsEq(w, z, p, o, d) && ItemsEq(x, y, p, o, d)
    ensures ItemsEq(x, z, p, o, d)
    decreases w, 0
  {
    forall i | 0 <= i < |x.items| ensures SemEq(x.items[i], z.items[i], Under(p, Index(i)), o, d + 1) {
      SemEqZigzag(w.items[i], x.items[i], y.items[i], z.items[i], Under(p, Index(i)), o, d + 1);
    }
  }

  /** The index an injective sequence of indices sends to `j`. */
  ghost function Preimage(pi: seq<nat>, j: nat): (i: nat)
    requires j in pi
    ensures i < |pi| && pi[i] == j
  {
    var i :| 0 <= i < |pi| && pi[i] == j;
    i
  }

  /** Following one bijection, another backwards, and a third. */
  lemma Composed(there: seq<nat>, back: seq<nat>, onward: seq<nat>, n: nat) returns (pi: seq<nat>)
    requires Permutation(there, n) && Permutation(back, n) && Permutation(onward, n)
    ensures Permutation(pi, n)
    ensures forall i :: 0 <= i < n ==> there[i] in back && pi[i] == onward[Preimage(back, there[i])]
  {
    PermutationOnto(back, n);
    pi := seq(n, i requires 0 <= i < n => onward[Preimage(back, there[i])]);
    forall i, j | 0 <= i < j < n ensures pi[i] != pi[j] {
      var a, b := Preimage(back, there[i]), Preimage(back, there[j]);
      assert back[a] != back[b];
      assert onward[a] != onward[b];
    }
  }

  ghost predicate Carries(pi: seq<nat>, es: seq<Value>, xs: seq<Value>, p: Place, o: Options, d: nat) {
    && |es| == |xs| && Permutation(pi, |es|)
    && forall i {:trigger pi[i]} :: 0 <= i < |es| ==> SemEq(es[i], xs[pi[i]], p, o, d + 1)
  }

  lemma Pairing(e: Value, a: Value, p: Place, o: Options, d: nat) returns (pi: seq<nat>)
    requires e.Arr? && a.Arr? && BagEq(e, a, p, o, d)
    ensures Carries(pi, e.items, a.items, p, o, d)
  {
    pi :| Permutation(pi, |e.items|) &&
      forall i {:trigger pi[i]} :: 0 <= i < |e.items| ==> SemEq(e.items[i], a.items[pi[i]], p, o, d + 1);
  }

  lemma {:induction false} BagsZigzag(w: Value, x: Value, y: Value, z: Value, p: Place, o: Options, d: nat)
    requires Zigzag(o) && w.Arr? && x.Arr? && y.Arr? && z.Arr?
    requires BagEq(w, y, p, o, d) && BagEq(w, z, p, o, d) && BagEq(x, y, p, o, d)
    ensures BagEq(x, z, p, o, d)
    decreases w, 0, 1
  {
    var wy := Pairing(w, y, p, o, d);
    var wz := Pairing(w, z, p, o, d);
    var xy := Pairing(x, y, p, o, d);
    var n := |w.items|;
    var xz := Composed(xy, wy, wz, n);
    forall i | 0 <= i < n ensures SemEq(x.items[i], z.items[xz[i]], p, o, d + 1) {
      ItemZigzag(w, x.items[i], y.items[xy[i]], z.items[xz[i]], Preimage(wy, xy[i]), p, o, d);
    }
    assert Carries(xz, x.items, z.items, p, o, d);
  }

  lemma ItemZigzag(w: Value, x: Value, y: Value, z: Value, m: nat, p: Place, o: Options, d: nat)
    requires Zigzag(o) && w.Arr? && m < |w.items|
    requires SemEq(w.items[m], y, p, o, d + 1) && SemEq(w.items[m], z, p, o, d + 1) && SemEq(x, y, p, o, d + 1)
    ensures SemEq(x, z, p, o, d + 1)
    decreases w, 0, 0
  {
    SemEqZigzag(w.items[m], x, y, z, p, o, d + 1);
  }

  // ---------------------------------------------------------------- greedy matching by exchange

  ghost predicate CompleteAt(e: Value, a: Value, p: Place, o: Options, d: nat) {
    SemEq(e, a, p, o, d) ==> Diff(e, a, p, o, d) == []
  }

  ghost predicate CompleteOn(es: seq<Value>, xs: seq<Value>, p: Place, o: Options, d: nat) {
    forall i, j {:trigger es[i], xs[j]} :: 0 <= i < |es| && 0 <= j < |xs| ==> CompleteAt(es[i], xs[j], p, o, d)
  }

  /** If the first item takes another's partner, the two swap partners. */
  lemma Exchange(es: seq<Value>, xs: seq<Value>, taken: seq<bool>, pi: seq<nat>, j: nat,
          p: Place, o: Options, d: nat)
    returns (rest: seq<nat>)
    requires Zigzag(o) && |taken| == |xs| && |es| > 0 && Matches(pi, es, xs, taken, p, o, d)
    requires CompleteOn(es, xs, p, o, d + 1)
    requires j < |xs| && !taken[j] && Diff(es[0], xs[j], p, o, d + 1) == []
    ensures Matches(rest, es[1..], xs, taken[j := true], p, o, d)
  {
    var k, rho := Preimage(pi, j), pi;
    if k > 0 {
      assert pi[0] < |xs|;
      Swapped(es[0], es[k], xs[j], xs[pi[0]], p, o, d);
      rho := pi[0 := j][k := pi[0]];
      SwapMatches(es, xs, taken, pi, k, p, o, d);
    }
    TailMatches(es, xs, taken, rho, p, o, d);
    rest := rho[1..];
  }

  lemma Swapped(w: Value, x: Value, y: Value, z: Value, p: Place, o: Options, d: nat)
    requires Zigzag(o) && CompleteAt(x, z, p, o, d + 1)
    requires Diff(w, y, p, o, d + 1) == [] && Diff(w, z, p, o, d + 1) == [] && Diff(x, y, p, o, d + 1) == []
    ensures Diff(x, z, p, o, d + 1) == []
  {
    EmptyDiffMeansEqual(w, y, p, o, d + 1);
    EmptyDiffMeansEqual(w, z, p, o, d + 1);
    EmptyDiffMeansEqual(x, y, p, o, d + 1);
    SemEqZigzag(w, x, y, z, p, o, d + 1);
  }

  lemma {:induction false} SwapMatches(es: seq<Value>, xs: seq<Value>, taken: seq<bool>, pi: seq<nat>, k: nat,
          p: Place, o: Options, d: nat)
    requires |taken| == |xs| && Matches(pi, es, xs, taken, p, o, d) && 0 < k < |pi|
    requires Diff(es[0], xs[pi[k]], p, o, d + 1) == [] && Diff(es[k], xs[pi[0]], p, o, d + 1) == []
    ensures Matches(pi[0 := pi[k]][k := pi[0]], es, xs, taken, p, o, d)
  {
    var rho := pi[0 := pi[k]][k := pi[0]];
    forall i | 0 <= i < |xs| && !taken[i] ensures i in rho {
      var m := Preimage(pi, i);
      assert rho[if m == 0 then k else if m == k then 0 else m] == i;
    }
  }

  lemma TailMatches(es: seq<Value>, xs: seq<Value>, taken: seq<bool>, pi: seq<nat>,
          p: Place, o: Options, d: nat)
    requires |taken| == |xs| && |es| > 0 && Matches(pi, es, xs, taken, p, o, d)
    ensures pi[0] < |xs| && Matches(pi[1..], es[1..], xs, taken[pi[0] := true], p, o, d)
  {
    var rest, taken' := pi[1..], taken[pi[0] := true];
    forall i | 0 <= i < |rest|
      ensures rest[i] < |xs| && !taken'[rest[i]] && Diff(es[1..][i], xs[rest[i]], p, o, d + 1) == []
    {
      assert rest[i] == pi[i + 1] && es[1..][i] == es[i + 1];
    }
    forall i | 0 <= i < |xs| && !taken'[i] ensures i in rest {
      assert !taken[i];
      var m := Preimage(pi, i);
      assert rest[m - 1] == i;
    }
  }

  lemma {:induction false} GreedyCompletes(es: seq<Value>, xs: seq<Value>, taken: seq<bool>, pi: seq<nat>,
          p: Place, o: Options, d: nat)
    requires Zigzag(o) && |taken| == |xs| && Matches(pi, es, xs, taken, p, o, d) && CompleteOn(es, xs, p, o, d + 1)
    ensures DiffUnordered(es, xs, taken, p, o, d) == []
    decreases |es|
  {
    if |es| == 0 {
      AddedFreeEmpty(xs, taken, 0, p);
    } else {
      FirstFreeIsFirst(es[0], xs, taken, 0, p, o, d);
      assert pi[0] < |xs| && !taken[pi[0]];
      var j := FirstFree(es[0], xs, taken, 0, p, o, d).value;
      var rest := Exchange(es, xs, taken, pi, j, p, o, d);
      assert forall i :: 0 <= i < |es[1..]| ==> es[1..][i] == es[i + 1];
      GreedyCompletes(es[1..], xs, taken[j := true], rest, p, o, d);
    }
  }

  // ---------------------------------------------------------------- completeness

  lemma {:induction false} Complete(e: Value, a: Value, p: Place, o: Options, d: nat)
    requires Zigzag(o) || AllOrdered(o)
    requires SemEq(e, a, p, o, d)
    ensures Diff(e, a, p, o, d) == []
    decreases e, 1
  {
    if e.Obj? {
      FieldsComplete(e, a, p, o, d);
      DiffFieldsEmpty(e, a, p, o, d);
    } else if e.Arr? && ModeAt(o, p) == Ordered {
      ItemsComplete(e, a, p, o, d);
      DiffArrayEmpty(e, a, p, o, d);
    } else if e.Arr? {
      BagsComplete(e, a, p, o, d);
    }
  }

  lemma {:induction false} FieldsComplete(e: Value, a: Value, p: Place, o: Options, d: nat)
    requires Zigzag(o) || AllOrdered(o)
    requires e.Obj? && a.Obj? && FieldsEq(e, a, p, o, d)
    ensures FieldsEmpty(e, a, p, o, d)
    decreases e, 0
  {
    var em, am := Collect(e.fields, o), Collect(a.fields, o);
    forall k | k in em ensures Diff(em[k], am[k], Under(p, Key(k)), o, d + 1) == [] {
      Complete(em[k], am[k], Under(p, Key(k)), o, d + 1);
    }
  }

  lemma {:induction false} ItemsComplete(e: Value, a: Value, p: Place, o: Options, d: nat)
    requires Zigzag(o) || AllOrdered(o)
    requires e.Arr? && a.Arr? && ItemsEq(e, a, p, o, d)
    ensures ItemsEmpty(e.items, a.items, p, o, d)
    decreases e, 0
  {
    forall i | 0 <= i < |e.items| ensures PairEmpty(e.items, a.items, i, p, o, d) {
      Complete(e.items[i], a.items[i], Under(p, Index(i)), o, d + 1);
    }
  }

  lemma {:induction false} BagsComplete(e: Value, a: Value, p: Place, o: Options, d: nat)
    requires Zigzag(o) && e.Arr? && a.Arr? && BagEq(e, a, p, o, d)
    ensures DiffUnordered(e.items, a.items, seq(|a.items|, _ => false), p, o, d) == []
    decreases e, 0
  {
    var es, xs := e.items, a.items;
    var taken := seq(|xs|, _ => false);
    forall i, j {:trigger es[i], xs[j]} | 0 <= i < |es| && 0 <= j < |xs| ensures CompleteAt(es[i], xs[j], p, o, d + 1) {
      if SemEq(es[i], xs[j], p, o, d + 1) { Complete(es[i], xs[j], p, o, d + 1); }
    }
    var pi := Pairing(e, a, p, o, d);
    PermutationOnto(pi, |es|);
    forall i | 0 <= i < |es|
      ensures Diff(es[i], xs[pi[i]], p, o, d + 1) == []
    {
      assert CompleteAt(es[i], xs[pi[i]], p, o, d + 1);
    }
    GreedyCompletes(es, xs, taken, pi, p, o, d);
  }

  /** The differ's empty answer is semantic equality, at every tolerance when no array is compared as a
      set, and with set-mode arrays at every tolerance that is a zigzag. */
  lemma {:induction false} EmptyDiffIffEqual(e: Value, a: Value, p: Place, o: Options, d: nat)
    requires Zigzag(o) || AllOrdered(o)
    ensures Diff(e, a, p, o, d) == [] <==> SemEq(e, a, p, o, d)
  {
    if Diff(e, a, p, o, d) == [] { EmptyDiffMeansEqual(e, a, p, o, d); }
    if SemEq(e, a, p, o, d) { Complete(e, a, p, o, d); }
  }

  /** Without a tolerance the equivalence holds for every document and every array mode. */
  lemma {:induction false} ExactDiffIffEqual(e: Value, a: Value, p: Place, o: Options, d: nat)
    requires o.epsilon <= 0.0
    ensures Diff(e, a, p, o, d) == [] <==> SemEq(e, a, p, o, d)
  {
    ExactIsZigzag(o);
    EmptyDiffIffEqual(e, a, p, o, d);
  }

  // ---------------------------------------------------------------- the zigzag is needed

  /** Without the zigzag, `[w, x]` against `[y, z]`: `w` takes `y`, and `x` finds nothing. */
  lemma {:induction false} BrokenZigzagShows(w: Number, x: Number, y: Number, z: Number, p: Place, o: Options, d: nat)
    requires !ZigzagAt(w, x, y, z, o) && ModeAt(o, p) == Unordered && d + 1 <= o.maxDepth
    ensures SemEq(Arr([Num(w), Num(x)]), Arr([Num(y), Num(z)]), p, o, d)
    ensures Diff(Arr([Num(w), Num(x)]), Arr([Num(y), Num(z)]), p, o, d) != []
  {
    var es, xs := [Num(w), Num(x)], [Num(y), Num(z)];
    var pi := [1, 0];
    assert SemEq(es[0], xs[pi[0]], p, o, d + 1) && SemEq(es[1], xs[pi[1]], p, o, d + 1);
    assert Carries(pi, es, xs, p, o, d);
    var taken := seq(|xs|, _ => false);
    assert Diff(Num(w), Num(y), p, o, d + 1) == [];
    assert FirstFree(es[0], xs, taken, 0, p, o, d) == Some(0);
    var taken' := taken[0 := true];
    assert es[1..] == [Num(x)];
    assert Diff(Num(x), Num(z), p, o, d + 1) != [];
    FirstFreeIsFirst(Num(x), xs, taken', 0, p, o, d);
    assert FirstFree(Num(x), xs, taken', 0, p, o, d) == None;
    assert DiffUnordered([Num(x)], xs, taken', p, o, d) != [];
  }

  /** At a set-mode path within the depth limit, no semantically equal documents are reported as
      different exactly when the tolerance is a zigzag. */
  lemma CompleteIffZigzag(p: Place, o: Options, d: nat)
    requires ModeAt(o, p) == Unordered && d + 1 <= o.maxDepth
    ensures (forall e, a :: CompleteAt(e, a, p, o, d)) <==> Zigzag(o)
  {
    if Zigzag(o) {
      forall e, a ensures CompleteAt(e, a, p, o, d) { if SemEq(e, a, p, o, d) { Complete(e, a, p, o, d); } }
    } else {
      var w, x, y, z :| !ZigzagAt(w, x, y, z, o);
      BrokenZigzagShows(w, x, y, z, p, o, d);
      assert !CompleteAt(Arr([Num(w), Num(x)]), Arr([Num(y), Num(z)]), p, o, d);
    }
  }

  /** A distance is no zigzag: within 1, the numbers 1 and 0 against 1 and 2. */
  lemma ToleranceBreaksCompleteness() returns (e: Value, a: Value, o: Options)
    ensures o.epsilon > 0.0 && SemEq(e, a, Top, o, 0) && Diff(e, a, Top, o, 0) != []
  {
    var gap := (x: Number, y: Number) =>
      if x.PosInt? && y.PosInt? then (if x.u < y.u then y.u - x.u else x.u - y.u) as real else 9.0;
    o := Options(1.0, false, 512, false, map["$" := Unordered], (k: string) => k, gap);
    assert Printed(Top) == "$";
    e, a := Arr([Num(PosInt(1)), Num(PosInt(0))]), Arr([Num(PosInt(1)), Num(PosInt(2))]);
    BrokenZigzagShows(PosInt(1), PosInt(0), PosInt(1), PosInt(2), Top, o, 0);
  }
}
