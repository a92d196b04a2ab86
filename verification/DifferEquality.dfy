/** When a comparison finds nothing: an independent definition of semantic equality, and the
    conditions under which the differ's empty answer coincides with it. */
module DifferEquality {
  import opened Json
  import opened Text
  import opened Paths
  import opened Differ

  ghost predicate Permutation(pi: seq<nat>, n: nat) {
    && |pi| == n
    && (forall i :: 0 <= i < n ==> pi[i] < n)
    && (forall i, j :: 0 <= i < j < n ==> pi[i] != pi[j])
  }

  /** Semantic equality under the options: objects agree key by key, ordered arrays item by item,
      unordered arrays up to a bijection; nothing lies deeper than the depth limit. */
  ghost predicate SemEq(e: Value, a: Value, p: Place, o: Options, d: nat)
    decreases e, 1
  {
    d <= o.maxDepth && TypeNameOf(e) == TypeNameOf(a) &&
    match e
    case Null => true
    case Bool(b) => b == a.b
    case Num(n) => NumberMatch(n, a.n, o)
    case Str(s) => s == a.s
    case Arr(es) => if ModeAt(o, p) == Ordered then ItemsEq(e, a, p, o, d) else BagEq(e, a, p, o, d)
    case Obj(_) => FieldsEq(e, a, p, o, d)
  }

  ghost predicate ItemsEq(e: Value, a: Value, p: Place, o: Options, d: nat)
    requires e.Arr? && a.Arr?
    decreases e, 0
  {
    |e.items| == |a.items| &&
    forall i {:trigger e.items[i]} :: 0 <= i < |e.items| ==> SemEq(e.items[i], a.items[i], Under(p, Index(i)), o, d + 1)
  }

  ghost predicate BagEq(e: Value, a: Value, p: Place, o: Options, d: nat)
    requires e.Arr? && a.Arr?
    decreases e, 0
  {
    |e.items| == |a.items| &&
    exists pi :: Permutation(pi, |e.items|) &&
      forall i {:trigger pi[i]} :: 0 <= i < |e.items| ==> SemEq(e.items[i], a.items[pi[i]], p, o, d + 1)
  }

  ghost predicate FieldsEq(e: Value, a: Value, p: Place, o: Options, d: nat)
    requires e.Obj? && a.Obj?
    decreases e, 0
  {
    var em, am := Collect(e.fields, o), Collect(a.fields, o);
    em.Keys == am.Keys && forall k :: k in em ==> SemEq(em[k], am[k], Under(p, Key(k)), o, d + 1)
  }

  /** No node of the document, seen through key normalisation, lies below the depth limit. */
  ghost predicate Fits(v: Value, o: Options, d: nat)
    decreases v, 1
  {
    d <= o.maxDepth &&
    match v
    case Arr(items) => forall i :: 0 <= i < |items| ==> Fits(items[i], o, d + 1)
    case Obj(_) => FieldsFit(v, o, d)
    case _ => true
  }

  ghost predicate FieldsFit(v: Value, o: Options, d: nat)
    requires v.Obj?
    decreases v, 0
  {
    var m := Collect(v.fields, o);
    forall k :: k in m ==> Fits(m[k], o, d + 1)
  }

  // ---------------------------------------------------------------- emptiness, one level at a time

  ghost predicate CommonEmpty(e: Value, a: Value, ks: seq<string>, p: Place, o: Options, d: nat)
    requires e.Obj? && a.Obj?
    requires forall k :: k in ks ==> k in Collect(e.fields, o) && k in Collect(a.fields, o)
  {
    forall k :: k in ks ==> Diff(Collect(e.fields, o)[k], Collect(a.fields, o)[k], Under(p, Key(k)), o, d + 1) == []
  }

  lemma {:induction false} DiffCommonEmpty(e: Value, a: Value, ks: seq<string>, p: Place, o: Options, d: nat)
    requires e.Obj? && a.Obj?
    requires forall k :: k in ks ==> k in Collect(e.fields, o) && k in Collect(a.fields, o)
    ensures DiffCommon(e, a, ks, p, o, d) == [] <==> CommonEmpty(e, a, ks, p, o, d)
  {
    if |ks| != 0 {
      DiffCommonEmpty(e, a, ks[1..], p, o, d);
      DiffCommonStep([], e, a, ks, p, o, d);
      assert forall k :: k in ks <==> k == ks[0] || k in ks[1..];
    }
  }

  lemma {:induction false} KeyRecordsEmpty(em: map<string, Value>, am: map<string, Value>, p: Place)
    ensures
      RemovedKeys(em, SortedKeys(em.Keys - am.Keys), p) == [] && AddedKeys(am, SortedKeys(am.Keys - em.Keys), p) == []
      <==> em.Keys == am.Keys
  {
    SortedKeysSorted(em.Keys - am.Keys);
    SortedKeysSorted(am.Keys - em.Keys);
    assert em.Keys == am.Keys <==> |em.Keys - am.Keys| == 0 && |am.Keys - em.Keys| == 0;
  }

  /** Two objects hold the same normalised keys, and no value differs. */
  ghost predicate FieldsEmpty(e: Value, a: Value, p: Place, o: Options, d: nat)
    requires e.Obj? && a.Obj?
  {
    var em, am := Collect(e.fields, o), Collect(a.fields, o);
    em.Keys == am.Keys && forall k :: k in em ==> Diff(em[k], am[k], Under(p, Key(k)), o, d + 1) == []
  }

  lemma ConcatEmpty<T>(a: seq<T>, b: seq<T>, c: seq<T>)
    ensures a + b + c == [] <==> a == [] && b == [] && c == []
  {
    assert |a + b + c| == |a| + |b| + |c|;
  }

  lemma {:induction false} FieldPartsEmpty(e: Value, a: Value, p: Place, o: Options, d: nat)
    requires e.Obj? && a.Obj?
    ensures
      var em, am := Collect(e.fields, o), Collect(a.fields, o);
      DiffFields(e, a, p, o, d) == [] <==>
        (em.Keys == am.Keys && CommonEmpty(e, a, SortedKeys(em.Keys * am.Keys), p, o, d))
  {
    var em, am := Collect(e.fields, o), Collect(a.fields, o);
    ConcatEmpty(RemovedKeys(em, SortedKeys(em.Keys - am.Keys), p), AddedKeys(am, SortedKeys(am.Keys - em.Keys), p),
                DiffCommon(e, a, SortedKeys(em.Keys * am.Keys), p, o, d));
    KeyRecordsEmpty(em, am, p);
    DiffCommonEmpty(e, a, SortedKeys(em.Keys * am.Keys), p, o, d);
  }

  lemma SameKeysCommonEmpty(e: Value, a: Value, p: Place, o: Options, d: nat)
    requires e.Obj? && a.Obj? && Collect(e.fields, o).Keys == Collect(a.fields, o).Keys
    ensures
      var em, am := Collect(e.fields, o), Collect(a.fields, o);
      CommonEmpty(e, a, SortedKeys(em.Keys * am.Keys), p, o, d) <==> FieldsEmpty(e, a, p, o, d)
  {
    var em, am := Collect(e.fields, o), Collect(a.fields, o);
    assert em.Keys * am.Keys == em.Keys;
  }

  lemma {:induction false} DiffFieldsEmpty(e: Value, a: Value, p: Place, o: Options, d: nat)
    requires e.Obj? && a.Obj?
    ensures DiffFields(e, a, p, o, d) == [] <==> FieldsEmpty(e, a, p, o, d)
  {
    FieldPartsEmpty(e, a, p, o, d);
    if Collect(e.fields, o).Keys == Collect(a.fields, o).Keys {
      SameKeysCommonEmpty(e, a, p, o, d);
    }
  }

  ghost predicate PairEmpty(es: seq<Value>, xs: seq<Value>, i: nat, p: Place, o: Options, d: nat)
    requires i < |es| && i < |xs|
  {
    Diff(es[i], xs[i], Under(p, Index(i)), o, d + 1) == []
  }

  lemma DiffItemsUnfold(es: seq<Value>, xs: seq<Value>, i: nat, p: Place, o: Options, d: nat)
    requires i < |es| && i < |xs|
    ensures DiffItems(es, xs, i, p, o, d) == [] <==>
      PairEmpty(es, xs, i, p, o, d) && DiffItems(es, xs, i + 1, p, o, d) == []
  {
  }

  lemma {:induction false} DiffItemsEmpty(es: seq<Value>, xs: seq<Value>, i: nat, p: Place, o: Options, d: nat)
    requires i <= |es| == |xs|
    ensures DiffItems(es, xs, i, p, o, d) == [] <==>
      forall j :: i <= j < |es| ==> PairEmpty(es, xs, j, p, o, d)
    decreases |es| - i
  {
    if i < |es| {
      DiffItemsUnfold(es, xs, i, p, o, d);
      DiffItemsEmpty(es, xs, i + 1, p, o, d);
    }
  }

  /** Two arrays have the same length, and no pair of items differs. */
  ghost predicate ItemsEmpty(es: seq<Value>, xs: seq<Value>, p: Place, o: Options, d: nat) {
    |es| == |xs| && forall i :: 0 <= i < |es| ==> PairEmpty(es, xs, i, p, o, d)
  }

  lemma {:induction false} DiffArrayEmpty(e: Value, a: Value, p: Place, o: Options, d: nat)
    requires e.Arr? && a.Arr? && d <= o.maxDepth && ModeAt(o, p) == Ordered
    ensures Diff(e, a, p, o, d) == [] <==> ItemsEmpty(e.items, a.items, p, o, d)
  {
    var es, xs := e.items, a.items;
    if |es| == |xs| {
      DiffItemsEmpty(es, xs, 0, p, o, d);
      assert AddedItems(xs, |es|, p) == [];
    }
  }

  lemma {:induction false} FirstFreeIsFirst(e: Value, xs: seq<Value>, taken: seq<bool>, j: nat, p: Place, o: Options,
          d: nat)
    requires |taken| == |xs|
    ensures
      match FirstFree(e, xs, taken, j, p, o, d)
      case Some(r) => j <= r < |xs| && !taken[r] && Diff(e, xs[r], p, o, d + 1) == []
      case None => forall i :: j <= i < |xs| && !taken[i] ==> Diff(e, xs[i], p, o, d + 1) != []
    decreases |xs| - j
  {
    if j < |xs| && (taken[j] || Diff(e, xs[j], p, o, d + 1) != []) {
      FirstFreeIsFirst(e, xs, taken, j + 1, p, o, d);
    }
  }

  /** The greedy matching as a relation: `pi` sends expected items to the free actual items,
      one to one and onto, and no pair differs. */
  ghost predicate Matches(pi: seq<nat>, es: seq<Value>, xs: seq<Value>, taken: seq<bool>, p: Place, o: Options, d: nat)
    requires |taken| == |xs|
  {
    && |pi| == |es|
    && (forall i {:trigger pi[i]} :: 0 <= i < |pi| ==>
          pi[i] < |xs| && !taken[pi[i]] && Diff(es[i], xs[pi[i]], p, o, d + 1) == [])
    && (forall i, j :: 0 <= i < j < |pi| ==> pi[i] != pi[j])
    && (forall j {:trigger taken[j]} :: 0 <= j < |xs| && !taken[j] ==> j in pi)
  }

  lemma {:induction false} AddedFreeEmpty(xs: seq<Value>, taken: seq<bool>, j: nat, p: Place)
    requires |taken| == |xs|
    ensures AddedFree(xs, taken, j, p) == [] <==> forall i :: j <= i < |xs| ==> taken[i]
    decreases |xs| - j
  {
    if j < |xs| {
      AddedFreeEmpty(xs, taken, j + 1, p);
    }
  }

  lemma EmptyUnorderedMatches(es: seq<Value>, xs: seq<Value>, taken: seq<bool>, p: Place,
          o: Options, d: nat)
    returns (pi: seq<nat>)
    requires |taken| == |xs| && DiffUnordered(es, xs, taken, p, o, d) == []
    ensures Matches(pi, es, xs, taken, p, o, d)
    decreases |es|
  {
    if |es| == 0 {
      pi := [];
      AddedFreeEmpty(xs, taken, 0, p);
    } else {
      FirstFreeIsFirst(es[0], xs, taken, 0, p, o, d);
      var j := FirstFree(es[0], xs, taken, 0, p, o, d).value;
      var rest := EmptyUnorderedMatches(es[1..], xs, taken[j := true], p, o, d);
      pi := [j] + rest;
      ExtendMatching(j, rest, es, xs, taken, p, o, d);
    }
  }

  lemma {:induction false} ExtendMatching(j: nat, rest: seq<nat>, es: seq<Value>, xs: seq<Value>, taken: seq<bool>,
          p: Place, o: Options, d: nat)
    requires |taken| == |xs| && |es| > 0 && j < |xs| && !taken[j] && Diff(es[0], xs[j], p, o, d + 1) == []
    requires Matches(rest, es[1..], xs, taken[j := true], p, o, d)
    ensures Matches([j] + rest, es, xs, taken, p, o, d)
  {
    var pi, taken' := [j] + rest, taken[j := true];
    forall i | 0 <= i < |pi|
      ensures pi[i] < |xs| && !taken[pi[i]] && Diff(es[i], xs[pi[i]], p, o, d + 1) == [] && (i > 0 ==> pi[i] != j)
    {
      if i > 0 {
        var x := rest[i - 1];
        assert pi[i] == x && es[i] == es[1..][i - 1];
        assert !taken'[x];
      }
    }
    forall i | 0 <= i < |xs| && !taken[i] ensures i in pi {
      assert i == j || !taken'[i];
    }
  }

  lemma SurjectiveCount(pi: seq<nat>, n: nat)
    requires forall i, j :: 0 <= i < j < |pi| ==> pi[i] != pi[j]
    requires forall i :: 0 <= i < |pi| ==> pi[i] < n
    requires forall j :: 0 <= j < n ==> j in pi
    ensures |pi| == n
  {
    SeqSetSize(pi);
    assert Elements(pi) == Below(n);
  }

  ghost function Below(n: nat): (s: set<nat>)
    ensures |s| == n
    ensures forall i: nat :: i in s <==> i < n
  {
    if n == 0 then {} else Below(n - 1) + {n - 1}
  }

  ghost function Elements(pi: seq<nat>): set<nat> {
    set x | x in pi
  }

  lemma SeqSetSize(pi: seq<nat>)
    requires forall i, j :: 0 <= i < j < |pi| ==> pi[i] != pi[j]
    ensures |Elements(pi)| == |pi|
  {
    if |pi| != 0 {
      var rest := pi[1..];
      assert forall i :: 0 <= i < |rest| ==> rest[i] == pi[i + 1];
      SeqSetSize(rest);
      assert Elements(pi) == Elements(rest) + {pi[0]};
    }
  }

  lemma MatchingIsPermutation(pi: seq<nat>, es: seq<Value>, xs: seq<Value>, p: Place, o: Options,
          d: nat)
    requires Matches(pi, es, xs, seq(|xs|, _ => false), p, o, d)
    ensures |es| == |xs| && Permutation(pi, |es|)
  {
    var taken := seq(|xs|, _ => false);
    forall j | 0 <= j < |xs| ensures j in pi { assert !taken[j]; }
    SurjectiveCount(pi, |xs|);
  }

  lemma PermutationOnto(pi: seq<nat>, n: nat)
    requires Permutation(pi, n)
    ensures forall j :: 0 <= j < n ==> j in pi
  {
    SeqSetSize(pi);
    assert Elements(pi) <= Below(n);
    SubsetOfSameSize(Elements(pi), Below(n));
    forall j | 0 <= j < n ensures j in pi { assert j in Below(n); assert j in Elements(pi); }
  }

  // ---------------------------------------------------------------- an empty diff means equality

  /** Whatever the tolerance and the array modes, an empty diff means semantic equality; in
      particular the greedy matching of an unordered array exhibits a bijection. */
  lemma {:induction false} EmptyDiffMeansEqual(e: Value, a: Value, p: Place, o: Options, d: nat)
    requires Diff(e, a, p, o, d) == []
    ensures SemEq(e, a, p, o, d)
    decreases e, 1
  {
    if e.Obj? {
      EmptyFieldsMeanEqual(e, a, p, o, d);
    } else if e.Arr? && ModeAt(o, p) == Ordered {
      DiffArrayEmpty(e, a, p, o, d);
      EmptyItemsMeanEqual(e, a, p, o, d);
    } else if e.Arr? {
      EmptyBagMeansEqual(e, a, p, o, d);
    }
  }

  lemma {:induction false} EmptyFieldsMeanEqual(e: Value, a: Value, p: Place, o: Options, d: nat)
    requires e.Obj? && a.Obj? && DiffFields(e, a, p, o, d) == []
    ensures FieldsEq(e, a, p, o, d)
    decreases e, 0
  {
    DiffFieldsEmpty(e, a, p, o, d);
    var em, am := Collect(e.fields, o), Collect(a.fields, o);
    forall k | k in em ensures SemEq(em[k], am[k], Under(p, Key(k)), o, d + 1) {
      EmptyDiffMeansEqual(em[k], am[k], Under(p, Key(k)), o, d + 1);
    }
  }

  lemma {:induction false} EmptyItemsMeanEqual(e: Value, a: Value, p: Place, o: Options, d: nat)
    requires e.Arr? && a.Arr? && ItemsEmpty(e.items, a.items, p, o, d)
    ensures ItemsEq(e, a, p, o, d)
    decreases e, 0
  {
    var es, xs := e.items, a.items;
    forall i | 0 <= i < |es| ensures SemEq(es[i], xs[i], Under(p, Index(i)), o, d + 1) {
      assert PairEmpty(es, xs, i, p, o, d);
      EmptyDiffMeansEqual(es[i], xs[i], Under(p, Index(i)), o, d + 1);
    }
  }

  lemma {:induction false} EmptyBagMeansEqual(e: Value, a: Value, p: Place, o: Options, d: nat)
    requires e.Arr? && a.Arr?
    requires DiffUnordered(e.items, a.items, seq(|a.items|, _ => false), p, o, d) == []
    ensures BagEq(e, a, p, o, d)
    decreases e, 0
  {
    var es, xs := e.items, a.items;
    var pi := EmptyUnorderedMatches(es, xs, seq(|xs|, _ => false), p, o, d);
    MatchingIsPermutation(pi, es, xs, p, o, d);
    forall i | 0 <= i < |es| ensures SemEq(es[i], xs[pi[i]], p, o, d + 1) {
      EmptyDiffMeansEqual(es[i], xs[pi[i]], p, o, d + 1);
    }
  }

  lemma {:induction false} SemEqFits(e: Value, a: Value, p: Place, o: Options, d: nat)
    requires SemEq(e, a, p, o, d)
    ensures Fits(e, o, d)
    decreases e, 1
  {
    if e.Obj? {
      FieldsEqFit(e, a, p, o, d);
    } else if e.Arr? {
      ArraysEqFit(e, a, p, o, d);
    }
  }

  lemma {:induction false} FieldsEqFit(e: Value, a: Value, p: Place, o: Options, d: nat)
    requires e.Obj? && a.Obj? && FieldsEq(e, a, p, o, d)
    ensures FieldsFit(e, o, d)
    decreases e, 0
  {
    var em, am := Collect(e.fields, o), Collect(a.fields, o);
    forall k | k in em ensures Fits(em[k], o, d + 1) {
      SemEqFits(em[k], am[k], Under(p, Key(k)), o, d + 1);
    }
  }

  lemma {:induction false} ArraysEqFit(e: Value, a: Value, p: Place, o: Options, d: nat)
    requires e.Arr? && a.Arr?
    requires ItemsEq(e, a, p, o, d) || BagEq(e, a, p, o, d)
    ensures forall i :: 0 <= i < |e.items| ==> Fits(e.items[i], o, d + 1)
    decreases e, 0
  {
    if ItemsEq(e, a, p, o, d) {
      forall i | 0 <= i < |e.items| ensures Fits(e.items[i], o, d + 1) {
        SemEqFits(e.items[i], a.items[i], Under(p, Index(i)), o, d + 1);
      }
    } else {
      var pi :| Permutation(pi, |e.items|) &&
        forall i {:trigger pi[i]} :: 0 <= i < |e.items| ==> SemEq(e.items[i], a.items[pi[i]], p, o, d + 1);
      forall i | 0 <= i < |e.items| ensures Fits(e.items[i], o, d + 1) {
        SemEqFits(e.items[i], a.items[pi[i]], p, o, d + 1);
      }
    }
  }
}
