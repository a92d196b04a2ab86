/** The shadow-traffic filter: a cheap structural comparison of two bodies, the session that collects
    the bodies, and how the full differ explains what the filter reports. */
module ShadowFilter {
  import opened Json
  import opened Bytes
  import opened Paths
  import opened Differ
  import opened DifferEquality
  import opened EqualityShortcut
  import opened Skeletons

  /** `structurally_drifted`: key sets and array lengths, nothing else. */
  predicate Drifted(a: Value, b: Value)
    decreases a
  {
    match (a, b)
    case (Obj(fs), Obj(gs)) => Keys(fs) != Keys(gs) || exists i :: 0 <= i < |fs| && FieldDrifted(fs[i], gs)
    case (Obj(_), _) => true
    case (_, Obj(_)) => true
    case (Arr(xs), Arr(ys)) => |xs| != |ys| || exists i :: 0 <= i < |xs| && Drifted(xs[i], ys[i])
    case (Arr(_), _) => true
    case (_, Arr(_)) => true
    case _ => false
  }

  predicate FieldDrifted(f: Field, gs: seq<Field>)
    decreases f
  {
    var j := Find(gs, f.key);
    j.Some? ==> Drifted(f.value, gs[j.value].value)
  }

  // ---------------------------------------------------------------- drift compares skeletons

  /** Two bodies have drifted apart exactly when their skeletons differ. */
  lemma {:induction false} DriftIsSkeleton(a: Value, b: Value)
    requires WellFormed(a) && WellFormed(b)
    ensures Drifted(a, b) <==> !SameSkeleton(a, b)
    decreases a
  {
    SkeletonKinds(a, b);
    if a.Obj? && b.Obj? {
      SkeletonObjects(a.fields, b.fields);
      if Keys(a.fields) == Keys(b.fields) { FieldsDriftIsSkeleton(a, b); }
    } else if a.Arr? && b.Arr? {
      SkeletonArrays(a.items, b.items);
      if |a.items| == |b.items| {
        forall i | 0 <= i < |a.items|
          ensures Drifted(a.items[i], b.items[i]) <==> !SameSkeleton(a.items[i], b.items[i])
        {
          DriftIsSkeleton(a.items[i], b.items[i]);
        }
      }
    }
  }

  lemma {:induction false} FieldsDriftIsSkeleton(a: Value, b: Value)
    requires a.Obj? && b.Obj? && WellFormed(a) && WellFormed(b) && Keys(a.fields) == Keys(b.fields)
    ensures (exists i :: 0 <= i < |a.fields| && FieldDrifted(a.fields[i], b.fields)) <==>
      exists i, j {:trigger a.fields[i], b.fields[j]} :: 0 <= i < |a.fields| && 0 <= j < |b.fields| &&
        a.fields[i].key == b.fields[j].key && !SameSkeleton(a.fields[i].value, b.fields[j].value)
    decreases a, 0
  {
    var fs, gs := a.fields, b.fields;
    forall i, j {:trigger fs[i], gs[j]} | 0 <= i < |fs| && 0 <= j < |gs| && fs[i].key == gs[j].key
      ensures FieldDrifted(fs[i], gs) <==> !SameSkeleton(fs[i].value, gs[j].value)
    {
      DriftIsSkeleton(fs[i].value, gs[j].value);
      var n := Find(gs, fs[i].key);
      assert n == Some(j);
    }
    forall i | 0 <= i < |fs| ensures exists j :: 0 <= j < |gs| && fs[i].key == gs[j].key {
      assert fs[i].key in Keys(gs);
    }
  }

  /** So "has not drifted" is an equivalence, although it is computed by an asymmetric walk. */
  lemma {:induction false} NoDriftIsEquivalence(a: Value, b: Value, c: Value)
    requires WellFormed(a) && WellFormed(b) && WellFormed(c)
    ensures !Drifted(a, a)
    ensures Drifted(a, b) <==> Drifted(b, a)
    ensures !Drifted(a, b) && !Drifted(b, c) ==> !Drifted(a, c)
  {
    DriftIsSkeleton(a, a);
    DriftIsSkeleton(a, b);
    DriftIsSkeleton(b, a);
    DriftIsSkeleton(b, c);
    DriftIsSkeleton(a, c);
  }

  // ---------------------------------------------------------------- drift is explained by the differ

  lemma CollectedKeys(fs: seq<Field>, gs: seq<Field>, ks: iset<string>, o: Options)
    requires ToldApart(ks, o) && Distinct(fs) && Distinct(gs) && Collect(fs, o).Keys <= Collect(gs, o).Keys
    requires (forall i :: 0 <= i < |fs| ==> fs[i].key in ks) && forall i :: 0 <= i < |gs| ==> gs[i].key in ks
    ensures Keys(fs) <= Keys(gs)
  {
    FieldsToldApart(fs, ks, o);
    WinnersOfApart(fs, o);
    WinnerKeys(gs, o);
    forall i | 0 <= i < |fs| ensures fs[i].key in Keys(gs) {
      var k := KeyOf(o, fs[i].key);
      assert k in Collect(fs, o) && k in Collect(gs, o);
      var j := Winners(gs, o)[k];
      assert gs[j].key == fs[i].key;
    }
  }

  /** Semantically equal documents have one skeleton, when all arrays are ordered and no two keys collide. */
  lemma {:induction false} EqualHasNoDrift(e: Value, a: Value, p: Place, o: Options, d: nat, ks: iset<string>)
    requires WellFormed(e) && WellFormed(a) && KeysIn(e, ks) && KeysIn(a, ks) && ToldApart(ks, o)
    requires o.arrayModes == map[] && SemEq(e, a, p, o, d)
    ensures SameSkeleton(e, a)
    decreases e, 1
  {
    if e.Obj? {
      EqualFieldsNoDrift(e, a, p, o, d, ks);
    } else if e.Arr? {
      SkeletonArrays(e.items, a.items);
      forall i | 0 <= i < |e.items| ensures SameSkeleton(e.items[i], a.items[i]) {
        EqualHasNoDrift(e.items[i], a.items[i], Under(p, Index(i)), o, d + 1, ks);
      }
    } else {
      SkeletonKinds(e, a);
    }
  }

  lemma {:induction false} EqualFieldsNoDrift(e: Value, a: Value, p: Place, o: Options, d: nat, ks: iset<string>)
    requires e.Obj? && a.Obj? && WellFormed(e) && WellFormed(a) && KeysIn(e, ks) && KeysIn(a, ks) && ToldApart(ks, o)
    requires o.arrayModes == map[] && FieldsEq(e, a, p, o, d)
    ensures SameSkeleton(e, a)
    decreases e, 0, 1
  {
    var fs, gs := e.fields, a.fields;
    CollectedKeys(fs, gs, ks, o);
    CollectedKeys(gs, fs, ks, o);
    forall i, j {:trigger fs[i], gs[j]} | 0 <= i < |fs| && 0 <= j < |gs| && fs[i].key == gs[j].key
      ensures SameSkeleton(fs[i].value, gs[j].value)
    {
      EqualFieldNoDrift(e, a, i, j, p, o, d, ks);
    }
    SkeletonObjects(fs, gs);
  }

  lemma {:induction false} EqualValues(e: Value, a: Value, i: nat, j: nat, p: Place, o: Options, d: nat,
          ks: iset<string>)
    requires e.Obj? && a.Obj? && WellFormed(e) && WellFormed(a) && KeysIn(e, ks) && KeysIn(a, ks) && ToldApart(ks, o)
    requires i < |e.fields| && j < |a.fields| && e.fields[i].key == a.fields[j].key && FieldsEq(e, a, p, o, d)
    ensures SemEq(e.fields[i].value, a.fields[j].value, Under(p, Key(KeyOf(o, e.fields[i].key))), o, d + 1)
  {
    FieldsToldApart(e.fields, ks, o);
    FieldsToldApart(a.fields, ks, o);
    CollectedAt(e.fields, i, o);
    CollectedAt(a.fields, j, o);
  }

  lemma {:induction false} EqualFieldNoDrift(e: Value, a: Value, i: nat, j: nat, p: Place, o: Options, d: nat,
          ks: iset<string>)
    requires e.Obj? && a.Obj? && WellFormed(e) && WellFormed(a) && KeysIn(e, ks) && KeysIn(a, ks) && ToldApart(ks, o)
    requires i < |e.fields| && j < |a.fields| && e.fields[i].key == a.fields[j].key
    requires o.arrayModes == map[] && FieldsEq(e, a, p, o, d)
    ensures SameSkeleton(e.fields[i].value, a.fields[j].value)
    decreases e, 0, 0
  {
    var fs, gs := e.fields, a.fields;
    EqualValues(e, a, i, j, p, o, d, ks);
    EqualHasNoDrift(fs[i].value, gs[j].value, Under(p, Key(KeyOf(o, fs[i].key))), o, d + 1, ks);
  }

  lemma CollectedAt(fs: seq<Field>, i: nat, o: Options)
    requires i < |fs| && KeysApart(fs, o)
    ensures KeyOf(o, fs[i].key) in Collect(fs, o) && Collect(fs, o)[KeyOf(o, fs[i].key)] == fs[i].value
  {
    WinnersOfApart(fs, o);
  }

  lemma {:induction false} SerdeEqualSkeleton(a: Value, b: Value)
    requires WellFormed(a) && WellFormed(b) && Canon(a, false) == Canon(b, false)
    ensures SameSkeleton(a, b)
    decreases a
  {
    SkeletonKinds(a, b);
    if a.Obj? {
      var fs, gs := a.fields, b.fields;
      CanonObjects(fs, gs, false);
      SkeletonObjects(fs, gs);
      forall i, j {:trigger fs[i], gs[j]} | 0 <= i < |fs| && 0 <= j < |gs| && fs[i].key == gs[j].key
        ensures SameSkeleton(fs[i].value, gs[j].value)
      {
        SerdeEqualSkeleton(fs[i].value, gs[j].value);
      }
    } else if a.Arr? {
      CanonArrays(a.items, b.items, false);
      SkeletonArrays(a.items, b.items);
      forall i | 0 <= i < |a.items| ensures SameSkeleton(a.items[i], b.items[i]) {
        SerdeEqualSkeleton(a.items[i], b.items[i]);
      }
    }
  }

  /** Whatever the filter reports, the differ under its default options explains with a record, as long
      as normalisation tells the documents' keys apart. */
  lemma {:induction false} DriftIsReported(a: Value, b: Value, nfc: string -> string, gap: (Number, Number) -> real,
          ks: iset<string>)
    requires WellFormed(a) && WellFormed(b) && Drifted(a, b)
    requires KeysIn(a, ks) && KeysIn(b, ks) && ToldApart(ks, DefaultOptions(nfc, gap))
    ensures CompareJson(a, b, DefaultOptions(nfc, gap)) != []
  {
    var o := DefaultOptions(nfc, gap);
    DriftIsSkeleton(a, b);
    if SerdeEq(a, b) {
      SerdeEqIsCanonical(a, b);
      SerdeEqualSkeleton(a, b);
    } else if Diff(a, b, Top, o, 0) == [] {
      EmptyDiffMeansEqual(a, b, Top, o, 0);
      EqualHasNoDrift(a, b, Top, o, 0, ks);
    }
  }

  /** Keys that are already normal are told apart. */
  lemma NormalKeysToldApart(nfc: string -> string, gap: (Number, Number) -> real)
    ensures ToldApart((iset k | nfc(k) == k), DefaultOptions(nfc, gap))
  {
  }

  /** Documents whose keys are all in normal form never drift unreported. */
  lemma {:induction false} NormalDriftIsReported(a: Value, b: Value, nfc: string -> string,
          gap: (Number, Number) -> real)
    requires WellFormed(a) && WellFormed(b) && Drifted(a, b)
    requires KeysIn(a, iset k | nfc(k) == k) && KeysIn(b, iset k | nfc(k) == k)
    ensures CompareJson(a, b, DefaultOptions(nfc, gap)) != []
  {
    NormalKeysToldApart(nfc, gap);
    DriftIsReported(a, b, nfc, gap, iset k | nfc(k) == k);
  }

  ghost predicate ReportsDrift(a: Value, b: Value, nfc: string -> string, gap: (Number, Number) -> real) {
    WellFormed(a) && WellFormed(b) && Drifted(a, b) ==> CompareJson(a, b, DefaultOptions(nfc, gap)) != []
  }

  /** The only key of two one-entry objects is renamed: the skeletons differ. */
  lemma RenamedKeyDrifts(k: string, l: string)
    requires k != l
    ensures Drifted(Obj([Field(k, Null)]), Obj([Field(l, Null)]))
  {
    var fs, gs := [Field(k, Null)], [Field(l, Null)];
    assert fs[0].key in Keys(fs) && k !in Keys(gs);
  }

  lemma CollectedSingle(k: string, o: Options)
    ensures Collect([Field(k, Null)], o) == map[KeyOf(o, k) := Null]
  {
    assert [Field(k, Null)][..0] == [];
  }

  /** Two different keys with one normal form: the filter sees drift, and the differ finds nothing. */
  lemma CollidingKeysUnreported(k: string, l: string, nfc: string -> string,
          gap: (Number, Number) -> real)
    requires k != l && nfc(k) == nfc(l)
    ensures !ReportsDrift(Obj([Field(k, Null)]), Obj([Field(l, Null)]), nfc, gap)
  {
    var o := DefaultOptions(nfc, gap);
    var a, b := Obj([Field(k, Null)]), Obj([Field(l, Null)]);
    RenamedKeyDrifts(k, l);
    CollectedSingle(k, o);
    CollectedSingle(l, o);
    DiffFieldsEmpty(a, b, Top, o, 0);
    assert Diff(Null, Null, Under(Top, Key(nfc(k))), o, 1) == [];
    assert FieldsEmpty(a, b, Top, o, 0);
    assert Diff(a, b, Top, o, 0) == DiffFields(a, b, Top, o, 0) == [];
    assert WellFormed(a) && WellFormed(b);
  }

  /** For documents over any set of keys, the differ explains every drift exactly when normalisation
      tells those keys apart. */
  lemma {:induction false} DriftAlwaysReported(nfc: string -> string, gap: (Number, Number) -> real, ks: iset<string>)
    ensures (forall a, b :: KeysIn(a, ks) && KeysIn(b, ks) ==> ReportsDrift(a, b, nfc, gap)) <==>
            ToldApart(ks, DefaultOptions(nfc, gap))
  {
    if ToldApart(ks, DefaultOptions(nfc, gap)) {
      forall a, b | KeysIn(a, ks) && KeysIn(b, ks) ensures ReportsDrift(a, b, nfc, gap) {
        if WellFormed(a) && WellFormed(b) && Drifted(a, b) { DriftIsReported(a, b, nfc, gap, ks); }
      }
    } else {
      var k, l :| k in ks && l in ks && nfc(k) == nfc(l) && k != l;
      CollidingKeysUnreported(k, l, nfc, gap);
      assert KeysIn(Obj([Field(k, Null)]), ks) && KeysIn(Obj([Field(l, Null)]), ks);
    }
  }

  // ---------------------------------------------------------------- the session

  datatype Chunk = Chunk(role: string, bytes: seq<byte>, endOfStream: bool)

  /** The bytes one side has sent, whatever came in between. */
  function Body(chunks: seq<Chunk>, candidate: bool): seq<byte> {
    if |chunks| == 0 then []
    else
      var last := chunks[|chunks| - 1];
      Body(chunks[..|chunks| - 1], candidate) + if (last.role == "candidate") == candidate then last.bytes else []
  }

  lemma {:induction false} BodyGrows(chunks: seq<Chunk>, c: Chunk, candidate: bool)
    ensures Body(chunks + [c], candidate)
         == Body(chunks, candidate) + if (c.role == "candidate") == candidate then c.bytes else []
  {
    assert (chunks + [c])[..|chunks|] == chunks;
  }

  ghost predicate SomeEnds(chunks: seq<Chunk>) {
    exists i :: 0 <= i < |chunks| && chunks[i].endOfStream
  }

  lemma SomeEndsGrows(chunks: seq<Chunk>, c: Chunk)
    ensures SomeEnds(chunks + [c]) <==> SomeEnds(chunks) || c.endOfStream
  {
    if SomeEnds(chunks) {
      var i :| 0 <= i < |chunks| && chunks[i].endOfStream;
      assert (chunks + [c])[i].endOfStream;
    }
    assert (chunks + [c])[|chunks|] == c;
  }

  datatype Verdict = Drift(drifted: bool) | BaselineUnreadable | CandidateUnreadable

  function Judge(baseline: seq<byte>, candidate: seq<byte>, parse: seq<byte> -> Option<Value>): Verdict {
    if baseline == [] || candidate == [] then Drift(false)
    else match (parse(baseline), parse(candidate))
      case (None, _) => BaselineUnreadable
      case (_, None) => CandidateUnreadable
      case (Some(a), Some(b)) => Drift(Drifted(a, b))
  }

  class ShadowSession {
    var baselineBody: seq<byte>
    var candidateBody: seq<byte>
    var streamingComplete: bool
    ghost var chunks: seq<Chunk>

    ghost predicate Valid()
      reads this
    {
      && baselineBody == Body(chunks, false) && candidateBody == Body(chunks, true)
      && (streamingComplete <==> SomeEnds(chunks))
    }

    constructor ()
      ensures Valid() && chunks == []
    {
      baselineBody, candidateBody, streamingComplete, chunks := [], [], false, [];
    }

    method OnBodyChunk(role: string, bytes: seq<byte>, endOfStream: bool)
      requires Valid()
      modifies this
      ensures Valid() && chunks == old(chunks) + [Chunk(role, bytes, endOfStream)]
      ensures candidateBody == old(candidateBody) + if role == "candidate" then bytes else []
      ensures baselineBody == old(baselineBody) + if role == "candidate" then [] else bytes
      ensures streamingComplete <==> old(streamingComplete) || endOfStream
    {
      ghost var chunk := Chunk(role, bytes, endOfStream);
      BodyGrows(chunks, chunk, true);
      BodyGrows(chunks, chunk, false);
      SomeEndsGrows(chunks, chunk);
      if role == "candidate" {
        candidateBody := candidateBody + bytes;
      } else {
        baselineBody := baselineBody + bytes;
      }
      if endOfStream {
        streamingComplete := true;
      }
      chunks := chunks + [chunk];
    }

    /** The verdict depends only on what each side sent, not on how it was cut up or interleaved. */
    method CheckStructuralDrift(parse: seq<byte> -> Option<Value>) returns (v: Verdict)
      requires Valid()
      ensures v == Judge(Body(chunks, false), Body(chunks, true), parse)
      ensures Body(chunks, false) == [] || Body(chunks, true) == [] ==> v == Drift(false)
      ensures Body(chunks, false) != [] && Body(chunks, true) != [] ==>
        match (parse(Body(chunks, false)), parse(Body(chunks, true)))
        case (None, _) => v == BaselineUnreadable
        case (_, None) => v == CandidateUnreadable
        case (Some(a), Some(b)) => WellFormed(a) && WellFormed(b) ==> v == Drift(!SameSkeleton(a, b))
    {
      if baselineBody == [] || candidateBody == [] {
        return Drift(false);
      }
      var baseline := parse(baselineBody);
      if baseline.None? {
        return BaselineUnreadable;
      }
      var candidate := parse(candidateBody);
      if candidate.None? {
        return CandidateUnreadable;
      }
      ghost var a, b := baseline.value, candidate.value;
      if WellFormed(a) && WellFormed(b) { DriftIsSkeleton(a, b); }
      v := Drift(Drifted(baseline.value, candidate.value));
    }
  }
}
