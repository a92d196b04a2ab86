/** Documents with every scalar collapsed: what is left is keys, lengths and nesting. */
module Skeletons {
  import opened Json

  function Skeleton(v: Value): Value
    decreases v
  {
    match v
    case Arr(items) => Arr(SkeletonItems(items))
    case Obj(fs) => Obj(SkeletonFields(fs))
    case _ => Null
  }

  function SkeletonItems(items: seq<Value>): seq<Value>
    decreases items
  {
    seq(|items|, i requires 0 <= i < |items| => Skeleton(items[i]))
  }

  function SkeletonFields(fs: seq<Field>): seq<Field>
    decreases fs
  {
    seq(|fs|, i requires 0 <= i < |fs| => Field(fs[i].key, Skeleton(fs[i].value)))
  }

  /** Equal skeletons, up to key order. */
  ghost predicate SameSkeleton(a: Value, b: Value) {
    Canon(Skeleton(a), true) == Canon(Skeleton(b), true)
  }

  lemma SkeletonObjects(fs: seq<Field>, gs: seq<Field>)
    requires Distinct(fs) && Distinct(gs)
    ensures SameSkeleton(Obj(fs), Obj(gs)) <==>
      && Keys(fs) == Keys(gs)
      && forall i, j {:trigger fs[i], gs[j]} :: 0 <= i < |fs| && 0 <= j < |gs| && fs[i].key == gs[j].key ==>
           SameSkeleton(fs[i].value, gs[j].value)
  {
    var sf, sg := SkeletonFields(fs), SkeletonFields(gs);
    assert Keys(sf) == Keys(fs) by { SkeletonKeys(fs); }
    assert Keys(sg) == Keys(gs) by { SkeletonKeys(gs); }
    CanonObjects(sf, sg, true);
    assert (forall i, j {:trigger fs[i], gs[j]} :: 0 <= i < |fs| && 0 <= j < |gs| && fs[i].key == gs[j].key ==>
              SameSkeleton(fs[i].value, gs[j].value)) <==>
           (forall i, j {:trigger sf[i], sg[j]} :: 0 <= i < |sf| && 0 <= j < |sg| && sf[i].key == sg[j].key ==>
              Canon(sf[i].value, true) == Canon(sg[j].value, true)) by {
      forall i | 0 <= i < |fs| ensures sf[i] == Field(fs[i].key, Skeleton(fs[i].value)) {}
      forall j | 0 <= j < |gs| ensures sg[j] == Field(gs[j].key, Skeleton(gs[j].value)) {}
    }
  }

  lemma {:induction false} SkeletonKeys(fs: seq<Field>)
    ensures Keys(SkeletonFields(fs)) == Keys(fs)
  {
    var sf := SkeletonFields(fs);
    forall k ensures k in Keys(sf) <==> k in Keys(fs) {
      if k in Keys(fs) {
        var i :| 0 <= i < |fs| && fs[i].key == k;
        assert sf[i].key == k;
      }
    }
  }

  lemma SkeletonArrays(xs: seq<Value>, ys: seq<Value>)
    ensures SameSkeleton(Arr(xs), Arr(ys)) <==>
      |xs| == |ys| && forall i :: 0 <= i < |xs| ==> SameSkeleton(xs[i], ys[i])
  {
    var sx, sy := SkeletonItems(xs), SkeletonItems(ys);
    CanonArrays(sx, sy, true);
    forall i | 0 <= i < |xs| && |xs| == |ys|
      ensures SameSkeleton(xs[i], ys[i]) <==> Canon(sx[i], true) == Canon(sy[i], true)
    {
    }
  }

  /** Values of different kinds never share a skeleton; two scalars always do. */
  lemma SkeletonKinds(a: Value, b: Value)
    ensures SameSkeleton(a, b) ==> a.Arr? == b.Arr? && a.Obj? == b.Obj?
    ensures !IsContainer(a) && !IsContainer(b) ==> SameSkeleton(a, b)
  {
  }
}
