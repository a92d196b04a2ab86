/** Following a path of keys and indices into a document. */
module Navigation {
  import opened Json
  import opened Text
  import opened Paths

  function Child(v: Value, s: Segment): Option<Value> {
    match (v, s)
    case (Obj(fs), Key(k)) => (match Find(fs, k) case Some(i) => Some(fs[i].value) case None => None)
    case (Arr(items), Index(i)) => if i < |items| then Some(items[i]) else None
    case _ => None
  }

  function Get(v: Value, p: Path): Option<Value>
    decreases |p|
  {
    if |p| == 0 then Some(v)
    else match Child(v, p[0])
      case Some(c) => Get(c, p[1..])
      case None => None
  }

  lemma {:induction false} FindDistinct(fs: seq<Field>, i: nat)
    requires i < |fs| && Distinct(fs)
    ensures Find(fs, fs[i].key) == Some(i)
  {
    var j := Find(fs, fs[i].key);
  }

  lemma {:induction false} GetConcat(v: Value, p: Path, q: Path)
    ensures Get(v, p + q) == if Get(v, p).Some? then Get(Get(v, p).value, q) else None
    decreases |p|
  {
    if |p| == 0 {
      assert p + q == q;
    } else {
      assert (p + q)[0] == p[0] && (p + q)[1..] == p[1..] + q;
      match Child(v, p[0])
      case Some(c) => GetConcat(c, p[1..], q);
      case None =>
    }
  }

  lemma {:induction false} GetStep(v: Value, s: Segment, p: Path)
    ensures Get(v, [s] + p) == if Child(v, s).Some? then Get(Child(v, s).value, p) else None
  {
    assert ([s] + p)[1..] == p;
  }

  lemma {:induction false} GetUnder(root: Value, at: Place, v: Value, s: Segment)
    requires Get(root, Segments(at)) == Some(v)
    ensures Get(root, Segments(Under(at, s))) == Child(v, s)
  {
    GetConcat(root, Segments(at), [s]);
    GetStep(v, s, []);
    assert [s] + [] == [s];
  }

  /** Keys that survive printing as a path, and arrays no longer than a `usize` can count. */
  ghost predicate CleanDocument(v: Value) {
    match v
    case Arr(items) => |items| <= USIZE_LIMIT && forall i :: 0 <= i < |items| ==> CleanDocument(items[i])
    case Obj(fs) => forall i :: 0 <= i < |fs| ==> CleanKey(fs[i].key) && CleanDocument(fs[i].value)
    case _ => true
  }

  /** Every path into a clean document can be printed and read back. */
  lemma {:induction false} GetIsClean(v: Value, p: Path)
    requires CleanDocument(v) && Get(v, p).Some?
    ensures Clean(p, false) && Clean(p, true)
    decreases |p|
  {
    if |p| != 0 {
      GetIsClean(Child(v, p[0]).value, p[1..]);
      assert CleanSegment(p[0], false) && CleanSegment(p[0], true);
      forall i | 0 <= i < |p| ensures CleanSegment(p[i], false) && CleanSegment(p[i], true) {
        if i > 0 { assert p[i] == p[1..][i - 1]; }
      }
    }
  }
}
