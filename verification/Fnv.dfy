/** The 64-bit FNV-1a hash of a path segment. */
module Fnv {
  import opened Bytes

  type Hash64 = bv64

  const FNV_OFFSET: Hash64 := 0xcbf29ce484222325

  /** `wrapping_mul` by the FNV prime. */
  function TimesPrime(x: Hash64): Hash64 {
    x * 0x100000001b3
  }

  function Mix(h: Hash64, x: Hash64): Hash64 {
    TimesPrime(h ^ x)
  }

  function FnvStep(h: Hash64, b: byte): Hash64 {
    Mix(h, b as bv64)
  }

  function FnvFrom(h: Hash64, bytes: seq<byte>): Hash64
    decreases |bytes|
  {
    if |bytes| == 0 then h else FnvFrom(FnvStep(h, bytes[0]), bytes[1..])
  }

  function Fnv1a(s: string): Hash64 {
    FnvFrom(FNV_OFFSET, Utf8(s))
  }

  method Fnv1aHash(s: string) returns (hash: Hash64)
    ensures hash == Fnv1a(s)
  {
    var bytes := Utf8(s);
    hash := FNV_OFFSET;
    for i := 0 to |bytes|
      invariant FnvFrom(hash, bytes[i..]) == Fnv1a(s)
    {
      hash := FnvStep(hash, bytes[i]);
    }
  }

  // ---------------------------------------------------------------- published values

  /** The steps behind the hashes of "a" and "id". */
  lemma FnvSteps()
    ensures FnvStep(0xcbf29ce484222325, 0x61) == 0xaf63dc4c8601ec8c
    ensures FnvStep(0xcbf29ce484222325, 0x69) == 0xaf63e44c8601fa24
    ensures FnvStep(0xaf63e44c8601fa24, 0x64) == 0x8b72e07b55c3ac0
  {
    assert 0xcbf29ce484222325 ^ 0x61 == 0xcbf29ce484222344 as bv64;
    assert 0xcbf29ce484222325 ^ 0x69 == 0xcbf29ce48422234c as bv64;
    assert 0xaf63e44c8601fa24 ^ 0x64 == 0xaf63e44c8601fa40 as bv64;
  }

  /** Published values of the 64-bit FNV-1a hash. */
  lemma FnvValues()
    ensures Fnv1a("") == 0xcbf29ce484222325
    ensures Fnv1a("a") == 0xaf63dc4c8601ec8c
    ensures Fnv1a("id") == 0x8b72e07b55c3ac0
  {
    FnvSteps();
    assert [0x69 as byte, 0x64][1..] == [0x64];
    assert "a"[1..] == "" && "id"[1..] == "d" && "d"[1..] == "";
    assert Utf8("a") == [0x61] && Utf8("d") == [0x64] && Utf8("id") == [0x69, 0x64];
    assert [0x61 as byte][1..] == [];
  }

  // ---------------------------------------------------------------- a step is injective

  lemma SameProduct(h: Hash64, d: Hash64, u: Hash64, v: Hash64)
    requires u == (h + d) * 0x100000001b3 && u == h * 0x100000001b3 && v == d * 0x100000001b3
    ensures v == 0
  {
  }

  /** The prime is odd, so it annihilates nothing but zero. */
  lemma OddProduct(d: Hash64)
    requires d * 0x100000001b3 == 0
    ensures d == 0
  {
  }

  lemma OddFactor(d: Hash64)
    requires TimesPrime(d) == 0
    ensures d == 0
  {
    OddProduct(d);
  }

  lemma NothingAdded(h: Hash64, d: Hash64, u: Hash64)
    requires u == TimesPrime(h + d) && u == TimesPrime(h)
    ensures d == 0
  {
    SameProduct(h, d, u, TimesPrime(d));
    OddFactor(d);
  }

  ghost predicate Cancels(h: Hash64, d: Hash64) {
    TimesPrime(h + d) == TimesPrime(h) ==> d == 0
  }

  lemma AlwaysCancels(h: Hash64, d: Hash64)
    ensures Cancels(h, d)
  {
    if TimesPrime(h + d) == TimesPrime(h) { NothingAdded(h, d, TimesPrime(h)); }
  }

  lemma CancelsDifference(x: Hash64, y: Hash64)
    requires Cancels(y, x - y) && TimesPrime(x) == TimesPrime(y)
    ensures x - y == 0
  {
  }

  lemma ZeroDifference(x: Hash64, y: Hash64)
    requires x - y == 0
    ensures x == y
  {
  }

  lemma TimesPrimeInjective(x: Hash64, y: Hash64)
    requires TimesPrime(x) == TimesPrime(y)
    ensures x == y
  {
    AlwaysCancels(y, x - y);
    CancelsDifference(x, y);
    ZeroDifference(x, y);
  }

  lemma MixApart(h: Hash64, g: Hash64, x: Hash64, y: Hash64)
    requires Mix(h, x) == Mix(g, y)
    ensures h ^ x == g ^ y
  {
    TimesPrimeInjective(h ^ x, g ^ y);
  }

  lemma MixKeepsHash(h: Hash64, g: Hash64, x: Hash64)
    requires Mix(h, x) == Mix(g, x)
    ensures h == g
  {
    MixApart(h, g, x, x);
  }

  lemma MixKeepsByte(h: Hash64, x: Hash64, y: Hash64)
    requires Mix(h, x) == Mix(h, y)
    ensures x == y
  {
    MixApart(h, h, x, y);
  }

  lemma ByteFits(b: byte)
    ensures (b as bv8) as nat == b
    ensures b as bv64 == (b as bv8) as bv64
  {
  }

  lemma WidenInjective(x: bv8, y: bv8)
    requires x as bv64 == y as bv64
    ensures x == y
  {
  }

  lemma ByteInjective(b: byte, c: byte)
    requires b as bv64 == c as bv64
    ensures b == c
  {
    ByteFits(b);
    ByteFits(c);
    WidenInjective(b as bv8, c as bv8);
  }

  /** One step forgets neither the hash so far nor the byte. */
  lemma StepInjective(h: Hash64, g: Hash64, b: byte, c: byte)
    ensures FnvStep(h, b) == FnvStep(g, b) ==> h == g
    ensures FnvStep(h, b) == FnvStep(h, c) ==> b == c
  {
    if FnvStep(h, b) == FnvStep(g, b) { MixKeepsHash(h, g, b as bv64); }
    if FnvStep(h, b) == FnvStep(h, c) {
      MixKeepsByte(h, b as bv64, c as bv64);
      ByteInjective(b, c);
    }
  }
}
