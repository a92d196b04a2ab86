/** How a Merkle node is turned into bytes before it is hashed, and why different nodes have
    different bytes. */
module MerkleEncoding {
  import opened Json
  import opened Bytes

  type NodeHash = h: seq<byte> | |h| == 32 witness seq(32, _ => 0)

  datatype Entry = Entry(key: string, hash: NodeHash)

  datatype MerkleNode =
    | MNull
    | MBool(b: bool)
    | MNumber(canonical: seq<byte>)
    | MString(s: string)
    | MArray(children: seq<NodeHash>)
    | MObject(entries: seq<Entry>)

  /** The foreign code the store depends on: BLAKE3, and the rounding of a large integer to a double. */
  datatype Platform = Platform(blake3: seq<byte> -> NodeHash, toF64: u64 -> finiteF64)

  // ---------------------------------------------------------------- integers

  function BigEndian(n: nat, len: nat): (r: seq<byte>)
    ensures |r| == len
  {
    if len == 0 then [] else BigEndian(n / 256, len - 1) + [n % 256]
  }

  function FromBigEndian(s: seq<byte>): nat {
    if |s| == 0 then 0 else FromBigEndian(s[..|s| - 1]) * 256 + s[|s| - 1]
  }

  function Pow256(len: nat): nat {
    if len == 0 then 1 else 256 * Pow256(len - 1)
  }

  lemma {:induction false} BigEndianRoundTrip(n: nat, len: nat)
    requires n < Pow256(len)
    ensures FromBigEndian(BigEndian(n, len)) == n
  {
    if len > 0 {
      BigEndianRoundTrip(n / 256, len - 1);
      assert BigEndian(n, len)[..len - 1] == BigEndian(n / 256, len - 1);
    }
  }

  lemma EightBytes()
    ensures Pow256(8) == 0x1_0000_0000_0000_0000
  {
    assert Pow256(2) == 0x1_0000;
    assert Pow256(4) == 0x1_0000_0000;
    assert Pow256(6) == 0x1_0000_0000_0000;
  }

  function LittleEndian(n: nat, len: nat): (r: seq<byte>)
    ensures |r| == len
  {
    if len == 0 then [] else [n % 256] + LittleEndian(n / 256, len - 1)
  }

  /** `(len as u32).to_le_bytes()`: lengths wrap around. */
  function LengthBytes(len: nat): (r: seq<byte>)
    ensures |r| == 4
  {
    LittleEndian(len % U32_LIMIT, 4)
  }

  // ---------------------------------------------------------------- numbers

  /** The number as a 64-bit pattern with a tag: 0 for what `as_i64` accepts, 1 for a double. */
  function Canonicalize(n: Number, env: Platform): seq<byte> {
    match n
    case PosInt(u) => if u <= I64_MAX then [0] + BigEndian(u, 8) else [1] + BigEndian(env.toF64(u), 8)
    case NegInt(i) => [0] + BigEndian(i + 0x1_0000_0000_0000_0000, 8)
    case Float(bits) => [1] + BigEndian(bits, 8)
  }

  function Decanonicalize(bytes: seq<byte>): Number {
    if |bytes| < 9 then PosInt(0)
    else
      var v := FromBigEndian(bytes[1..9]);
      if v >= 0x1_0000_0000_0000_0000 then PosInt(0)
      else if bytes[0] == 0 then
        if v <= I64_MAX then PosInt(v) else NegInt(v - 0x1_0000_0000_0000_0000)
      else if FiniteBits(v) then Float(v) else PosInt(0)
  }

  /** The number that comes back: integers above `i64::MAX` have become doubles. */
  function StoredNumber(n: Number, env: Platform): Number {
    if n.PosInt? && n.u > I64_MAX then Float(env.toF64(n.u)) else n
  }

  lemma NumberRoundTrip(n: Number, env: Platform)
    ensures Decanonicalize(Canonicalize(n, env)) == StoredNumber(n, env)
  {
    EightBytes();
    var bytes := Canonicalize(n, env);
    assert bytes[1..9] == bytes[1..];
    match n
    case PosInt(u) => BigEndianRoundTrip(if u <= I64_MAX then u else env.toF64(u), 8);
    case NegInt(i) => BigEndianRoundTrip(i + 0x1_0000_0000_0000_0000, 8);
    case Float(bits) => BigEndianRoundTrip(bits, 8);
  }

  /** The value of eight bytes after a tag, the most significant first. */
  function LongWord(b: seq<byte>): nat
    requires |b| == 9
  {
    0x1_0000_0000 * BigWord(b[1..5]) + BigWord(b[5..9])
  }

  function BigWord(b: seq<byte>): nat
    requires |b| == 4
  {
    16_777_216 * b[0] as nat + 65_536 * b[1] as nat + 256 * b[2] as nat + b[3] as nat
  }

  lemma {:induction false} FromBigEndianIsBigWord(b: seq<byte>)
    requires |b| == 4
    ensures FromBigEndian(b) == BigWord(b)
  {
    assert b[..3][..2] == b[..2] && b[..2][..1] == b[..1] && b[..1][..0] == [];
    assert FromBigEndian(b[..1]) == b[0] as nat;
    assert FromBigEndian(b[..2]) == 256 * b[0] as nat + b[1] as nat;
  }

  lemma {:induction false} FromBigEndianSplit(x: seq<byte>, y: seq<byte>)
    ensures FromBigEndian(x + y) == FromBigEndian(x) * Pow256(|y|) + FromBigEndian(y)
  {
    if |y| == 0 {
      assert x + y == x;
    } else {
      var n := |y| - 1;
      FromBigEndianSplit(x, y[..n]);
      assert (x + y)[..|x| + n] == x + y[..n];
    }
  }

  /** A number's bytes: a tag that tells integers in the signed 64-bit range from doubles, then the
      two's complement or the bits of the double, most significant byte first. */
  lemma NumberLayout(n: Number, env: Platform)
    ensures var b := Canonicalize(n, env);
      && |b| == 9
      && match n
         case PosInt(u) =>
           if u <= 0x7FFF_FFFF_FFFF_FFFF then b[0] == 0 && LongWord(b) == u
           else b[0] == 1 && LongWord(b) == env.toF64(u)
         case NegInt(i) => b[0] == 0 && LongWord(b) == i + 0x1_0000_0000_0000_0000
         case Float(bits) => b[0] == 1 && LongWord(b) == bits
  {
    EightBytes();
    match n
    case PosInt(u) => EightBytesReadBack(if u <= I64_MAX then u else env.toF64(u), Canonicalize(n, env));
    case NegInt(i) => EightBytesReadBack(i + 0x1_0000_0000_0000_0000, Canonicalize(n, env));
    case Float(bits) => EightBytesReadBack(bits, Canonicalize(n, env));
  }

  lemma {:induction false} EightBytesReadBack(v: nat, b: seq<byte>)
    requires v < Pow256(8) && |b| == 9 && b[1..] == BigEndian(v, 8)
    ensures LongWord(b) == v
  {
    BigEndianRoundTrip(v, 8);
    assert b[1..] == b[1..5] + b[5..9];
    FromBigEndianSplit(b[1..5], b[5..9]);
    FromBigEndianIsBigWord(b[1..5]);
    FromBigEndianIsBigWord(b[5..9]);
    assert Pow256(2) == 0x1_0000;
  }

  // ---------------------------------------------------------------- nodes

  function Blocks(hs: seq<NodeHash>): (r: seq<byte>)
    ensures |r| == 32 * |hs|
  {
    if |hs| == 0 then [] else hs[0] + Blocks(hs[1..])
  }

  /** Each entry is hashed as the hash of its key followed by the hash of its value. */
  function EntryHashes(es: seq<Entry>, env: Platform): (r: seq<NodeHash>)
    ensures |r| == 2 * |es|
  {
    if |es| == 0 then [] else [env.blake3(Utf8(es[0].key)), es[0].hash] + EntryHashes(es[1..], env)
  }

  /** The bytes that are hashed. */
  function Encode(n: MerkleNode, env: Platform): seq<byte> {
    match n
    case MNull => [0]
    case MBool(b) => [1, if b then 1 else 0]
    case MNumber(c) => [2] + c
    case MString(s) => [3] + Utf8(s)
    case MArray(cs) => [4] + LengthBytes(|cs|) + Blocks(cs)
    case MObject(es) => [5] + LengthBytes(|es|) + Blocks(EntryHashes(es, env))
  }

  function HashOf(n: MerkleNode, env: Platform): NodeHash {
    env.blake3(Encode(n, env))
  }

  /** The little-endian value of four bytes. */
  function Word(b: seq<byte>): nat
    requires |b| == 4
  {
    b[0] as nat + 256 * b[1] as nat + 65_536 * b[2] as nat + 16_777_216 * b[3] as nat
  }

  lemma LengthReadsBack(len: nat)
    ensures Word(LengthBytes(len)) == len % 0x1_0000_0000
  {
    var n := len % 0x1_0000_0000;
    assert LittleEndian(n, 4) == [n % 256] + LittleEndian(n / 256, 3);
    assert LittleEndian(n / 256, 3) == [n / 256 % 256] + LittleEndian(n / 65_536, 2);
    assert LittleEndian(n / 65_536, 2) == [n / 65_536 % 256] + LittleEndian(n / 16_777_216, 1);
    assert LittleEndian(n / 16_777_216, 1) == [n / 16_777_216 % 256] + LittleEndian(n / 0x1_0000_0000, 0);
  }

  /** What the bytes of a node begin with: the tag of its kind, then the truth value, the text, or the
      32-bit length and the hashes. */
  lemma NodeLayout(n: MerkleNode, env: Platform)
    ensures var b := Encode(n, env);
      match n
      case MNull => b == [0]
      case MBool(v) => b == [1, if v then 1 else 0]
      case MNumber(c) => b[0] == 2 && b[1..] == c
      case MString(s) => b[0] == 3 && b[1..] == Utf8(s)
      case MArray(cs) =>
        && |b| == 5 + 32 * |cs| && b[0] == 4 && Word(b[1..5]) == |cs| % 0x1_0000_0000
        && forall i {:trigger cs[i]} :: 0 <= i < |cs| ==> b[5 + 32 * i..][..32] == cs[i]
      case MObject(es) =>
        && |b| == 5 + 64 * |es| && b[0] == 5 && Word(b[1..5]) == |es| % 0x1_0000_0000
        && forall i {:trigger es[i]} :: 0 <= i < |es| ==>
            && b[5 + 64 * i..][..32] == env.blake3(Utf8(es[i].key)) && b[37 + 64 * i..][..32] == es[i].hash
  {
    match n
    case MNull =>
    case MBool(_) =>
    case MNumber(_) =>
    case MString(_) =>
    case MArray(cs) => ArrayLayout(cs, env);
    case MObject(es) => ObjectLayout(es, env);
  }

  lemma LengthThenBody(t: byte, len: nat, body: seq<byte>)
    ensures var b := [t] + LengthBytes(len) + body;
      b[0] == t && Word(b[1..5]) == len % 0x1_0000_0000 && b[5..] == body
  {
    var b := [t] + LengthBytes(len) + body;
    LengthReadsBack(len);
    assert b[1..5] == LengthBytes(len);
  }

  lemma ArrayLayout(cs: seq<NodeHash>, env: Platform)
    ensures var b := Encode(MArray(cs), env);
      && |b| == 5 + 32 * |cs| && b[0] == 4 && Word(b[1..5]) == |cs| % 0x1_0000_0000
      && forall i {:trigger cs[i]} :: 0 <= i < |cs| ==> b[5 + 32 * i..][..32] == cs[i]
  {
    var b := Encode(MArray(cs), env);
    LengthThenBody(4, |cs|, Blocks(cs));
    forall i {:trigger cs[i]} | 0 <= i < |cs| ensures b[5 + 32 * i..][..32] == cs[i] {
      BlockAt(cs, i);
      SliceAt(b, Blocks(cs), 32 * i);
    }
  }

  lemma ObjectLayout(es: seq<Entry>, env: Platform)
    ensures var b := Encode(MObject(es), env);
      && |b| == 5 + 64 * |es| && b[0] == 5 && Word(b[1..5]) == |es| % 0x1_0000_0000
      && forall i {:trigger es[i]} :: 0 <= i < |es| ==>
          && b[5 + 64 * i..][..32] == env.blake3(Utf8(es[i].key)) && b[37 + 64 * i..][..32] == es[i].hash
  {
    var b, hs := Encode(MObject(es), env), EntryHashes(es, env);
    LengthThenBody(5, |es|, Blocks(hs));
    forall i {:trigger es[i]} | 0 <= i < |es|
      ensures b[5 + 64 * i..][..32] == env.blake3(Utf8(es[i].key)) && b[37 + 64 * i..][..32] == es[i].hash
    {
      EntryHashAt(es, i, env);
      BlockAt(hs, 2 * i);
      BlockAt(hs, 2 * i + 1);
      SliceAt(b, Blocks(hs), 64 * i);
      SliceAt(b, Blocks(hs), 64 * i + 32);
    }
  }

  /** Reading behind the tag and the length. */
  lemma SliceAt(b: seq<byte>, body: seq<byte>, at: nat)
    requires |b| >= 5 && b[5..] == body && at + 32 <= |body|
    ensures b[5 + at..][..32] == body[at..][..32]
  {
    assert b[5 + at..] == b[5..][at..];
  }

  lemma {:induction false} BlockAt(hs: seq<NodeHash>, i: nat)
    requires i < |hs|
    ensures Blocks(hs)[32 * i..][..32] == hs[i]
  {
    if i > 0 {
      BlockAt(hs[1..], i - 1);
      assert Blocks(hs)[32 * i..] == Blocks(hs[1..])[32 * (i - 1)..];
    }
  }

  lemma {:induction false} EntryHashAt(es: seq<Entry>, i: nat, env: Platform)
    requires i < |es|
    ensures EntryHashes(es, env)[2 * i] == env.blake3(Utf8(es[i].key))
    ensures EntryHashes(es, env)[2 * i + 1] == es[i].hash
  {
    if i > 0 { EntryHashAt(es[1..], i - 1, env); }
  }

  lemma {:induction false} BlocksInjective(xs: seq<NodeHash>, ys: seq<NodeHash>)
    requires Blocks(xs) == Blocks(ys)
    ensures xs == ys
  {
    assert |xs| == |ys|;
    if |xs| != 0 {
      assert xs[0] == Blocks(xs)[..32] && ys[0] == Blocks(ys)[..32];
      assert Blocks(xs[1..]) == Blocks(xs)[32..] && Blocks(ys[1..]) == Blocks(ys)[32..];
      BlocksInjective(xs[1..], ys[1..]);
      assert xs == [xs[0]] + xs[1..] && ys == [ys[0]] + ys[1..];
    }
  }

  ghost predicate KeysApart(ks: set<string>, env: Platform) {
    forall k, l :: k in ks && l in ks && env.blake3(Utf8(k)) == env.blake3(Utf8(l)) ==> Utf8(k) == Utf8(l)
  }

  ghost function NodeKeys(n: MerkleNode): set<string> {
    if n.MObject? then set i | 0 <= i < |n.entries| :: n.entries[i].key else {}
  }

  lemma {:induction false} EntryHashesInjective(xs: seq<Entry>, ys: seq<Entry>, ks: set<string>, env: Platform)
    requires EntryHashes(xs, env) == EntryHashes(ys, env) && KeysApart(ks, env)
    requires forall i :: 0 <= i < |xs| ==> xs[i].key in ks
    requires forall i :: 0 <= i < |ys| ==> ys[i].key in ks
    ensures xs == ys
  {
    assert |EntryHashes(xs, env)| == |EntryHashes(ys, env)|;
    if |xs| != 0 {
      var hx, hy := EntryHashes(xs, env), EntryHashes(ys, env);
      assert hx[0] == hy[0] && hx[1] == hy[1];
      Utf8Injective(xs[0].key, ys[0].key);
      assert EntryHashes(xs[1..], env) == hx[2..] && EntryHashes(ys[1..], env) == hy[2..];
      EntryHashesInjective(xs[1..], ys[1..], ks, env);
      assert xs == [xs[0]] + xs[1..] && ys == [ys[0]] + ys[1..];
    }
  }

  lemma TailsEqual(t: byte, x: seq<byte>, y: seq<byte>)
    requires [t] + x == [t] + y
    ensures x == y
  {
    assert ([t] + x)[1..] == x && ([t] + y)[1..] == y;
  }

  lemma BodiesEqual(t: byte, l: seq<byte>, m: seq<byte>, x: seq<byte>, y: seq<byte>)
    requires |l| == |m| == 4 && [t] + l + x == [t] + m + y
    ensures x == y
  {
    assert ([t] + l + x)[5..] == x && ([t] + m + y)[5..] == y;
  }

  /** Tag, length and fixed-width hashes make the encoding injective, as long as the hashes of the
      keys that occur do not collide. */
  lemma EncodeInjective(n: MerkleNode, m: MerkleNode, env: Platform)
    requires KeysApart(NodeKeys(n) + NodeKeys(m), env) && Encode(n, env) == Encode(m, env)
    ensures n == m
  {
    assert Encode(n, env)[0] == Encode(m, env)[0];
    match n
    case MNull =>
    case MBool(b) => assert Encode(n, env)[1] == Encode(m, env)[1];
    case MNumber(c) => TailsEqual(2, c, m.canonical);
    case MString(s) =>
      TailsEqual(3, Utf8(s), Utf8(m.s));
      Utf8Injective(s, m.s);
    case MArray(cs) =>
      BodiesEqual(4, LengthBytes(|cs|), LengthBytes(|m.children|), Blocks(cs), Blocks(m.children));
      BlocksInjective(cs, m.children);
    case MObject(es) =>
      BodiesEqual(5, LengthBytes(|es|), LengthBytes(|m.entries|),
                  Blocks(EntryHashes(es, env)), Blocks(EntryHashes(m.entries, env)));
      BlocksInjective(EntryHashes(es, env), EntryHashes(m.entries, env));
      EntryHashesInjective(es, m.entries, NodeKeys(n) + NodeKeys(m), env);
  }

  /** Two nodes do not collide: neither their encodings nor the keys inside them. */
  ghost predicate Apart(n: MerkleNode, m: MerkleNode, env: Platform) {
    && (HashOf(n, env) == HashOf(m, env) ==> Encode(n, env) == Encode(m, env))
    && KeysApart(NodeKeys(n) + NodeKeys(m), env)
  }

  ghost predicate NoCollision(nodes: set<MerkleNode>, env: Platform) {
    forall n, m {:trigger Apart(n, m, env)} :: n in nodes && m in nodes ==> Apart(n, m, env)
  }

  lemma HashIdentifies(nodes: set<MerkleNode>, n: MerkleNode, m: MerkleNode, env: Platform)
    requires NoCollision(nodes, env) && n in nodes && m in nodes && HashOf(n, env) == HashOf(m, env)
    ensures n == m
  {
    assert Apart(n, m, env);
    EncodeInjective(n, m, env);
  }
}
