/** JSON paths: how segments are printed (`$.items[0].id`) and how the masker and the
    fuzz mutator parse them back. */
module Paths {
  import opened Text

  datatype Segment = Root | Key(k: string) | Index(i: nat) | Wildcard

  /** A position in a document: the segments below the root. */
  type Path = seq<Segment>

  // ---------------------------------------------------------------- printing

  function Piece(s: Segment): string {
    match s
    case Root => ""
    case Key(k) => "." + k
    case Index(i) => "[" + Digits(i) + "]"
    case Wildcard => "[*]"
  }

  function Pieces(p: Path): string {
    if |p| == 0 then "" else Piece(p[0]) + Pieces(p[1..])
  }

  function Render(p: Path): string {
    "$" + Pieces(p)
  }

  lemma {:induction false} PiecesAppend(p: Path, s: Segment)
    ensures Pieces(p + [s]) == Pieces(p) + Piece(s)
  {
    if |p| == 0 {
      assert p + [s] == [s];
      PiecesSingle(s);
    } else {
      PiecesAppend(p[1..], s);
      assert p + [s] == [p[0]] + (p[1..] + [s]);
      PiecesCons(p[0], p[1..] + [s]);
      PiecesCons(p[0], p[1..]);
      assert p == [p[0]] + p[1..];
      Associate(Piece(p[0]), Pieces(p[1..]), Piece(s));
    }
  }

  lemma {:induction false} PiecesCons(s: Segment, p: Path)
    ensures Pieces([s] + p) == Piece(s) + Pieces(p)
  {
    assert ([s] + p)[1..] == p;
  }

  lemma PiecesSingle(s: Segment)
    ensures Pieces([s]) == Piece(s)
  {
    assert [s][1..] == [];
    assert Piece(s) + [] == Piece(s);
  }

  lemma Associate<T>(a: seq<T>, b: seq<T>, c: seq<T>)
    ensures a + (b + c) == a + b + c
  {
  }

  /** Appending a segment appends its text: `format!("{path}.{key}")` builds the printed child path. */
  lemma RenderChild(p: Path, s: Segment)
    ensures Render(p + [s]) == Render(p) + Piece(s)
  {
    PiecesAppend(p, s);
  }

  /** A position grown segment by segment, as a recursive walk grows the path it prints. */
  datatype Place = Top | Under(parent: Place, last: Segment)

  function Printed(at: Place): string {
    match at
    case Top => "$"
    case Under(parent, last) => Printed(parent) + Piece(last)
  }

  function Segments(at: Place): (p: Path)
    ensures at.Top? ==> p == []
    ensures at.Under? ==> p == Segments(at.parent) + [at.last]
  {
    match at
    case Top => []
    case Under(parent, last) => Segments(parent) + [last]
  }

  lemma {:induction false} PrintedIsRendered(at: Place)
    ensures Printed(at) == Render(Segments(at))
  {
    if at.Under? {
      PrintedIsRendered(at.parent);
      RenderChild(Segments(at.parent), at.last);
    }
  }

  // ---------------------------------------------------------------- parsing

  function TrimDollars(s: string): string {
    if |s| > 0 && s[0] == '$' then TrimDollars(s[1..]) else s
  }

  /** The number of characters before the first `]`, or all of them. */
  function BracketEnd(cs: string): (n: nat)
    ensures n <= |cs|
    ensures n < |cs| ==> cs[n] == ']'
    ensures forall i :: 0 <= i < n ==> cs[i] != ']'
  {
    if |cs| == 0 || cs[0] == ']' then 0 else 1 + BracketEnd(cs[1..])
  }

  /** What follows the bracket whose inside starts at `cs`. */
  function AfterBracket(cs: string): (rest: string)
    ensures |rest| <= |cs|
  {
    var n := BracketEnd(cs);
    if n < |cs| then cs[n + 1..] else []
  }

  function Flush(key: string): seq<Segment> {
    if key == "" then [] else [Key(key)]
  }

  function Bracket(inner: string, stars: bool): seq<Segment> {
    if stars && inner == "*" then [Wildcard]
    else match ParseUsize(inner)
      case Some(i) => [Index(i)]
      case None => []
  }

  /** The meaning of both parser loops, from the characters still to read and the key
      collected so far; only the masker's (`stars`) knows `[*]`. */
  function ParseChars(cs: string, key: string, stars: bool): seq<Segment>
    decreases |cs|
  {
    if |cs| == 0 then Flush(key)
    else if cs[0] == '.' then Flush(key) + ParseChars(cs[1..], "", stars)
    else if cs[0] == '[' then
      Flush(key) + Bracket(cs[1..][..BracketEnd(cs[1..])], stars) + ParseChars(AfterBracket(cs[1..]), "", stars)
    else ParseChars(cs[1..], key + [cs[0]], stars)
  }

  function ParseMaskPath(path: string): seq<Segment> {
    [Root] + ParseChars(TrimDollars(path), "", true)
  }

  function ParseFuzzPath(path: string): Path {
    ParseChars(TrimDollars(path), "", false)
  }

  lemma {:induction false} StepDot(cs: string, key: string, stars: bool)
    requires |cs| > 0 && cs[0] == '.'
    ensures ParseChars(cs, key, stars) == Flush(key) + ParseChars(cs[1..], "", stars)
  {
  }

  lemma {:induction false} StepBracket(cs: string, num: string, rest: string, key: string, stars: bool)
    requires ']' !in num
    requires cs == ['['] + num + [']'] + rest || (cs == ['['] + num && rest == [])
    ensures ParseChars(cs, key, stars) == Flush(key) + Bracket(num, stars) + ParseChars(rest, "", stars)
  {
    var inside := cs[1..];
    var n := BracketEnd(inside);
    if cs == ['['] + num + [']'] + rest {
      assert inside == num + [']'] + rest;
      assert inside[|num|] == ']';
      assert forall i :: 0 <= i < |num| ==> inside[i] == num[i];
      assert n == |num|;
      assert inside[..n] == num && inside[n + 1..] == rest;
    } else {
      assert inside == num;
      assert n == |num|;
      assert inside[..n] == num;
    }
  }

  lemma {:induction false} StepOther(cs: string, key: string, stars: bool)
    requires |cs| > 0 && cs[0] != '.' && cs[0] != '['
    ensures ParseChars(cs, key, stars) == ParseChars(cs[1..], key + [cs[0]], stars)
  {
  }

  /** The inner loop of the parsers: the characters up to the closing bracket, or to the end. */
  method ReadBracket(clean: string, start: nat) returns (num: string, next: nat)
    requires start <= |clean|
    ensures start <= next <= |clean| && ']' !in num
    ensures clean[start..] == num + [']'] + clean[next..] || (clean[start..] == num && clean[next..] == [])
  {
    num, next := "", start;
    while next < |clean|
      invariant start <= next <= |clean|
      invariant num == clean[start..next] && ']' !in num
    {
      var c := clean[next];
      next := next + 1;
      if c == ']' {
        assert clean[start..] == clean[start..next - 1] + [c] + clean[next..];
        return;
      }
      num := num + [c];
    }
  }

  /** The loop both parsers share, reading the trimmed path one character at a time. */
  method ParseSegments(clean: string, stars: bool, initial: seq<Segment>) returns (segments: seq<Segment>)
    ensures segments == initial + ParseChars(clean, "", stars)
  {
    segments := initial;
    var key, i := "", 0;
    assert clean[0..] == clean;
    ghost var total := initial + ParseChars(clean, "", stars);
    while i < |clean|
      invariant 0 <= i <= |clean|
      invariant segments + ParseChars(clean[i..], key, stars) == total
    {
      var ch := clean[i];
      ghost var here := clean[i..];
      assert here == [ch] + clean[i + 1..];
      i := i + 1;
      if ch == '.' {
        StepDot(here, key, stars);
        Regroup(segments, Flush(key), [], ParseChars(here[1..], "", stars));
        segments := PushKey(segments, key);
        key := "";
      } else if ch == '[' {
        var num, next := ReadBracket(clean, i);
        StepBracket(here, num, clean[next..], key, stars);
        Regroup(segments, Flush(key), Bracket(num, stars), ParseChars(clean[next..], "", stars));
        segments := PushKey(segments, key);
        key := "";
        segments := PushBracket(segments, num, stars);
        i := next;
      } else {
        StepOther(here, key, stars);
        key := key + [ch];
      }
    }
    assert clean[i..] == [];
    segments := PushKey(segments, key);
  }

  lemma Regroup<T>(a: seq<T>, b: seq<T>, c: seq<T>, d: seq<T>)
    ensures a + (b + c + d) == a + b + c + d
    ensures c == [] ==> a + (b + d) == a + b + d
  {
  }

  method PushKey(segments: seq<Segment>, key: string) returns (r: seq<Segment>)
    ensures r == segments + Flush(key)
  {
    r := segments;
    if key != "" {
      r := r + [Key(key)];
    }
  }

  method PushBracket(segments: seq<Segment>, num: string, stars: bool) returns (r: seq<Segment>)
    ensures r == segments + Bracket(num, stars)
  {
    r := segments;
    if stars && num == "*" {
      r := r + [Wildcard];
    } else {
      var n := ParseUsize(num);
      if n.Some? { r := r + [Index(n.value)]; }
    }
  }

  method ParseJsonPathToSegments(path: string) returns (segments: seq<Segment>)
    ensures segments == ParseMaskPath(path)
  {
    segments := ParseSegments(TrimDollars(path), true, [Root]);
  }

  method ParseJsonPath(path: string) returns (segments: Path)
    ensures segments == ParseFuzzPath(path)
  {
    segments := ParseSegments(TrimDollars(path), false, []);
    assert [] + ParseChars(TrimDollars(path), "", false) == ParseChars(TrimDollars(path), "", false);
  }

  // ---------------------------------------------------------------- print, then parse

  /** A key that survives printing: not empty, and free of the two characters the parsers act on. */
  predicate CleanKey(k: string) {
    k != "" && '.' !in k && '[' !in k
  }

  predicate CleanSegment(s: Segment, stars: bool) {
    match s
    case Root => false
    case Key(k) => CleanKey(k)
    case Index(i) => i < USIZE_LIMIT
    case Wildcard => stars
  }

  predicate Clean(p: Path, stars: bool) {
    forall i :: 0 <= i < |p| ==> CleanSegment(p[i], stars)
  }

  lemma {:induction false} CollectKey(k: string, rest: string, acc: string, stars: bool)
    requires '.' !in k && '[' !in k
    ensures ParseChars(k + rest, acc, stars) == ParseChars(rest, acc + k, stars)
    decreases |k|
  {
    if |k| == 0 {
      assert k + rest == rest && acc + k == acc;
    } else {
      assert k[0] in k;
      assert (k + rest)[1..] == k[1..] + rest;
      assert acc + [k[0]] + k[1..] == acc + k;
      CollectKey(k[1..], rest, acc + [k[0]], stars);
    }
  }

  lemma {:induction false} FlushKeyBefore(cs: string, key: string, stars: bool)
    requires key != "" && (cs == [] || cs[0] == '.' || cs[0] == '[')
    ensures ParseChars(cs, key, stars) == [Key(key)] + ParseChars(cs, "", stars)
  {
    if cs != [] && cs[0] == '.' {
      StepDot(cs, key, stars);
      StepDot(cs, "", stars);
    } else if cs != [] {
      var inside := cs[1..];
      var b, t := Bracket(inside[..BracketEnd(inside)], stars), ParseChars(AfterBracket(inside), "", stars);
      assert ParseChars(cs, key, stars) == [Key(key)] + b + t;
      assert ParseChars(cs, "", stars) == [] + b + t;
    }
  }

  lemma {:induction false} PiecesStart(p: Path, stars: bool)
    requires Clean(p, stars)
    ensures Pieces(p) == [] || Pieces(p)[0] == '.' || Pieces(p)[0] == '['
  {
    if |p| != 0 { assert CleanSegment(p[0], stars); }
  }

  lemma {:induction false} ParseKeyPiece(cs: string, k: string, rest: string, stars: bool)
    requires CleanKey(k) && cs == ['.'] + (k + rest)
    requires rest == [] || rest[0] == '.' || rest[0] == '['
    ensures ParseChars(cs, "", stars) == [Key(k)] + ParseChars(rest, "", stars)
  {
    assert cs[0] == '.' && cs[1..] == k + rest;
    StepDot(cs, "", stars);
    CollectKey(k, rest, "", stars);
    assert "" + k == k;
    FlushKeyBefore(rest, k, stars);
  }

  /** What stands between the brackets of a printed index or wildcard. */
  function Inside(s: Segment): string
    requires s.Index? || s.Wildcard?
  {
    if s.Index? then Digits(s.i) else "*"
  }

  lemma InsideParses(s: Segment, stars: bool)
    requires CleanSegment(s, stars) && !s.Key?
    ensures ']' !in Inside(s) && Bracket(Inside(s), stars) == [s]
    ensures Piece(s) == ['['] + Inside(s) + [']']
  {
    var num := Inside(s);
    if s.Index? {
      assert forall j :: 0 <= j < |num| ==> IsDigit(num[j]);
      ParsePrintedIndex(s.i);
      assert IsDigit(num[0]);
    }
  }

  lemma {:induction false} ParsePiece(s: Segment, p: Path, stars: bool)
    requires CleanSegment(s, stars) && Clean(p, stars)
    requires ParseChars(Pieces(p), "", stars) == p
    ensures ParseChars(Piece(s) + Pieces(p), "", stars) == [s] + p
  {
    if s.Key? {
      PiecesStart(p, stars);
      Associate(['.'], s.k, Pieces(p));
      ParseKeyPiece(Piece(s) + Pieces(p), s.k, Pieces(p), stars);
    } else {
      InsideParses(s, stars);
      StepBracket(Piece(s) + Pieces(p), Inside(s), Pieces(p), "", stars);
    }
  }

  lemma {:induction false} ParsePieces(p: Path, stars: bool)
    requires Clean(p, stars)
    ensures ParseChars(Pieces(p), "", stars) == p
  {
    if |p| != 0 {
      var s, rest := p[0], p[1..];
      assert CleanSegment(s, stars) && Clean(rest, stars);
      ParsePieces(rest, stars);
      ParsePiece(s, rest, stars);
      assert p == [s] + rest;
    }
  }

  lemma {:induction false} ParsedIsClean(cs: string, key: string, stars: bool)
    requires '.' !in key && '[' !in key
    ensures Clean(ParseChars(cs, key, stars), stars)
    decreases |cs|
  {
    if |cs| != 0 {
      if cs[0] == '.' {
        ParsedIsClean(cs[1..], "", stars);
      } else if cs[0] == '[' {
        ParsedIsClean(AfterBracket(cs[1..]), "", stars);
      } else {
        ParsedIsClean(cs[1..], key + [cs[0]], stars);
      }
    }
  }

  lemma {:induction false} TrimRendered(p: Path, stars: bool)
    requires Clean(p, stars)
    ensures TrimDollars(Render(p)) == Pieces(p)
  {
    assert Render(p)[1..] == Pieces(p);
    if |p| != 0 { assert CleanSegment(p[0], stars); }
  }

  /** Printing and parsing back is the identity exactly on clean paths: non-empty keys without
      `.` or `[`, indices a `usize` can hold, and `[*]` only for the masker. */
  lemma PrintParse(p: Path)
    ensures ParseMaskPath(Render(p)) == [Root] + p <==> Clean(p, true)
    ensures ParseFuzzPath(Render(p)) == p <==> Clean(p, false)
  {
    ParsedIsClean(TrimDollars(Render(p)), "", true);
    ParsedIsClean(TrimDollars(Render(p)), "", false);
    if Clean(p, true) {
      TrimRendered(p, true);
      ParsePieces(p, true);
    }
    if Clean(p, false) {
      TrimRendered(p, false);
      ParsePieces(p, false);
    }
    var q := ParseChars(TrimDollars(Render(p)), "", true);
    if [Root] + q == [Root] + p {
      assert ([Root] + q)[1..] == q && ([Root] + p)[1..] == p;
    }
  }

  /** On a clean path without wildcards both parsers read the same segments. */
  lemma ParsersAgree(p: Path)
    requires Clean(p, false)
    ensures ParseMaskPath(Render(p)) == [Root] + ParseFuzzPath(Render(p))
  {
    PrintParse(p);
    assert Clean(p, true) by {
      forall i | 0 <= i < |p| ensures CleanSegment(p[i], true) { assert CleanSegment(p[i], false); }
    }
  }

  /** Clean paths can be told apart by their text. */
  lemma RenderInjective(p: Path, q: Path, stars: bool)
    requires Clean(p, stars) && Clean(q, stars)
    requires Render(p) == Render(q)
    ensures p == q
  {
    TrimRendered(p, stars);
    TrimRendered(q, stars);
    ParsePieces(p, stars);
    ParsePieces(q, stars);
  }
}
