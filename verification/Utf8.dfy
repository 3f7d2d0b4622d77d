/** UTF-8 (RFC 3629, section 3), UTF-16, and the comparison the verifier sorts with.

  A Rust `String` is a sequence of Unicode scalar values, which is what `seq<char>` is here. A
  JavaScript string is a sequence of 16-bit code units that may hold lone surrogates. */
module Utf8 {
  import opened Bytes
  import opened Sorting

  // ----- encoding -----

  function EncodeChar(c: char): (b: Bytes)
    ensures 1 <= |b| <= 4
  {
    var n := c as nat;
    if n < 0x80 then [n]
    else if n < 0x800 then [0xC0 + n / 64, 0x80 + n % 64]
    else if n < 0x10000 then [0xE0 + n / 64 / 64, 0x80 + n / 64 % 64, 0x80 + n % 64]
    else [0xF0 + n / 64 / 64 / 64, 0x80 + n / 64 / 64 % 64, 0x80 + n / 64 % 64, 0x80 + n % 64]
  }

  function Encode(s: string): Bytes {
    if s == "" then [] else EncodeChar(s[0]) + Encode(s[1..])
  }

  // ----- strict decoding: no overlong form, no surrogate, nothing above 0x10FFFF -----

  predicate Continuation(x: byte) {
    0x80 <= x < 0xC0
  }

  predicate IsScalar(n: int) {
    0 <= n < 0xD800 || 0xE000 <= n < 0x110000
  }

  datatype Decoded = Decoded(c: char, width: nat)

  function DecodeChar(b: Bytes): (d: Option<Decoded>)
    requires b != []
    ensures d.Some? ==> 1 <= d.value.width <= |b|
  {
    var x: int := b[0];
    if x < 0x80 then
      Some(Decoded(x as char, 1))
    else if 0xC2 <= x < 0xE0 && |b| >= 2 && Continuation(b[1]) then
      var n := (x - 0xC0) * 64 + Payload(b[1]);
      Some(Decoded(n as char, 2))
    else if 0xE0 <= x < 0xF0 && |b| >= 3 && Continuation(b[1]) && Continuation(b[2]) then
      var n := ((x - 0xE0) * 64 + Payload(b[1])) * 64 + Payload(b[2]);
      if n >= 0x800 && IsScalar(n) then Some(Decoded(n as char, 3)) else None
    else if 0xF0 <= x < 0xF5 && |b| >= 4 && Continuation(b[1]) && Continuation(b[2]) && Continuation(b[3]) then
      var n := (((x - 0xF0) * 64 + Payload(b[1])) * 64 + Payload(b[2])) * 64 + Payload(b[3]);
      if n >= 0x10000 && IsScalar(n) then Some(Decoded(n as char, 4)) else None
    else
      None
  }

  function Payload(x: byte): (r: int)
    requires Continuation(x)
    ensures 0 <= r < 64
  {
    x as int - 0x80
  }

  lemma DecodedCharEncodes(b: Bytes)
    requires b != [] && DecodeChar(b).Some?
    ensures b[..DecodeChar(b).value.width] == EncodeChar(DecodeChar(b).value.c)
  {
    var d := DecodeChar(b).value;
    hide EncodeChar;
    if d.width == 1 {
      EncodeOne(b[0], d.c);
      assert b[..1] == [b[0]];
    } else if d.width == 2 {
      EncodeTwo(b[0], b[1], d.c);
      assert b[..2] == [b[0], b[1]];
    } else if d.width == 3 {
      EncodeThree(b[0], b[1], b[2], d.c);
      assert b[..3] == [b[0], b[1], b[2]];
    } else {
      EncodeFour(b[0], b[1], b[2], b[3], d.c);
      assert b[..4] == [b[0], b[1], b[2], b[3]];
    }
  }

  lemma EncodeOne(x: byte, c: char)
    requires x < 0x80 && c as nat == x as int
    ensures EncodeChar(c) == [x]
  {
  }

  lemma EncodeTwo(x: byte, y: byte, c: char)
    requires 0xC2 <= x < 0xE0 && Continuation(y) && c as nat == (x as int - 0xC0) * 64 + Payload(y)
    ensures EncodeChar(c) == [x, y]
  {
    Shift(x as int - 0xC0, Payload(y));
  }

  lemma EncodeThree(x: byte, y: byte, z: byte, c: char)
    requires 0xE0 <= x < 0xF0 && Continuation(y) && Continuation(z)
    requires c as nat == ((x as int - 0xE0) * 64 + Payload(y)) * 64 + Payload(z) && c as nat >= 0x800
    ensures EncodeChar(c) == [x, y, z]
  {
    var q := (x as int - 0xE0) * 64 + Payload(y);
    Shift(q, Payload(z));
    Shift(x as int - 0xE0, Payload(y));
  }

  lemma EncodeFour(w: byte, x: byte, y: byte, z: byte, c: char)
    requires 0xF0 <= w < 0xF5 && Continuation(x) && Continuation(y) && Continuation(z)
    requires c as nat == (((w as int - 0xF0) * 64 + Payload(x)) * 64 + Payload(y)) * 64 + Payload(z) && c as nat >= 0x10000
    ensures EncodeChar(c) == [w, x, y, z]
  {
    var p := (w as int - 0xF0) * 64 + Payload(x);
    var q := p * 64 + Payload(y);
    Shift(q, Payload(z));
    Shift(p, Payload(y));
    Shift(w as int - 0xF0, Payload(x));
  }

  lemma Shift(q: nat, r: nat)
    requires r < 64
    ensures (q * 64 + r) / 64 == q && (q * 64 + r) % 64 == r
  {
  }

  function Decode(b: Bytes): Option<string> {
    if b == [] then Some("")
    else
      match DecodeChar(b)
      case None => None
      case Some(d) =>
        match Decode(b[d.width..])
        case None => None
        case Some(rest) => Some([d.c] + rest)
  }

  lemma DecodeCharEncoded(c: char, rest: Bytes)
    ensures DecodeChar(EncodeChar(c) + rest) == Some(Decoded(c, |EncodeChar(c)|))
  {
    var n, e := c as nat, EncodeChar(c);
    var b := e + rest;
    assert forall k :: 0 <= k < |e| ==> b[k] == e[k];
    if n < 0x80 {
    } else if n < 0x800 {
    } else if n < 0x10000 {
      var q := n / 64;
      assert q / 64 < 16 && q == q / 64 * 64 + q % 64 && n == q * 64 + n % 64;
    } else {
      var q := n / 64;
      var p := q / 64;
      assert p / 64 < 5 && p == p / 64 * 64 + p % 64 && q == p * 64 + q % 64 && n == q * 64 + n % 64;
    }
  }

  lemma EncodeCons(c: char, s: string)
    ensures Encode([c] + s) == EncodeChar(c) + Encode(s)
  {
    assert ([c] + s)[1..] == s;
  }

  /** Strict decoding and encoding are inverse to each other, in both directions. */
  lemma {:induction false} DecodeEncode(s: string)
    ensures Decode(Encode(s)) == Some(s)
  {
    hide DecodeChar, EncodeChar;
    if s != "" {
      DecodeCharEncoded(s[0], Encode(s[1..]));
      DecodeEncode(s[1..]);
      assert Encode(s)[|EncodeChar(s[0])|..] == Encode(s[1..]);
      assert s == [s[0]] + s[1..];
    }
  }

  lemma {:induction false} EncodeDecode(b: Bytes)
    requires Decode(b).Some?
    ensures Encode(Decode(b).value) == b
  {
    hide DecodeChar, EncodeChar;
    if b != [] {
      var d := DecodeChar(b).value;
      EncodeDecode(b[d.width..]);
      EncodeCons(d.c, Decode(b[d.width..]).value);
      DecodedCharEncodes(b);
      assert b == b[..d.width] + b[d.width..];
    }
  }

  lemma EncodeInjective(a: string, b: string)
    requires Encode(a) == Encode(b)
    ensures a == b
  {
    DecodeEncode(a);
    DecodeEncode(b);
  }

  // ----- order preservation -----

  /** Byte order of the encodings: what Rust's `Ord for str` and `compareUtf8` use. */
  predicate ByUtf8(a: string, b: string) {
    LexLe(Encode(a), Encode(b))
  }

  function CodePoints(s: string): seq<int> {
    seq(|s|, i requires 0 <= i < |s| => s[i] as int)
  }

  lemma ByUtf8Total()
    ensures TotalOrder(ByUtf8)
  {
    forall a, b | Encode(a) == Encode(b) ensures a == b {
      EncodeInjective(a, b);
    }
    KeyOrderTotal(ByUtf8, (s: string) => Encode(s));
  }

  lemma CharOrder(c: char, d: char, x: Bytes, y: Bytes)
    requires c < d
    ensures LexLe(EncodeChar(c) + x, EncodeChar(d) + y)
    ensures !LexLe(EncodeChar(d) + y, EncodeChar(c) + x)
  {
    var a, b := EncodeChar(c), EncodeChar(d);
    var k := FirstDifference(c, d);
    LexAt(a + x, b + y, k);
  }

  /** An encoding in terms of the base 64 digits of the scalar. */
  predicate HasForm(n: nat, d: (int, int, int, int), b: Bytes) {
    && d.0 >= 0 && 0 <= d.1 < 64 && 0 <= d.2 < 64 && 0 <= d.3 < 64
    && n == ((d.0 * 64 + d.1) * 64 + d.2) * 64 + d.3
    && b == if n < 0x80 then [n]
            else if n < 0x800 then [0xC0 + 64 * d.1 + d.2, 0x80 + d.3]
            else if n < 0x10000 then [0xE0 + 64 * d.0 + d.1, 0x80 + d.2, 0x80 + d.3]
            else [0xF0 + d.0, 0x80 + d.1, 0x80 + d.2, 0x80 + d.3]
  }

  lemma EncodeForm(c: char) returns (d: (int, int, int, int))
    ensures HasForm(c as nat, d, EncodeChar(c))
  {
    var n := c as nat;
    d := (n / 64 / 64 / 64, n / 64 / 64 % 64, n / 64 % 64, n % 64);
  }

  /** The encodings of two different scalars first differ at an index inside both, in the
    scalars' order; so neither is a prefix of the other. */
  lemma FirstDifference(c: char, d: char) returns (k: nat)
    requires c < d
    ensures k < |EncodeChar(c)| && k < |EncodeChar(d)|
    ensures EncodeChar(c)[..k] == EncodeChar(d)[..k] && EncodeChar(c)[k] < EncodeChar(d)[k]
  {
    var x := EncodeForm(c);
    var y := EncodeForm(d);
    k := FormOrder(c as nat, d as nat, x, y, EncodeChar(c), EncodeChar(d));
  }

  lemma FormOrder(m: nat, n: nat, x: (int, int, int, int), y: (int, int, int, int), a: Bytes, b: Bytes) returns (k: nat)
    requires m < n < 0x110000 && HasForm(m, x, a) && HasForm(n, y, b)
    ensures k < |a| && k < |b| && a[..k] == b[..k] && a[k] < b[k]
  {
    if |a| != |b| || |a| == 1 {
      k := 0;
    } else if x.0 != y.0 || x.1 != y.1 {
      assert x.0 < y.0 || (x.0 == y.0 && x.1 < y.1);
      k := if |a| == 4 && x.0 == y.0 then 1 else 0;
    } else if x.2 != y.2 {
      assert x.2 < y.2;
      k := |a| - 2;
    } else {
      assert x.3 < y.3;
      k := |a| - 1;
    }
  }

  lemma {:induction false} LexAt(a: seq<int>, b: seq<int>, k: nat)
    requires k < |a| && k < |b| && a[..k] == b[..k] && a[k] < b[k]
    ensures LexLe(a, b) && !LexLe(b, a)
  {
    if k > 0 {
      assert a[0] == a[..k][0] == b[..k][0] == b[0];
      assert a[1..][..k - 1] == a[..k][1..] && b[1..][..k - 1] == b[..k][1..];
      LexAt(a[1..], b[1..], k - 1);
    }
  }

  lemma {:induction false} LexPrefix(p: seq<int>, a: seq<int>, b: seq<int>)
    ensures LexLe(p + a, p + b) == LexLe(a, b)
  {
    if p == [] {
      assert p + a == a && p + b == b;
    } else {
      LexPrefix(p[1..], a, b);
      assert (p + a)[1..] == p[1..] + a && (p + b)[1..] == p[1..] + b;
    }
  }

  /** RFC 3629, section 1: byte order of UTF-8 is code point order. */
  lemma {:induction false} Utf8PreservesOrder(a: string, b: string)
    ensures ByUtf8(a, b) <==> LexLe(CodePoints(a), CodePoints(b))
  {
    if a != "" && b != "" {
      var p, q := CodePoints(a), CodePoints(b);
      assert p[1..] == CodePoints(a[1..]) && q[1..] == CodePoints(b[1..]);
      if a[0] == b[0] {
        Utf8PreservesOrder(a[1..], b[1..]);
        LexPrefix(EncodeChar(a[0]), Encode(a[1..]), Encode(b[1..]));
      } else if a[0] < b[0] {
        CharOrder(a[0], b[0], Encode(a[1..]), Encode(b[1..]));
      } else {
        CharOrder(b[0], a[0], Encode(b[1..]), Encode(a[1..]));
      }
    }
  }

  // ----- JavaScript strings -----

  type unit = x: int | 0 <= x < 0x10000

  predicate HighSurrogate(x: unit) { 0xD800 <= x < 0xDC00 }

  predicate LowSurrogate(x: unit) { 0xDC00 <= x < 0xE000 }

  /** What `TextEncoder` reads: surrogate pairs combine, a lone surrogate becomes U+FFFD. */
  function Scalars(u: seq<unit>): string {
    if u == [] then ""
    else if HighSurrogate(u[0]) && |u| >= 2 && LowSurrogate(u[1]) then
      [((u[0] as int - 0xD800) * 0x400 + (u[1] as int - 0xDC00) + 0x10000) as char] + Scalars(u[2..])
    else if HighSurrogate(u[0]) || LowSurrogate(u[0]) then ['\U{FFFD}'] + Scalars(u[1..])
    else [u[0] as char] + Scalars(u[1..])
  }

  function Utf16(s: string): seq<unit> {
    if s == "" then []
    else
      var n := s[0] as int;
      if n < 0x10000 then [n] + Utf16(s[1..])
      else [0xD800 + (n - 0x10000) / 0x400, 0xDC00 + (n - 0x10000) % 0x400] + Utf16(s[1..])
  }

  /** A string with no lone surrogate. */
  predicate WellFormed(u: seq<unit>) {
    if u == [] then true
    else if HighSurrogate(u[0]) then |u| >= 2 && LowSurrogate(u[1]) && WellFormed(u[2..])
    else !LowSurrogate(u[0]) && WellFormed(u[1..])
  }

  lemma {:induction false} ScalarsOfUtf16(s: string)
    ensures Scalars(Utf16(s)) == s && WellFormed(Utf16(s))
  {
    if s != "" {
      ScalarsOfUtf16(s[1..]);
      var n, u := s[0] as int, Utf16(s);
      if n < 0x10000 {
        assert u[1..] == Utf16(s[1..]);
      } else {
        assert u[2..] == Utf16(s[1..]);
      }
      assert s == [s[0]] + s[1..];
    }
  }

  lemma {:induction false} Utf16OfScalars(u: seq<unit>)
    requires WellFormed(u)
    ensures Utf16(Scalars(u)) == u
  {
    if u != [] {
      var s := Scalars(u);
      if HighSurrogate(u[0]) {
        Utf16OfScalars(u[2..]);
        assert s[1..] == Scalars(u[2..]);
        assert u == [u[0], u[1]] + u[2..];
      } else {
        Utf16OfScalars(u[1..]);
        assert s[1..] == Scalars(u[1..]);
        assert u == [u[0]] + u[1..];
      }
    }
  }

  lemma {:induction false} LexFirstDifference(a: seq<int>, b: seq<int>, k: nat)
    requires k <= |a| && k <= |b| && a[..k] == b[..k]
    requires k == |a| || k == |b| || a[k] != b[k]
    ensures LexLe(a, b) <==> k == |a| || (k < |b| && a[k] < b[k])
  {
    if k > 0 {
      assert a[0] == a[..k][0] == b[..k][0] == b[0];
      assert a[1..][..k - 1] == a[..k][1..] && b[1..][..k - 1] == b[..k][1..];
      LexFirstDifference(a[1..], b[1..], k - 1);
    }
  }

  /** `compareUtf8`: encode both, compare byte by byte, then by length. The sign of the result is
    the code point order of the two strings as `TextEncoder` reads them. */
  method CompareUtf8(a: seq<unit>, b: seq<unit>) returns (diff: int)
    ensures diff <= 0 <==> LexLe(CodePoints(Scalars(a)), CodePoints(Scalars(b)))
    ensures diff >= 0 <==> LexLe(CodePoints(Scalars(b)), CodePoints(Scalars(a)))
    ensures diff == 0 <==> Scalars(a) == Scalars(b)
  {
    hide Encode, Scalars, CodePoints, LexLe;
    var ea, eb := Encode(Scalars(a)), Encode(Scalars(b));
    Utf8PreservesOrder(Scalars(a), Scalars(b));
    Utf8PreservesOrder(Scalars(b), Scalars(a));
    var len := if |ea| < |eb| then |ea| else |eb|;
    for i := 0 to len
      invariant ea[..i] == eb[..i]
    {
      var d := ea[i] as int - eb[i] as int;
      if d != 0 {
        LexFirstDifference(ea, eb, i);
        LexFirstDifference(eb, ea, i);
        return d;
      }
      assert ea[..i + 1] == ea[..i] + [ea[i]] && eb[..i + 1] == eb[..i] + [eb[i]];
    }
    LexFirstDifference(ea, eb, len);
    LexFirstDifference(eb, ea, len);
    if |ea| == |eb| {
      assert ea == ea[..len] && eb == eb[..len];
      EncodeInjective(Scalars(a), Scalars(b));
    }
    return |ea| - |eb|;
  }

  /** The comparison identifies two strings exactly when they agree after every lone surrogate
    is read as U+FFFD, so it is antisymmetric on well-formed strings, and on any pair of which
    one member is well-formed and holds no U+FFFD. */
  lemma ComparesEqualExactly(a: seq<unit>, b: seq<unit>)
    ensures WellFormed(a) && WellFormed(b) ==> (Scalars(a) == Scalars(b) <==> a == b)
    ensures WellFormed(a) && 0xFFFD !in a ==> (Scalars(a) == Scalars(b) <==> a == b)
  {
    if WellFormed(a) && Scalars(a) == Scalars(b) {
      Utf16OfScalars(a);
      if WellFormed(b) {
        Utf16OfScalars(b);
      } else {
        ReplacementShows(b);
        if 0xFFFD !in a {
          NoReplacement(a);
        }
      }
    }
  }

  lemma {:induction false} ReplacementShows(u: seq<unit>)
    requires !WellFormed(u)
    ensures '\U{FFFD}' in Scalars(u)
  {
    if HighSurrogate(u[0]) && |u| >= 2 && LowSurrogate(u[1]) {
      ReplacementShows(u[2..]);
    } else if !HighSurrogate(u[0]) && !LowSurrogate(u[0]) {
      ReplacementShows(u[1..]);
    }
  }

  lemma {:induction false} NoReplacement(u: seq<unit>)
    requires WellFormed(u) && 0xFFFD !in u
    ensures '\U{FFFD}' !in Scalars(u)
  {
    if u != [] {
      if HighSurrogate(u[0]) {
        NoReplacement(u[2..]);
      } else {
        NoReplacement(u[1..]);
      }
    }
  }

  /** Off the well-formed strings two different inputs can compare as equal, and JavaScript's own
    code unit order disagrees with the engine's order as soon as a character lies outside the
    basic plane. */
  lemma CompareLimits()
    ensures Scalars([0xD800]) == Scalars([0xFFFD])
    ensures ByUtf8("\U{E000}", "\U{10000}") && !LexLe(Utf16("\U{E000}"), Utf16("\U{10000}"))
  {
    assert Scalars([0xD800]) == ['\U{FFFD}'] + Scalars([]);
    assert Scalars([0xFFFD]) == ['\U{FFFD}'] + Scalars([]);
    CharOrder('\U{E000}', '\U{10000}', [], []);
    var a, b := "\U{E000}", "\U{10000}";
    assert Encode(a) == EncodeChar(a[0]) + [] && Encode(b) == EncodeChar(b[0]) + [];
    assert Utf16(a) == [0xE000] + [] && Utf16(b) == [0xD800, 0xDC00] + [];
  }

  /** On texts that come from UTF-16, what the comparison computes is the order by UTF-8 bytes: sorting
    by it is sorting by `ByUtf8`. */
  lemma ComparisonIsByUtf8(s: string, t: string)
    ensures LexLe(CodePoints(Scalars(Utf16(s))), CodePoints(Scalars(Utf16(t)))) <==> ByUtf8(s, t)
  {
    ScalarsOfUtf16(s);
    ScalarsOfUtf16(t);
    Utf8PreservesOrder(s, t);
  }
}
