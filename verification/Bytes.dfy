/** Bytes, digests, and the fixed-width encodings everything else is built on.

  A hash is a parameter, never a fixed function: every theorem holds for every function from
  bytes to 32 bytes. A 32-byte hash is not injective, so conclusions read "this holds, or two
  different preimages among the ones named here have the same digest" (`Collides`). The set is
  always the finite set of byte strings that the operation really hashed. */
module Bytes {
  type byte = x: int | 0 <= x < 256
  type Bytes = seq<byte>
  type Digest = d: Bytes | |d| == 32 witness seq(32, _ => 0)
  type Hash = Bytes -> Digest

  datatype Option<+T> = None | Some(value: T)

  ghost predicate Collides(h: Hash, s: set<Bytes>) {
    exists x, y :: x in s && y in s && x != y && h(x) == h(y)
  }

  lemma CollidesIn(h: Hash, s: set<Bytes>, x: Bytes, y: Bytes)
    requires x in s && y in s && h(x) == h(y)
    ensures x == y || Collides(h, s)
  {
  }

  lemma CollidesMono(h: Hash, s: set<Bytes>, t: set<Bytes>)
    requires Collides(h, s) && s <= t
    ensures Collides(h, t)
  {
    var x, y :| x in s && y in s && x != y && h(x) == h(y);
    assert x in t && y in t;
  }

  // ----- joining and comparing byte strings -----

  function Flatten<T>(parts: seq<seq<T>>): seq<T> {
    if parts == [] then [] else parts[0] + Flatten(parts[1..])
  }

  lemma Assoc<T>(a: seq<T>, b: seq<T>, c: seq<T>)
    ensures (a + b) + c == a + (b + c)
  {
  }

  lemma {:induction false} FlattenConcat<T>(a: seq<seq<T>>, b: seq<seq<T>>)
    ensures Flatten(a + b) == Flatten(a) + Flatten(b)
  {
    if a == [] {
      assert a + b == b;
    } else {
      var c := a + b;
      assert c[1..] == a[1..] + b;
      calc {
        Flatten(c);
        a[0] + Flatten(a[1..] + b);
        { FlattenConcat(a[1..], b); }
        a[0] + (Flatten(a[1..]) + Flatten(b));
        (a[0] + Flatten(a[1..])) + Flatten(b);
      }
    }
  }

  lemma FlattenNone<T>()
    ensures Flatten<T>([]) == []
  {
  }

  lemma FlattenSnoc<T>(parts: seq<seq<T>>, i: nat)
    requires i < |parts|
    ensures Flatten(parts[..i + 1]) == Flatten(parts[..i]) + parts[i]
  {
    assert parts[..i + 1] == parts[..i] + [parts[i]];
    FlattenConcat(parts[..i], [parts[i]]);
    assert Flatten([parts[i]]) == parts[i] + Flatten([]);
  }

  /** `concatBytes`: sizes a buffer, then copies each part at a running offset. */
  method ConcatBytes(parts: seq<Bytes>) returns (out: array<byte>)
    ensures fresh(out) && out[..] == Flatten(parts)
  {
    var total := 0;
    for i := 0 to |parts|
      invariant total == |Flatten(parts[..i])|
    {
      FlattenSnoc(parts, i);
      total := total + |parts[i]|;
    }
    assert parts[..|parts|] == parts;
    out := new byte[total];
    var offset := 0;
    for i := 0 to |parts|
      invariant offset == |Flatten(parts[..i])| <= total
      invariant out[..offset] == Flatten(parts[..i])
    {
      FlattenSnoc(parts, i);
      FlattenConcat(parts[..i + 1], parts[i + 1..]);
      assert parts == parts[..i + 1] + parts[i + 1..];
      assert offset + |parts[i]| <= total;
      forall k | 0 <= k < |parts[i]| {
        out[offset + k] := parts[i][k];
      }
      assert out[..offset + |parts[i]|] == out[..offset] + parts[i];
      offset := offset + |parts[i]|;
    }
    assert out[..] == out[..offset];
  }

  /** `bytesEqual`: length first, then byte by byte with an early exit. */
  method BytesEqual(a: Bytes, b: Bytes) returns (equal: bool)
    ensures equal <==> a == b
  {
    if |a| != |b| {
      return false;
    }
    for i := 0 to |a|
      invariant a[..i] == b[..i]
    {
      if a[i] != b[i] {
        return false;
      }
      assert a[..i + 1] == a[..i] + [a[i]] && b[..i + 1] == b[..i] + [b[i]];
    }
    assert a == a[..|a|] && b == b[..|b|];
    return true;
  }

  // ----- little-endian integers (BCS u64 and u256) -----

  function Pow256(width: nat): (p: nat)
    ensures p > 0
  {
    if width == 0 then 1 else 256 * Pow256(width - 1)
  }

  const U64_END: int := 0x1_0000_0000_0000_0000
  const U256_END: int := 0x1_0000000000000000_0000000000000000_0000000000000000_0000000000000000

  /** How many numbers eight and thirty-two bytes can hold. */
  lemma WidthEnds()
    ensures Pow256(8) == U64_END && Pow256(32) == U256_END
  {
    assert Pow256(4) == 0x1_0000_0000 && Pow256(8) == U64_END;
    assert Pow256(16) == U64_END * U64_END && Pow256(24) == U64_END * Pow256(16) && Pow256(32) == U64_END * Pow256(24);
  }

  function LittleEndian(n: nat, width: nat): (b: Bytes)
    ensures |b| == width
  {
    if width == 0 then [] else [n % 256] + LittleEndian(n / 256, width - 1)
  }

  lemma {:induction false} LittleEndianInjective(m: nat, n: nat, width: nat)
    requires m < Pow256(width) && n < Pow256(width)
    requires LittleEndian(m, width) == LittleEndian(n, width)
    ensures m == n
  {
    if width != 0 {
      var x, y := LittleEndian(m, width), LittleEndian(n, width);
      assert x[0] == m % 256 && y[0] == n % 256;
      assert x[1..] == LittleEndian(m / 256, width - 1) && y[1..] == LittleEndian(n / 256, width - 1);
      LittleEndianInjective(m / 256, n / 256, width - 1);
    }
  }

  /** The number that bytes stand for, least significant first. */
  function NumberOf(b: Bytes): nat {
    if b == [] then 0 else b[0] + 256 * NumberOf(b[1..])
  }

  lemma {:induction false} LittleEndianNumber(n: nat, width: nat)
    requires n < Pow256(width)
    ensures NumberOf(LittleEndian(n, width)) == n
  {
    if width != 0 {
      var b := LittleEndian(n, width);
      assert b[0] == n % 256 && b[1..] == LittleEndian(n / 256, width - 1);
      LittleEndianNumber(n / 256, width - 1);
    }
  }

  lemma {:induction false} NumberDetermines(a: Bytes, b: Bytes)
    requires |a| == |b| && NumberOf(a) == NumberOf(b)
    ensures a == b
  {
    if a != [] {
      NumberDetermines(a[1..], b[1..]);
      assert a == [a[0]] + a[1..] && b == [b[0]] + b[1..];
    }
  }

  // ----- hexadecimal -----

  function HexDigit(n: nat): char
    requires n < 16
  {
    if n < 10 then '0' + n as char else 'a' + (n - 10) as char
  }

  /** Both hex decoders accept either case. */
  function HexValue(c: char): (v: Option<nat>)
    ensures v.Some? ==> v.value < 16
  {
    if '0' <= c <= '9' then Some((c - '0') as nat)
    else if 'a' <= c <= 'f' then Some((c - 'a') as nat + 10)
    else if 'A' <= c <= 'F' then Some((c - 'A') as nat + 10)
    else None
  }

  function ToHex(b: Bytes): (s: string) {
    if b == [] then "" else [HexDigit(b[0] / 16), HexDigit(b[0] % 16)] + ToHex(b[1..])
  }

  /** `hex::decode` and `hexToBytes`: an odd length or a non-hex digit is an error. */
  function FromHex(s: string): Option<Bytes> {
    if s == "" then Some([])
    else if |s| == 1 then None
    else
      match (HexValue(s[0]), HexValue(s[1]), FromHex(s[2..]))
      case (Some(hi), Some(lo), Some(rest)) =>
        Some([16 * hi + lo] + rest)
      case _ => None
  }

  lemma HexDigitValue(n: nat)
    requires n < 16
    ensures HexValue(HexDigit(n)) == Some(n)
  {
  }

  lemma {:induction false} HexRoundTrip(b: Bytes)
    ensures FromHex(ToHex(b)) == Some(b)
    ensures |ToHex(b)| == 2 * |b|
  {
    if b != [] {
      HexDigitValue(b[0] / 16);
      HexDigitValue(b[0] % 16);
      HexRoundTrip(b[1..]);
      assert ToHex(b)[2..] == ToHex(b[1..]);
      assert b == [b[0]] + b[1..];
    }
  }

  lemma HexInjective(a: Bytes, b: Bytes)
    requires ToHex(a) == ToHex(b)
    ensures a == b
  {
    HexRoundTrip(a);
    HexRoundTrip(b);
  }

  /** Hex is written in lower case, the high half of each byte first. */
  lemma {:induction false} HexWritten(b: Bytes)
    ensures |ToHex(b)| == 2 * |b|
    ensures forall i :: 0 <= i < |b| ==>
              ToHex(b)[2 * i] == "0123456789abcdef"[b[i] / 16] && ToHex(b)[2 * i + 1] == "0123456789abcdef"[b[i] % 16]
  {
    if b != [] {
      HexWritten(b[1..]);
      DigitWritten(b[0] / 16);
      DigitWritten(b[0] % 16);
      forall i | 0 <= i < |b|
        ensures ToHex(b)[2 * i] == "0123456789abcdef"[b[i] / 16] && ToHex(b)[2 * i + 1] == "0123456789abcdef"[b[i] % 16]
      {
        if i > 0 {
          assert b[1..][i - 1] == b[i];
          assert ToHex(b)[2 * i] == ToHex(b[1..])[2 * (i - 1)] && ToHex(b)[2 * i + 1] == ToHex(b[1..])[2 * (i - 1) + 1];
        }
      }
    }
  }

  lemma DigitWritten(n: nat)
    requires n < 16
    ensures HexDigit(n) == "0123456789abcdef"[n]
  {
  }

  ghost predicate SpellsDigit(c: char, n: nat)
    requires n < 16
  {
    c == "0123456789abcdef"[n] || c == "0123456789ABCDEF"[n]
  }

  ghost predicate Spells(s: string, b: Bytes) {
    && |s| == 2 * |b|
    && forall i :: 0 <= i < |b| ==> SpellsDigit(s[2 * i], b[i] / 16) && SpellsDigit(s[2 * i + 1], b[i] % 16)
  }

  lemma SpellsStep(s: string, b: Bytes)
    requires |s| >= 2 && b != []
    ensures Spells(s, b) <==> SpellsDigit(s[0], b[0] / 16) && SpellsDigit(s[1], b[0] % 16) && Spells(s[2..], b[1..])
  {
    hide SpellsDigit;
    var t, c := s[2..], b[1..];
    if Spells(s, b) {
      forall i | 0 <= i < |c| ensures SpellsDigit(t[2 * i], c[i] / 16) && SpellsDigit(t[2 * i + 1], c[i] % 16) {
        assert b[i + 1] == c[i] && t[2 * i] == s[2 * (i + 1)] && t[2 * i + 1] == s[2 * (i + 1) + 1];
      }
    }
    if SpellsDigit(s[0], b[0] / 16) && SpellsDigit(s[1], b[0] % 16) && Spells(t, c) {
      forall i | 0 <= i < |b| ensures SpellsDigit(s[2 * i], b[i] / 16) && SpellsDigit(s[2 * i + 1], b[i] % 16) {
        if i > 0 {
          assert b[i] == c[i - 1] && t[2 * (i - 1)] == s[2 * i] && t[2 * (i - 1) + 1] == s[2 * i + 1];
        }
      }
    }
  }

  lemma FromHexStep(s: string, b: Bytes)
    requires |s| >= 2 && b != []
    ensures FromHex(s) == Some(b) <==>
            HexValue(s[0]) == Some(b[0] / 16) && HexValue(s[1]) == Some(b[0] % 16) && FromHex(s[2..]) == Some(b[1..])
  {
    hide HexValue;
    var hi, lo, rest := HexValue(s[0]), HexValue(s[1]), FromHex(s[2..]);
    if hi.Some? && lo.Some? && rest.Some? {
      HalvesOf(hi.value, lo.value, b[0]);
      assert [16 * hi.value + lo.value] + rest.value == b <==> 16 * hi.value + lo.value == b[0] && rest.value == b[1..] by {
        assert b == [b[0]] + b[1..];
        assert ([16 * hi.value + lo.value] + rest.value)[1..] == rest.value;
      }
    }
  }

  lemma HalvesOf(hi: nat, lo: nat, x: nat)
    requires hi < 16 && lo < 16
    ensures 16 * hi + lo == x <==> hi == x / 16 && lo == x % 16
  {
  }

  /** What reads as hex, in either case, and what it reads as. */
  lemma {:induction false} HexRead(s: string, b: Bytes)
    ensures FromHex(s) == Some(b) <==> Spells(s, b)
    decreases |s|
  {
    if |s| >= 2 && b != [] {
      HexRead(s[2..], b[1..]);
      DigitRead(s[0], b[0] / 16);
      DigitRead(s[1], b[0] % 16);
      SpellsStep(s, b);
      FromHexStep(s, b);
      hide *;
    }
  }

  lemma DigitRead(c: char, n: nat)
    requires n < 16
    ensures HexValue(c) == Some(n) <==> SpellsDigit(c, n)
  {
    if HexValue(c) == Some(n) {
      assert n < 10 ==> c == '0' + n as char;
      assert n >= 10 ==> c == 'a' + (n - 10) as char || c == 'A' + (n - 10) as char;
    }
  }

  /** `fromHex`: an optional `0x` in front. */
  function FromHexText(s: string): Option<Bytes> {
    FromHex(if |s| >= 2 && s[..2] == "0x" then s[2..] else s)
  }

  lemma HexTextRoundTrip(b: Bytes)
    ensures FromHexText(ToHex(b)) == Some(b)
    ensures FromHexText("0x" + ToHex(b)) == Some(b)
  {
    HexRoundTrip(b);
    assert ("0x" + ToHex(b))[2..] == ToHex(b);
    if b != [] {
      var s := ToHex(b);
      assert s[1] == HexDigit(b[0] % 16) && s[1] != 'x';
      assert s[..2][1] == s[1];
    }
  }

  lemma HexTextRead(s: string)
    ensures FromHexText("0x" + s) == FromHex(s)
    ensures (|s| < 2 || s[0] != '0' || s[1] != 'x') ==> FromHexText(s) == FromHex(s)
  {
    assert ("0x" + s)[2..] == s && ("0x" + s)[..2] == "0x";
  }
}
