/** Decimal text of integers: what `serde_json` writes for a `u32`, and what `BigInt.toString`
  and `BigInt(...)` exchange in an evidence file. */
module Decimal {
  import opened Bytes

  predicate IsDigit(c: char) {
    '0' <= c <= '9'
  }

  predicate AllDigits(s: string) {
    forall i :: 0 <= i < |s| ==> IsDigit(s[i])
  }

  function Digits(n: nat): (s: string)
    ensures s != "" && AllDigits(s)
    ensures s[0] == '0' ==> n == 0
    ensures n == 0 ==> s == "0"
  {
    if n < 10 then ['0' + n as char] else Digits(n / 10) + ['0' + (n % 10) as char]
  }

  function DigitsValue(s: string): nat
    requires AllDigits(s)
  {
    if s == "" then 0 else 10 * DigitsValue(s[..|s| - 1]) + (s[|s| - 1] - '0') as nat
  }

  lemma {:induction false} DigitsRoundTrip(n: nat)
    ensures DigitsValue(Digits(n)) == n
  {
    if n >= 10 {
      DigitsRoundTrip(n / 10);
      var s := Digits(n);
      assert s[..|s| - 1] == Digits(n / 10);
    } else {
      var s := Digits(n);
      assert s[..0] == "" && DigitsValue(s[..0]) == 0;
    }
  }

  function Pow10(n: nat): nat {
    if n == 0 then 1 else 10 * Pow10(n - 1)
  }

  /** The number that digits stand for, each weighed by its place. */
  function PlaceValue(s: string): nat
    requires AllDigits(s)
  {
    if s == "" then 0 else (s[0] - '0') as nat * Pow10(|s| - 1) + PlaceValue(s[1..])
  }

  lemma {:induction false} PlaceValueSnoc(s: string, c: char)
    requires AllDigits(s) && IsDigit(c)
    ensures AllDigits(s + [c]) && PlaceValue(s + [c]) == 10 * PlaceValue(s) + (c - '0') as nat
  {
    if s == "" {
      assert s + [c] == [c] && [c][1..] == "";
    } else {
      var d := (s[0] - '0') as nat;
      PlaceValueSnoc(s[1..], c);
      assert (s + [c])[1..] == s[1..] + [c];
      assert d * Pow10(|s|) == 10 * (d * Pow10(|s| - 1));
    }
  }

  /** Decimal text has the most significant digit first, and no zero in front. */
  lemma {:induction false} DigitsWritten(n: nat)
    ensures PlaceValue(Digits(n)) == n && (n > 0 ==> Digits(n)[0] != '0')
  {
    if n >= 10 {
      DigitsWritten(n / 10);
      PlaceValueSnoc(Digits(n / 10), '0' + (n % 10) as char);
    } else {
      PlaceValueSnoc("", '0' + n as char);
      assert "" + ['0' + n as char] == Digits(n);
    }
  }

  lemma {:induction false} DigitsValueIs(s: string)
    requires AllDigits(s)
    ensures DigitsValue(s) == PlaceValue(s)
  {
    if s != "" {
      var front, c := s[..|s| - 1], s[|s| - 1];
      DigitsValueIs(front);
      PlaceValueSnoc(front, c);
      assert s == front + [c];
    }
  }

  /** How many of the leading characters are digits. */
  function Run(s: string): (k: nat)
    ensures k <= |s| && AllDigits(s[..k])
    ensures k < |s| ==> !IsDigit(s[k])
  {
    if s != "" && IsDigit(s[0]) then
      var k := Run(s[1..]);
      assert s[..k + 1] == [s[0]] + s[1..][..k];
      k + 1
    else 0
  }

  lemma {:induction false} RunOf(a: string, r: string)
    requires AllDigits(a) && (r == "" || !IsDigit(r[0]))
    ensures Run(a + r) == |a|
  {
    if a == "" {
      assert a + r == r;
    } else {
      RunOf(a[1..], r);
      assert (a + r)[1..] == a[1..] + r;
    }
  }

  function ShowInt(x: int): string {
    if x < 0 then "-" + Digits(-x) else Digits(x)
  }

  /** `BigInt(text)` on an optional minus sign and decimal digits; any other text is an error. */
  function ParseInt(s: string): Option<int> {
    var body := if s != "" && s[0] == '-' then s[1..] else s;
    if body == "" || !AllDigits(body) then None
    else if s[0] == '-' then Some(-(DigitsValue(body) as int))
    else Some(DigitsValue(body))
  }

  lemma IntRoundTrip(x: int)
    ensures ParseInt(ShowInt(x)) == Some(x)
  {
    if x < 0 {
      DigitsRoundTrip(-x);
      assert ShowInt(x)[1..] == Digits(-x);
    } else {
      DigitsRoundTrip(x);
    }
  }
}
