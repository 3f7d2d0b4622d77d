/** The JSON both sides exchange (RFC 8259): the compact printer, which writes the same text from
  `serde_json::to_vec` and `JSON.stringify`, and a reader that also takes whitespace, every
  escape, and fields in any order. Numbers are unsigned integers: no other kind is ever written, and none
  is read. */
module JsonText {
  import opened Bytes
  import opened Decimal
  import Utf8

  datatype Json =
    | Null
    | Bool(b: bool)
    | Num(n: nat)
    | Str(text: string)
    | Arr(items: seq<Json>)
    | Obj(fields: seq<Field>)

  datatype Field = Field(key: string, value: Json)

  // ----- printing -----

  function EscapeChar(c: char): string {
    var n := c as nat;
    if c == '"' then "\\\""
    else if c == '\\' then "\\\\"
    else if n == 8 then "\\b"
    else if n == 9 then "\\t"
    else if n == 10 then "\\n"
    else if n == 12 then "\\f"
    else if n == 13 then "\\r"
    else if n < 0x20 then "\\u00" + [HexDigit(n / 16), HexDigit(n % 16)]
    else [c]
  }

  function Escape(s: string): string {
    if s == "" then "" else EscapeChar(s[0]) + Escape(s[1..])
  }

  function Quote(s: string): string {
    "\"" + Escape(s) + "\""
  }

  function Print(v: Json): string
    decreases v, 0
  {
    match v
    case Null => "null"
    case Bool(b) => if b then "true" else "false"
    case Num(n) => Digits(n)
    case Str(s) => Quote(s)
    case Arr(items) => "[" + PrintItems(items) + "]"
    case Obj(fields) => "{" + PrintFields(fields) + "}"
  }

  function PrintItems(items: seq<Json>): string
    decreases items, 0
  {
    if items == [] then ""
    else if |items| == 1 then Print(items[0])
    else Print(items[0]) + "," + PrintItems(items[1..])
  }

  function PrintField(f: Field): string
    decreases f, 0
  {
    Quote(f.key) + ":" + Print(f.value)
  }

  function PrintFields(fields: seq<Field>): string
    decreases fields, 0
  {
    if fields == [] then ""
    else if |fields| == 1 then PrintField(fields[0])
    else PrintField(fields[0]) + "," + PrintFields(fields[1..])
  }

  function ToBytes(v: Json): Bytes {
    Utf8.Encode(Print(v))
  }

  // ----- reading -----

  datatype Read<+T> = Fail | Read(value: T, rest: string)

  function SkipSpace(s: string): (r: string)
    ensures |r| <= |s|
    ensures s != "" && s[0] !in " \t\n\r" ==> r == s
  {
    if s != "" && s[0] in " \t\n\r" then SkipSpace(s[1..]) else s
  }

  /** Drops one given character, with whitespace allowed before it. */
  function Expect(c: char, s: string): (r: Read<()>)
    ensures r.Read? ==> |r.rest| < |s|
  {
    var t := SkipSpace(s);
    if t != "" && t[0] == c then Read((), t[1..]) else Fail
  }

  function Hex4(s: string): (n: Option<nat>)
    ensures n.Some? ==> |s| >= 4 && n.value < 0x10000
  {
    if |s| < 4 then None
    else
      match (HexValue(s[0]), HexValue(s[1]), HexValue(s[2]), HexValue(s[3]))
      case (Some(a), Some(b), Some(c), Some(d)) => Some(((a * 16 + b) * 16 + c) * 16 + d)
      case _ => None
  }

  /** The part of an escape after its backslash (RFC 8259, section 7). */
  function ReadEscape(s: string): (r: Read<char>)
    ensures r.Read? ==> |r.rest| < |s|
  {
    if s == "" then Fail
    else
      match s[0]
      case '"' => Read('"', s[1..])
      case '\\' => Read('\\', s[1..])
      case '/' => Read('/', s[1..])
      case 'b' => Read(8 as char, s[1..])
      case 't' => Read(9 as char, s[1..])
      case 'n' => Read(10 as char, s[1..])
      case 'f' => Read(12 as char, s[1..])
      case 'r' => Read(13 as char, s[1..])
      case 'u' => ReadUnicode(s[1..])
      case _ => Fail
  }

  /** Four hex digits, or two such escapes that form a surrogate pair. */
  function ReadUnicode(s: string): (r: Read<char>)
    ensures r.Read? ==> |r.rest| < |s|
  {
    match Hex4(s)
    case None => Fail
    case Some(n) =>
      if Utf8.IsScalar(n) then Read(n as char, s[4..])
      else if n < 0xDC00 && |s| >= 6 && s[4] == '\\' && s[5] == 'u' then
        match Hex4(s[6..])
        case None => Fail
        case Some(m) =>
          if 0xDC00 <= m < 0xE000 then
            Read((0x10000 + (n - 0xD800) * 0x400 + (m - 0xDC00)) as char, s[10..])
          else Fail
      else Fail
  }

  /** A string after its opening quote. */
  function ReadText(s: string): (r: Read<string>)
    ensures r.Read? ==> |r.rest| < |s|
  {
    if s == "" || s[0] as nat < 0x20 then Fail
    else if s[0] == '"' then Read("", s[1..])
    else if s[0] == '\\' then
      match ReadEscape(s[1..])
      case Fail => Fail
      case Read(c, t) =>
        (match ReadText(t)
         case Fail => Fail
         case Read(text, rest) => Read([c] + text, rest))
    else
      match ReadText(s[1..])
      case Fail => Fail
      case Read(text, rest) => Read([s[0]] + text, rest)
  }

  function ReadValue(s0: string): (r: Read<Json>)
    decreases |s0|, 0
    ensures r.Read? ==> |r.rest| < |s0|
  {
    var s := SkipSpace(s0);
    if s == "" then Fail
    else if s[0] == 'n' then
      if "null" <= s then Read(Null, s[4..]) else Fail
    else if s[0] == 't' then
      if "true" <= s then Read(Bool(true), s[4..]) else Fail
    else if s[0] == 'f' then
      if "false" <= s then Read(Bool(false), s[5..]) else Fail
    else if s[0] == '0' then Read(Num(0), s[1..])
    else if IsDigit(s[0]) then
      var k := Run(s);
      Read(Num(DigitsValue(s[..k])), s[k..])
    else if s[0] == '"' then
      match ReadText(s[1..])
      case Fail => Fail
      case Read(text, rest) => Read(Str(text), rest)
    else if s[0] == '[' then
      match Expect(']', s[1..])
      case Read(_, rest) => Read(Arr([]), rest)
      case Fail =>
        (match ReadItems(s[1..])
         case Fail => Fail
         case Read(items, rest) => Read(Arr(items), rest))
    else if s[0] == '{' then
      match Expect('}', s[1..])
      case Read(_, rest) => Read(Obj([]), rest)
      case Fail =>
        (match ReadFields(s[1..])
         case Fail => Fail
         case Read(fields, rest) => Read(Obj(fields), rest))
    else Fail
  }

  /** One or more array items and the closing bracket. */
  function ReadItems(s: string): (r: Read<seq<Json>>)
    decreases |s|, 1
    ensures r.Read? ==> |r.rest| < |s|
  {
    match ReadValue(s)
    case Fail => Fail
    case Read(v, t) =>
      match Expect(']', t)
      case Read(_, rest) => Read([v], rest)
      case Fail =>
        match Expect(',', t)
        case Fail => Fail
        case Read(_, u) =>
          match ReadItems(u)
          case Fail => Fail
          case Read(items, rest) => Read([v] + items, rest)
  }

  function ReadField(s: string): (r: Read<Field>)
    decreases |s|, 1
    ensures r.Read? ==> |r.rest| < |s|
  {
    match Expect('"', s)
    case Fail => Fail
    case Read(_, t) =>
      match ReadText(t)
      case Fail => Fail
      case Read(key, u) =>
        match Expect(':', u)
        case Fail => Fail
        case Read(_, w) =>
          match ReadValue(w)
          case Fail => Fail
          case Read(value, rest) => Read(Field(key, value), rest)
  }

  /** One or more object fields and the closing brace. */
  function ReadFields(s: string): (r: Read<seq<Field>>)
    decreases |s|, 2
    ensures r.Read? ==> |r.rest| < |s|
  {
    match ReadField(s)
    case Fail => Fail
    case Read(f, t) =>
      match Expect('}', t)
      case Read(_, rest) => Read([f], rest)
      case Fail =>
        match Expect(',', t)
        case Fail => Fail
        case Read(_, u) =>
          match ReadFields(u)
          case Fail => Fail
          case Read(fields, rest) => Read([f] + fields, rest)
  }

  /** A whole document: strict UTF-8, one value, nothing but whitespace after it. */
  function FromBytes(b: Bytes): Option<Json> {
    match Utf8.Decode(b)
    case None => None
    case Some(s) =>
      match ReadValue(s)
      case Fail => None
      case Read(v, rest) => if SkipSpace(rest) == "" then Some(v) else None
  }

  // ----- reading what was printed -----

  lemma ReadEscaped(c: char, t: string)
    ensures EscapeChar(c)[0] == '\\' ==> ReadEscape((EscapeChar(c) + t)[1..]) == Read(c, t)
    ensures EscapeChar(c)[0] != '\\' ==> EscapeChar(c) == [c] && c != '"' && c as nat >= 0x20
  {
    var n, e := c as nat, EscapeChar(c);
    var s := (e + t)[1..];
    assert s == e[1..] + t;
    if e[0] == '\\' {
      assert s[0] == e[1];
      assert |e| == 2 ==> s[1..] == t;
      if |e| == 6 {
        var u := s[1..];
        assert u == e[2..] + t;
        assert u[0] == '0' && u[1] == '0' && u[2] == HexDigit(n / 16) && u[3] == HexDigit(n % 16);
        HexDigitValue(n / 16);
        HexDigitValue(n % 16);
        assert Hex4(u) == Some(n);
        assert u[4..] == t;
      }
    }
  }

  lemma ReadOneChar(c: char, u: string)
    requires ReadText(u).Read?
    ensures ReadText(EscapeChar(c) + u) == Read([c] + ReadText(u).value, ReadText(u).rest)
  {
    var e := EscapeChar(c);
    var s := e + u;
    ReadEscaped(c, u);
    assert s[0] == e[0];
    if e[0] != '\\' {
      assert s[1..] == u;
    }
  }

  lemma ReadClosingQuote(rest: string)
    ensures ReadText("\"" + rest) == Read("", rest)
  {
    assert ("\"" + rest)[1..] == rest;
  }

  lemma {:induction false} ReadEscapedText(s: string, rest: string)
    ensures ReadText(Escape(s) + ("\"" + rest)) == Read(s, rest)
  {
    var end := "\"" + rest;
    if s == "" {
      assert Escape(s) + end == end;
      ReadClosingQuote(rest);
    } else {
      var e, u := EscapeChar(s[0]), Escape(s[1..]) + end;
      calc {
        ReadText(Escape(s) + end);
        { assert Escape(s) + end == e + u; }
        ReadText(e + u);
        { ReadEscapedText(s[1..], rest); ReadOneChar(s[0], u); }
        Read([s[0]] + s[1..], rest);
        { assert s == [s[0]] + s[1..]; }
        Read(s, rest);
      }
    }
  }

  lemma ReadQuoted(s: string, rest: string)
    ensures Quote(s) + rest != "" && (Quote(s) + rest)[0] == '"'
    ensures ReadText((Quote(s) + rest)[1..]) == Read(s, rest)
  {
    ReadEscapedText(s, rest);
    Assoc("\"" + Escape(s), "\"", rest);
    Assoc("\"", Escape(s), "\"" + rest);
  }

  /** Where a value can stop: a digit right after a number would be read into it. */
  predicate Stops(rest: string) {
    rest == "" || !IsDigit(rest[0])
  }

  /** `Expect` looks at one character when there is no space to skip. */
  lemma ExpectNext(c: char, s: string, d: char)
    requires s != "" && s[0] == d && d !in " \t\n\r"
    ensures Expect(c, s) == if c == d then Read((), s[1..]) else Fail
  {
  }

  lemma PrintHead(v: Json)
    ensures Print(v) != "" && Print(v)[0] !in " \t\n\r]},:"
  {
  }

  lemma {:induction false} ReadPrinted(v: Json, rest: string)
    requires Stops(rest)
    ensures ReadValue(Print(v) + rest) == Read(v, rest)
    decreases v, 0
  {
    match v
    case Null =>
      assert (Print(v) + rest)[4..] == rest;
    case Bool(b) =>
      assert (Print(v) + rest)[|Print(v)|..] == rest;
    case Num(n) =>
      ReadPrintedNum(n, rest);
    case Str(text) =>
      ReadQuoted(text, rest);
    case Arr(items) =>
      ReadPrintedArr(items, rest);
    case Obj(fields) =>
      ReadPrintedObj(fields, rest);
  }

  lemma ReadPrintedNum(n: nat, rest: string)
    requires Stops(rest)
    ensures ReadValue(Digits(n) + rest) == Read(Num(n), rest)
  {
    var d := Digits(n);
    var s := d + rest;
    DigitsRoundTrip(n);
    RunOf(d, rest);
    assert s[0] == d[0] && s[..|d|] == d && s[|d|..] == rest;
  }

  lemma {:induction false} ReadPrintedArr(items: seq<Json>, rest: string)
    ensures ReadValue("[" + PrintItems(items) + "]" + rest) == Read(Arr(items), rest)
    decreases items, 1
  {
    var s, t := "[" + PrintItems(items) + "]" + rest, PrintItems(items) + ("]" + rest);
    assert s[0] == '[' && s[1..] == t;
    if items == [] {
      assert t == "]" + rest && t[1..] == rest;
      ExpectNext(']', t, ']');
    } else {
      ItemsNotClosed(items, "]" + rest);
      ReadPrintedItems(items, rest);
    }
  }

  lemma {:induction false} ReadPrintedObj(fields: seq<Field>, rest: string)
    ensures ReadValue("{" + PrintFields(fields) + "}" + rest) == Read(Obj(fields), rest)
    decreases fields, 1
  {
    var s, t := "{" + PrintFields(fields) + "}" + rest, PrintFields(fields) + ("}" + rest);
    assert s[0] == '{' && s[1..] == t;
    if fields == [] {
      assert t == "}" + rest && t[1..] == rest;
      ExpectNext('}', t, '}');
    } else {
      FieldsNotClosed(fields, "}" + rest);
      ReadPrintedFields(fields, rest);
    }
  }

  lemma LastItem(v: Json, rest: string)
    requires ReadValue(Print(v) + ("]" + rest)) == Read(v, "]" + rest)
    ensures ReadItems(Print(v) + ("]" + rest)) == Read([v], rest)
  {
    var end := "]" + rest;
    ExpectNext(']', end, ']');
    assert end[1..] == rest;
  }

  lemma MoreItems(v: Json, u: string)
    requires ReadValue(Print(v) + ("," + u)) == Read(v, "," + u)
    requires ReadItems(u).Read?
    ensures ReadItems(Print(v) + ("," + u)) == Read([v] + ReadItems(u).value, ReadItems(u).rest)
  {
    hide ReadValue, Print;
    var t := "," + u;
    ExpectNext(']', t, ',');
    ExpectNext(',', t, ',');
    assert t[1..] == u;
  }

  lemma SplitItems(items: seq<Json>, end: string)
    requires |items| > 1
    ensures PrintItems(items) + end == Print(items[0]) + ("," + (PrintItems(items[1..]) + end))
  {
    var p, more := Print(items[0]), PrintItems(items[1..]);
    Assoc(p + ",", more, end);
    Assoc(p, ",", more + end);
  }

  lemma {:induction false} ReadPrintedItems(items: seq<Json>, rest: string)
    requires items != []
    ensures ReadItems(PrintItems(items) + ("]" + rest)) == Read(items, rest)
    decreases items, 0
  {
    var end := "]" + rest;
    if |items| == 1 {
      ReadPrinted(items[0], end);
      LastItem(items[0], rest);
      assert items == [items[0]];
    } else {
      var u := PrintItems(items[1..]) + end;
      SplitItems(items, end);
      ReadPrinted(items[0], "," + u);
      ReadPrintedItems(items[1..], rest);
      MoreItems(items[0], u);
      assert items == [items[0]] + items[1..];
    }
  }

  lemma ItemsNotClosed(items: seq<Json>, t: string)
    requires items != []
    ensures Expect(']', PrintItems(items) + t) == Fail
  {
    PrintHead(items[0]);
    ExpectNext(']', PrintItems(items) + t, Print(items[0])[0]);
  }

  lemma {:induction false} ReadPrintedField(f: Field, rest: string)
    requires Stops(rest)
    ensures ReadField(PrintField(f) + rest) == Read(f, rest)
    decreases f, 0
  {
    hide Print, ReadValue, ReadText, Escape;
    var q, t := Quote(f.key), ":" + (Print(f.value) + rest);
    var s := PrintField(f) + rest;
    assert s == q + t;
    ReadQuoted(f.key, t);
    ExpectNext('"', s, '"');
    ExpectNext(':', t, ':');
    assert t[1..] == Print(f.value) + rest;
    ReadPrinted(f.value, rest);
  }

  lemma LastField(f: Field, rest: string)
    requires ReadField(PrintField(f) + ("}" + rest)) == Read(f, "}" + rest)
    ensures ReadFields(PrintField(f) + ("}" + rest)) == Read([f], rest)
  {
    var end := "}" + rest;
    ExpectNext('}', end, '}');
    assert end[1..] == rest;
  }

  lemma MoreFields(f: Field, u: string)
    requires ReadField(PrintField(f) + ("," + u)) == Read(f, "," + u)
    requires ReadFields(u).Read?
    ensures ReadFields(PrintField(f) + ("," + u)) == Read([f] + ReadFields(u).value, ReadFields(u).rest)
  {
    hide ReadField, PrintField;
    var t := "," + u;
    ExpectNext('}', t, ',');
    ExpectNext(',', t, ',');
    assert t[1..] == u;
  }

  lemma SplitFields(fields: seq<Field>, end: string)
    requires |fields| > 1
    ensures PrintFields(fields) + end == PrintField(fields[0]) + ("," + (PrintFields(fields[1..]) + end))
  {
    var p, more := PrintField(fields[0]), PrintFields(fields[1..]);
    Assoc(p + ",", more, end);
    Assoc(p, ",", more + end);
  }

  lemma {:induction false} ReadPrintedFields(fields: seq<Field>, rest: string)
    requires fields != []
    ensures ReadFields(PrintFields(fields) + ("}" + rest)) == Read(fields, rest)
    decreases fields, 0
  {
    var end := "}" + rest;
    if |fields| == 1 {
      ReadPrintedField(fields[0], end);
      LastField(fields[0], rest);
      assert fields == [fields[0]];
    } else {
      var u := PrintFields(fields[1..]) + end;
      SplitFields(fields, end);
      ReadPrintedField(fields[0], "," + u);
      ReadPrintedFields(fields[1..], rest);
      MoreFields(fields[0], u);
      assert fields == [fields[0]] + fields[1..];
    }
  }

  lemma FieldsNotClosed(fields: seq<Field>, t: string)
    requires fields != []
    ensures Expect('}', PrintFields(fields) + t) == Fail
  {
    var p := PrintField(fields[0]);
    assert p[0] == '"';
    ExpectNext('}', PrintFields(fields) + t, '"');
  }

  /** Reading back what was printed gives the same value, so equal bytes mean equal values. */
  lemma JsonTextRoundTrip(v: Json)
    ensures FromBytes(ToBytes(v)) == Some(v)
  {
    Utf8.DecodeEncode(Print(v));
    ReadPrinted(v, "");
    assert Print(v) + "" == Print(v);
  }
}

/** Reading typed values out of JSON, the way derived `Deserialize` code does: a named field must
  occur exactly once, unknown fields are ignored. */
module JsonFields {
  import opened Bytes
  import opened JsonText
  import opened Sorting
  import Utf8

  predicate IsOnly(fields: seq<Field>, i: nat) {
    i < |fields| && forall j :: 0 <= j < |fields| && j != i ==> fields[j].key != fields[i].key
  }

  predicate Absent(fields: seq<Field>, key: string) {
    forall i :: 0 <= i < |fields| ==> fields[i].key != key
  }

  /** The value of a field that occurs once; a missing or repeated field gives `None`. */
  function Lookup(fields: seq<Field>, key: string): Option<Json> {
    if fields == [] then None
    else if fields[0].key != key then Lookup(fields[1..], key)
    else if Absent(fields[1..], key) then Some(fields[0].value)
    else None
  }

  lemma {:induction false} LookupAt(fields: seq<Field>, i: nat)
    requires IsOnly(fields, i)
    ensures Lookup(fields, fields[i].key) == Some(fields[i].value)
  {
    if i > 0 {
      assert IsOnly(fields[1..], i - 1);
      LookupAt(fields[1..], i - 1);
    }
  }

  function AsText(v: Option<Json>): Option<string> {
    match v
    case Some(Str(s)) => Some(s)
    case _ => None
  }

  function AsU32(v: Option<Json>): Option<nat> {
    match v
    case Some(Num(n)) => if n < 0x1_0000_0000 then Some(n) else None
    case _ => None
  }

  /** A digest written as hex: any other length or text is an error. */
  function AsDigest(v: Option<Json>): (d: Option<Digest>) {
    match AsText(v)
    case None => None
    case Some(s) => DigestFromHex(s)
  }

  function DigestFromHex(s: string): (d: Option<Digest>) {
    match FromHex(s)
    case Some(b) => if |b| == 32 then Some(b) else None
    case None => None
  }

  lemma DigestHexRoundTrip(d: Digest)
    ensures DigestFromHex(ToHex(d)) == Some(d)
  {
    HexRoundTrip(d);
  }

  /** Every element read by `f`, or `None` if one of them does not read. */
  function Collect<T>(items: seq<Json>, f: Json -> Option<T>): Option<seq<T>> {
    if items == [] then Some([])
    else
      match (f(items[0]), Collect(items[1..], f))
      case (Some(x), Some(xs)) => Some([x] + xs)
      case _ => None
  }

  function MapJson<T>(xs: seq<T>, g: T -> Json): (r: seq<Json>) {
    seq(|xs|, i requires 0 <= i < |xs| => g(xs[i]))
  }

  lemma {:induction false} CollectMap<T(!new)>(xs: seq<T>, g: T -> Json, f: Json -> Option<T>)
    requires forall x :: f(g(x)) == Some(x)
    ensures Collect(MapJson(xs, g), f) == Some(xs)
  {
    if xs != [] {
      CollectMap(xs[1..], g, f);
      assert MapJson(xs, g)[1..] == MapJson(xs[1..], g);
      assert xs == [xs[0]] + xs[1..];
    }
  }

  /** An object as a map: a repeated key keeps its last value, as inserting into a map does. */
  function CollectMapFields<T>(fields: seq<Field>, f: Json -> Option<T>): Option<map<string, T>> {
    if fields == [] then Some(map[])
    else
      var last := fields[|fields| - 1];
      match (CollectMapFields(fields[..|fields| - 1], f), f(last.value))
      case (Some(m), Some(x)) => Some(m[last.key := x])
      case _ => None
  }

  function MapFields<T>(m: map<string, T>, keys: seq<string>, g: T -> Json): seq<Field>
    requires forall k :: k in keys ==> k in m
  {
    seq(|keys|, i requires 0 <= i < |keys| => Field(keys[i], g(m[keys[i]])))
  }

  lemma {:induction false} CollectMapOfFields<T(!new)>(m: map<string, T>, keys: seq<string>, g: T -> Json, f: Json -> Option<T>)
    requires forall k :: k in keys ==> k in m
    requires forall k :: k in keys ==> f(g(m[k])) == Some(m[k])
    ensures CollectMapFields(MapFields(m, keys, g), f) == Some(map k | k in keys :: m[k])
  {
    if keys != [] {
      var init := keys[..|keys| - 1];
      assert keys == init + [keys[|keys| - 1]];
      CollectMapOfFields(m, init, g, f);
      assert MapFields(m, keys, g)[..|keys| - 1] == MapFields(m, init, g);
      var k := keys[|keys| - 1];
      assert (map x | x in keys :: m[x]) == (map x | x in init :: m[x])[k := m[k]];
    }
  }

  lemma SortedKeys(s: set<string>)
    ensures SortedBy(Utf8.ByUtf8, SortSet(Utf8.ByUtf8, s)) && NoDuplicates(SortSet(Utf8.ByUtf8, s))
    ensures Elements(SortSet(Utf8.ByUtf8, s)) == s
    ensures forall k :: k in SortSet(Utf8.ByUtf8, s) <==> k in s
  {
    Utf8.ByUtf8Total();
    SortSetSorts(Utf8.ByUtf8, s);
    assert forall k :: k in SortSet(Utf8.ByUtf8, s) <==> k in Elements(SortSet(Utf8.ByUtf8, s));
  }

  /** A `BTreeMap<String, _>` as an object: its keys in byte order. */
  ghost function SortedFields<T>(m: map<string, T>, g: T -> Json): seq<Field> {
    SortedKeys(m.Keys);
    MapFields(m, SortSet(Utf8.ByUtf8, m.Keys), g)
  }

  /** Walking a `BTreeMap`: take the keys out in any order, then sort. */
  method SortKeys<T>(m: map<string, T>) returns (keys: seq<string>)
    ensures keys == SortSet(Utf8.ByUtf8, m.Keys)
  {
    var listed: seq<string> := [];
    var todo := m.Keys;
    while todo != {}
      invariant NoDuplicates(listed) && Elements(listed) + todo == m.Keys && Elements(listed) !! todo
    {
      var k :| k in todo;
      assert k !in listed by { assert k !in Elements(listed); }
      assert Elements(listed + [k]) == Elements(listed) + {k};
      listed := listed + [k];
      todo := todo - {k};
    }
    keys := Sort(Utf8.ByUtf8, listed);
    SortedListing(listed, m.Keys);
  }

  lemma SortedListing(listed: seq<string>, s: set<string>)
    requires NoDuplicates(listed) && Elements(listed) == s
    ensures Sort(Utf8.ByUtf8, listed) == SortSet(Utf8.ByUtf8, s)
  {
    Utf8.ByUtf8Total();
    SortedKeys(s);
    SortSorts(Utf8.ByUtf8, listed);
    PermutationDistinct(listed, Sort(Utf8.ByUtf8, listed));
    StrictUnique(Utf8.ByUtf8, Sort(Utf8.ByUtf8, listed), SortSet(Utf8.ByUtf8, s));
  }

  lemma SortedFieldsRoundTrip<T(!new)>(m: map<string, T>, g: T -> Json, f: Json -> Option<T>)
    requires forall k :: k in m ==> f(g(m[k])) == Some(m[k])
    ensures CollectMapFields(SortedFields(m, g), f) == Some(m)
  {
    var keys := SortSet(Utf8.ByUtf8, m.Keys);
    SortedKeys(m.Keys);
    CollectMapOfFields(m, keys, g, f);
    assert (map k | k in keys :: m[k]) == m;
  }
}
