/** The texts that leave the engine, written out: a manifest, a directory node and a bundle, character by
  character. */
module Formats {
  import opened Bytes
  import opened Sorting
  import opened Decimal
  import opened Utf8
  import opened JsonText
  import opened JsonFields
  import opened Cas
  import opened Snapshot
  import opened ManifestFormat
  import opened Bundle

  // ----- strings -----

  /** How a character stands in a JSON string: quote, backslash and control characters are escaped (section 7
    of RFC 8259), the five with a letter by that letter, the others by four lower-case hex digits. */
  lemma EscapeWritten(c: char)
    ensures EscapeChar(c) ==
            if c == '\"' then ['\\', '\"']
            else if c == '\\' then ['\\', '\\']
            else if c as int == 0x08 then ['\\', 'b']
            else if c as int == 0x09 then ['\\', 't']
            else if c as int == 0x0A then ['\\', 'n']
            else if c as int == 0x0C then ['\\', 'f']
            else if c as int == 0x0D then ['\\', 'r']
            else if c as int < 0x20 then ['\\', 'u', '0', '0', "01"[c as int / 16], "0123456789abcdef"[c as int % 16]]
            else [c]
  {
    DigitWritten(c as nat % 16);
    if c as int < 0x20 {
      DigitWritten(c as nat / 16);
    }
  }

  /** What an escape reads as: a letter as the character it is short for, four hex digits of either case as the
    character of that code. */
  lemma EscapeRead(s: string, c: char)
    ensures ReadEscape(['\"'] + s) == Read(0x22 as char, s) && ReadEscape(['\\'] + s) == Read(0x5C as char, s)
    ensures ReadEscape(['/'] + s) == Read(0x2F as char, s) && ReadEscape(['b'] + s) == Read(0x08 as char, s)
    ensures ReadEscape(['f'] + s) == Read(0x0C as char, s) && ReadEscape(['n'] + s) == Read(0x0A as char, s)
    ensures ReadEscape(['r'] + s) == Read(0x0D as char, s) && ReadEscape(['t'] + s) == Read(0x09 as char, s)
    ensures c !in ['\"', '\\', '/', 'b', 'f', 'n', 'r', 't', 'u'] ==> ReadEscape([c] + s) == Fail
  {
  }

  lemma UnicodeRead(a: nat, b: nat, c: nat, d: nat, x: string, s: string)
    requires a < 16 && b < 16 && c < 16 && d < 16 && |x| == 4
    requires SpellsDigit(x[0], a) && SpellsDigit(x[1], b) && SpellsDigit(x[2], c) && SpellsDigit(x[3], d)
    requires var n := 0x1000 * a + 0x100 * b + 0x10 * c + d; n < 0xD800 || n >= 0xE000
    ensures ReadEscape(['u'] + (x + s)) == Read((0x1000 * a + 0x100 * b + 0x10 * c + d) as char, s)
  {
    DigitRead(x[0], a);
    DigitRead(x[1], b);
    DigitRead(x[2], c);
    DigitRead(x[3], d);
    var t := x + s;
    assert t[0] == x[0] && t[1] == x[1] && t[2] == x[2] && t[3] == x[3] && t[4..] == s;
    assert (['u'] + t)[1..] == t;
  }

  predicate Plain(s: string) {
    forall i :: 0 <= i < |s| ==> s[i] != '\"' && s[i] != '\\' && s[i] as int >= 0x20
  }

  lemma {:induction false} QuotePlain(s: string)
    requires Plain(s)
    ensures Quote(s) == "\"" + s + "\""
  {
    EscapePlain(s);
  }

  lemma {:induction false} EscapePlain(s: string)
    requires Plain(s)
    ensures Escape(s) == s
  {
    if s != "" {
      EscapePlain(s[1..]);
      assert s == [s[0]] + s[1..];
    }
  }

  // ----- lists and objects -----

  /** Texts with commas between them. */
  function Joined(parts: seq<string>): string {
    if parts == [] then "" else if |parts| == 1 then parts[0] else parts[0] + "," + Joined(parts[1..])
  }

  function Printed(items: seq<Json>): seq<string> {
    seq(|items|, i requires 0 <= i < |items| => Print(items[i]))
  }

  function PrintedFields(fields: seq<Field>): seq<string> {
    seq(|fields|, i requires 0 <= i < |fields| => PrintField(fields[i]))
  }

  lemma {:induction false} ItemsJoined(items: seq<Json>)
    ensures PrintItems(items) == Joined(Printed(items))
  {
    if |items| > 1 {
      ItemsJoined(items[1..]);
      assert Printed(items)[1..] == Printed(items[1..]);
    }
  }

  lemma {:induction false} FieldsJoined(fields: seq<Field>)
    ensures PrintFields(fields) == Joined(PrintedFields(fields))
  {
    if |fields| > 1 {
      FieldsJoined(fields[1..]);
      assert PrintedFields(fields)[1..] == PrintedFields(fields[1..]);
    }
  }

  lemma ArrText(items: seq<Json>)
    ensures Print(Arr(items)) == "[" + Joined(Printed(items)) + "]"
  {
    ItemsJoined(items);
  }

  lemma ObjText(fields: seq<Field>)
    ensures Print(Obj(fields)) == "{" + Joined(PrintedFields(fields)) + "}"
  {
    FieldsJoined(fields);
  }

  lemma FieldText(key: string, v: Json, front: string)
    requires Plain(key) && front == "\"" + key + "\":"
    ensures PrintField(Field(key, v)) == front + Print(v)
  {
    QuotePlain(key);
    assert "\"" + key + "\"" + ":" == front;
  }

  lemma StrText(s: string)
    ensures Print(Str(s)) == Quote(s)
  {
  }

  // ----- the order of keys and lists -----

  /** One text comes before another: at the first place they differ it has the smaller character, or it has
    ended there. */
  ghost predicate Earlier(a: string, b: string) {
    exists k :: 0 <= k <= |a| && k < |b| && a[..k] == b[..k] && (k == |a| || a[k] < b[k])
  }

  lemma {:induction false} FirstPart(a: string, b: string) returns (k: nat)
    ensures k <= |a| && k <= |b| && a[..k] == b[..k] && (k == |a| || k == |b| || a[k] != b[k])
  {
    k := 0;
    while k < |a| && k < |b| && a[k] == b[k]
      invariant k <= |a| && k <= |b| && a[..k] == b[..k]
    {
      k := k + 1;
    }
  }

  lemma OrderAt(a: string, b: string, k: nat)
    requires k <= |a| && k <= |b| && a[..k] == b[..k] && (k == |a| || k == |b| || a[k] != b[k])
    ensures ByUtf8(a, b) <==> k == |a| || (k < |b| && a[k] < b[k])
  {
    var x, y := CodePoints(a), CodePoints(b);
    assert forall i :: 0 <= i < k ==> a[i] == a[..k][i] == b[..k][i] == b[i];
    assert x[..k] == y[..k];
    LexFirstDifference(x, y, k);
    Utf8PreservesOrder(a, b);
  }

  lemma EarlierIs(a: string, b: string)
    ensures Earlier(a, b) <==> ByUtf8(a, b) && a != b
  {
    if Earlier(a, b) {
      var k :| 0 <= k <= |a| && k < |b| && a[..k] == b[..k] && (k == |a| || a[k] < b[k]);
      OrderAt(a, b, k);
    }
    if ByUtf8(a, b) && a != b {
      var k := FirstPart(a, b);
      OrderAt(a, b, k);
      assert k == |a| && k == |b| ==> a == a[..k] && b == b[..k];
    }
  }

  /** The keys of a set, each once, in that order. */
  ghost predicate KeysInOrder(keys: seq<string>, s: set<string>) {
    && (forall k :: k in keys <==> k in s)
    && forall i, j :: 0 <= i < j < |keys| ==> Earlier(keys[i], keys[j])
  }

  lemma SortedInOrder(s: set<string>)
    ensures KeysInOrder(SortSet(ByUtf8, s), s)
  {
    SortedKeys(s);
    var keys := SortSet(ByUtf8, s);
    hide SortSet, ByUtf8;
    forall i, j | 0 <= i < j < |keys| ensures Earlier(keys[i], keys[j]) {
      EarlierIs(keys[i], keys[j]);
    }
  }

  // ----- a manifest -----

  function PackageText(p: Package): string {
    "{" + Joined(["\"name\":" + Quote(p.name), "\"version\":" + Quote(p.version)]) + "}"
  }

  function PairText(key: string, value: string): string {
    Quote(key) + ":" + value
  }

  function PointerText(pointer: Option<string>): string {
    if pointer.None? then "null" else Quote(pointer.value)
  }

  function PackageTexts(packages: seq<Package>): seq<string> {
    seq(|packages|, i requires 0 <= i < |packages| => PackageText(packages[i]))
  }

  function QuotedTexts(texts: seq<string>): seq<string> {
    seq(|texts|, i requires 0 <= i < |texts| => Quote(texts[i]))
  }

  /** The six fields of a manifest in their frozen order, around the texts of its environment's pairs. */
  function ManifestText(version: nat, packages: seq<Package>, pairs: seq<string>, tools: seq<string>, pointer: Option<string>,
                        rootHex: string): string
  {
    "{" + Joined(["\"schema_version\":" + Digits(version),
                  "\"packages\":" + ListText(PackageTexts(packages)),
                  "\"env\":" + ("{" + Joined(pairs) + "}"),
                  "\"tools\":" + ListText(QuotedTexts(tools)),
                  "\"memory_pointer\":" + PointerText(pointer),
                  "\"workdir_root_hash\":" + Quote(rootHex)]) + "}"
  }

  function ListText(texts: seq<string>): string {
    "[" + Joined(texts) + "]"
  }

  lemma PackagePrinted(p: Package)
    ensures Print(PackageJson(p)) == PackageText(p)
  {
    var fields := [Field("name", Str(p.name)), Field("version", Str(p.version))];
    var texts := ["\"name\":" + Quote(p.name), "\"version\":" + Quote(p.version)];
    NameField(Str(p.name));
    ReleaseField(Str(p.version));
    StrText(p.name);
    StrText(p.version);
    PackageFields(p);
    PackageTextIs(p);
    hide *;
    FieldTexts(fields, texts);
  }

  lemma NameField(v: Json)
    ensures PrintField(Field("name", v)) == "\"name\":" + Print(v)
  {
    FieldText("name", v, "\"name\":");
  }

  lemma ReleaseField(v: Json)
    ensures PrintField(Field("version", v)) == "\"version\":" + Print(v)
  {
    FieldText("version", v, "\"version\":");
  }

  lemma PackageFields(p: Package)
    ensures PackageJson(p) == Obj([Field("name", Str(p.name)), Field("version", Str(p.version))])
  {
  }

  lemma PackageTextIs(p: Package)
    ensures PackageText(p) == "{" + Joined(["\"name\":" + Quote(p.name), "\"version\":" + Quote(p.version)]) + "}"
  {
    hide Joined, Quote;
  }

  lemma PackagesPrinted(packages: seq<Package>)
    ensures Print(Arr(MapJson(packages, PackageJson))) == "[" + Joined(PackageTexts(packages)) + "]"
  {
    forall i | 0 <= i < |packages| ensures Print(PackageJson(packages[i])) == PackageText(packages[i]) {
      PackagePrinted(packages[i]);
    }
    ArrText(MapJson(packages, PackageJson));
    hide PackageText, PackageJson;
    assert Printed(MapJson(packages, PackageJson)) == PackageTexts(packages);
  }

  lemma TextsPrinted(texts: seq<string>)
    ensures Print(Arr(MapJson(texts, TextJson))) == "[" + Joined(QuotedTexts(texts)) + "]"
  {
    ArrText(MapJson(texts, TextJson));
    forall i | 0 <= i < |texts| ensures Print(TextJson(texts[i])) == Quote(texts[i]) {
      StrText(texts[i]);
    }
    hide Quote, Print, Joined;
    assert Printed(MapJson(texts, TextJson)) == QuotedTexts(texts);
  }

  lemma FieldsPrinted(version: nat, packages: seq<Package>, env: seq<Field>, tools: seq<string>, pointer: Option<string>, rootHex: string)
    ensures Print(Obj(Fields(version, packages, env, tools, pointer, rootHex)))
         == ManifestText(version, packages, PrintedFields(env), tools, pointer, rootHex)
  {
    var v, p, e, t, m, r := Num(version), Arr(MapJson(packages, PackageJson)), Obj(env), Arr(MapJson(tools, TextJson)),
                            PointerJson(pointer), Str(rootHex);
    ValuesPrinted(version, packages, env, tools, pointer, rootHex);
    SixPrinted(v, p, e, t, m, r);
    hide Print, Joined, Quote, PrintedFields, Printed, Digits, ListText, PackageTexts, QuotedTexts, PointerText, MapJson;
  }

  lemma SixPrinted(v: Json, p: Json, e: Json, t: Json, m: Json, r: Json)
    ensures Print(Obj([Field("schema_version", v), Field("packages", p), Field("env", e), Field("tools", t),
                       Field("memory_pointer", m), Field("workdir_root_hash", r)]))
         == "{" + Joined(["\"schema_version\":" + Print(v), "\"packages\":" + Print(p), "\"env\":" + Print(e),
                          "\"tools\":" + Print(t), "\"memory_pointer\":" + Print(m), "\"workdir_root_hash\":" + Print(r)]) + "}"
  {
    var fields := [Field("schema_version", v), Field("packages", p), Field("env", e), Field("tools", t),
                   Field("memory_pointer", m), Field("workdir_root_hash", r)];
    var texts := ["\"schema_version\":" + Print(v), "\"packages\":" + Print(p), "\"env\":" + Print(e),
                  "\"tools\":" + Print(t), "\"memory_pointer\":" + Print(m), "\"workdir_root_hash\":" + Print(r)];
    VersionField(v);
    PackagesField(p);
    EnvField(e);
    ToolsField(t);
    PointerField(m);
    RootField(r);
    hide *;
    FieldTexts(fields, texts);
  }

  lemma VersionField(v: Json)
    ensures PrintField(Field("schema_version", v)) == "\"schema_version\":" + Print(v)
  {
    FieldText("schema_version", v, "\"schema_version\":");
  }

  lemma PackagesField(v: Json)
    ensures PrintField(Field("packages", v)) == "\"packages\":" + Print(v)
  {
    FieldText("packages", v, "\"packages\":");
  }

  lemma EnvField(v: Json)
    ensures PrintField(Field("env", v)) == "\"env\":" + Print(v)
  {
    FieldText("env", v, "\"env\":");
  }

  lemma ToolsField(v: Json)
    ensures PrintField(Field("tools", v)) == "\"tools\":" + Print(v)
  {
    FieldText("tools", v, "\"tools\":");
  }

  lemma PointerField(v: Json)
    ensures PrintField(Field("memory_pointer", v)) == "\"memory_pointer\":" + Print(v)
  {
    FieldText("memory_pointer", v, "\"memory_pointer\":");
  }

  lemma RootField(v: Json)
    ensures PrintField(Field("workdir_root_hash", v)) == "\"workdir_root_hash\":" + Print(v)
  {
    FieldText("workdir_root_hash", v, "\"workdir_root_hash\":");
  }

  lemma FieldTexts(fields: seq<Field>, texts: seq<string>)
    requires |fields| == |texts| && forall i :: 0 <= i < |fields| ==> PrintField(fields[i]) == texts[i]
    ensures Print(Obj(fields)) == "{" + Joined(texts) + "}"
  {
    ObjText(fields);
    hide Joined, Print, PrintField;
    assert PrintedFields(fields) == texts;
  }

  lemma ValuesPrinted(version: nat, packages: seq<Package>, env: seq<Field>, tools: seq<string>, pointer: Option<string>, rootHex: string)
    ensures Print(Num(version)) == Digits(version) && Print(Str(rootHex)) == Quote(rootHex)
    ensures Print(Arr(MapJson(packages, PackageJson))) == ListText(PackageTexts(packages))
    ensures Print(Obj(env)) == "{" + Joined(PrintedFields(env)) + "}"
    ensures Print(Arr(MapJson(tools, TextJson))) == ListText(QuotedTexts(tools))
    ensures Print(PointerJson(pointer)) == PointerText(pointer)
  {
    PackagesPrinted(packages);
    TextsPrinted(tools);
    ObjText(env);
    hide Joined, Quote, PrintedFields, Digits;
  }

  /** The pairs of a map of texts, its keys in order. */
  function EnvPairs(env: map<string, string>, keys: seq<string>): seq<string>
    requires forall k :: k in keys ==> k in env
  {
    seq(|keys|, i requires 0 <= i < |keys| => PairText(keys[i], Quote(env[keys[i]])))
  }

  lemma EnvPrinted(env: map<string, string>, keys: seq<string>)
    requires forall k :: k in keys ==> k in env
    ensures PrintedFields(MapFields(env, keys, TextJson)) == EnvPairs(env, keys)
  {
    forall i | 0 <= i < |keys| ensures PrintField(MapFields(env, keys, TextJson)[i]) == PairText(keys[i], Quote(env[keys[i]])) {
      StrText(env[keys[i]]);
      assert MapFields(env, keys, TextJson)[i] == Field(keys[i], TextJson(env[keys[i]]));
    }
    hide PrintField, PairText, Quote;
  }

  lemma ManifestPrinted(m: Manifest) returns (keys: seq<string>)
    ensures KeysInOrder(keys, m.env.Keys)
    ensures Print(ToJson(m)) == ManifestText(m.schemaVersion, m.packages, EnvPairs(m.env, keys), m.tools, m.memoryPointer,
                                             ToHex(m.workdirRootHash))
  {
    keys := SortSet(ByUtf8, m.env.Keys);
    SortedInOrder(m.env.Keys);
    EnvPrinted(m.env, keys);
    FieldsPrinted(m.schemaVersion, m.packages, EnvFields(m.env), m.tools, m.memoryPointer, ToHex(m.workdirRootHash));
    hide SortSet, Fields, ManifestText, ToHex, Print, KeysInOrder;
  }

  /** The canonical bytes of a manifest are the UTF-8 encoding of this text, the keys of its environment in
    order. */
  lemma ManifestWritten(m: Manifest) returns (keys: seq<string>)
    ensures KeysInOrder(keys, m.env.Keys)
    ensures CanonicalBytes(m) == Encode(ManifestText(m.schemaVersion, m.packages, EnvPairs(m.env, keys), m.tools, m.memoryPointer,
                                                     ToHex(m.workdirRootHash)))
  {
    keys := ManifestPrinted(m);
    hide ToJson, ManifestText, ToHex, Print, KeysInOrder, EnvPairs;
  }

  // ----- a directory node -----

  /** One entry of a node: `kind` first, then what its kind has. */
  function NodeEntryText(e: Entry): string {
    match e
    case FileEntry(mode, hash) => HashedText("\"file\"", mode, hash)
    case DirEntry(mode, hash) => HashedText("\"dir\"", mode, hash)
    case SymlinkEntry(target) => "{" + Joined(["\"kind\":" + "\"symlink\"", "\"target\":" + Quote(target)]) + "}"
  }

  function HashedText(kind: string, mode: nat, hash: Digest): string {
    "{" + Joined(["\"kind\":" + kind, "\"mode\":" + Digits(mode), "\"hash\":" + Quote(ToHex(hash))]) + "}"
  }

  lemma KindField(v: Json)
    ensures PrintField(Field("kind", v)) == "\"kind\":" + Print(v)
  {
    FieldText("kind", v, "\"kind\":");
  }

  lemma ModeField(v: Json)
    ensures PrintField(Field("mode", v)) == "\"mode\":" + Print(v)
  {
    FieldText("mode", v, "\"mode\":");
  }

  lemma HashField(v: Json)
    ensures PrintField(Field("hash", v)) == "\"hash\":" + Print(v)
  {
    FieldText("hash", v, "\"hash\":");
  }

  lemma TargetField(v: Json)
    ensures PrintField(Field("target", v)) == "\"target\":" + Print(v)
  {
    FieldText("target", v, "\"target\":");
  }

  lemma HashedPrinted(kind: string, mode: nat, hash: Digest)
    ensures Print(Obj(HashedFields(kind, mode, hash))) == HashedText(Quote(kind), mode, hash)
  {
    var texts := ["\"kind\":" + Quote(kind), "\"mode\":" + Digits(mode), "\"hash\":" + Quote(ToHex(hash))];
    KindField(Str(kind));
    ModeField(Num(mode));
    HashField(Str(ToHex(hash)));
    StrText(kind);
    StrText(ToHex(hash));
    NumText(mode);
    hide PrintField, Print, Quote, Digits, Joined, ToHex;
    FieldTexts(HashedFields(kind, mode, hash), texts);
  }

  lemma NumText(n: nat)
    ensures Print(Num(n)) == Digits(n)
  {
  }

  lemma FileKind()
    ensures Quote("file") == "\"file\""
  {
    QuotePlain("file");
    hide *;
  }

  lemma DirKind()
    ensures Quote("dir") == "\"dir\""
  {
    QuotePlain("dir");
    hide *;
  }

  lemma LinkKind()
    ensures Quote("symlink") == "\"symlink\""
  {
    QuotePlain("symlink");
    hide *;
  }

  lemma LinkPrinted(target: string)
    ensures Print(EntryJson(SymlinkEntry(target))) == NodeEntryText(SymlinkEntry(target))
  {
    var fields := [Field("kind", Str("symlink")), Field("target", Str(target))];
    var texts := ["\"kind\":" + "\"symlink\"", "\"target\":" + Quote(target)];
    KindField(Str("symlink"));
    TargetField(Str(target));
    LinkKind();
    StrText("symlink");
    StrText(target);
    hide PrintField, Print, Quote, Joined;
    FieldTexts(fields, texts);
  }

  lemma EntryPrinted(e: Entry)
    ensures Print(EntryJson(e)) == NodeEntryText(e)
  {
    hide Print, Quote, HashedText, HashedFields, Joined;
    match e
    case FileEntry(mode, hash) =>
      FileKind();
      HashedPrinted("file", mode, hash);
    case DirEntry(mode, hash) =>
      DirKind();
      HashedPrinted("dir", mode, hash);
    case SymlinkEntry(target) => LinkPrinted(target);
  }

  function NodePairs(node: DirNode, keys: seq<string>): seq<string>
    requires forall k :: k in keys ==> k in node
  {
    seq(|keys|, i requires 0 <= i < |keys| => PairText(keys[i], NodeEntryText(node[keys[i]])))
  }

  /** The bytes of a directory node are the UTF-8 encoding of this text, its names in order. */
  lemma NodeWritten(node: DirNode) returns (keys: seq<string>)
    ensures KeysInOrder(keys, node.Keys)
    ensures NodeBytes(node) == Encode("{" + Joined(NodePairs(node, keys)) + "}")
  {
    keys := SortSet(ByUtf8, node.Keys);
    SortedInOrder(node.Keys);
    var fields := MapFields(node, keys, EntryJson);
    forall i | 0 <= i < |keys| ensures PrintField(fields[i]) == NodePairs(node, keys)[i] {
      assert fields[i] == Field(keys[i], EntryJson(node[keys[i]]));
      EntryPrinted(node[keys[i]]);
    }
    hide PrintField, PairText, Quote, NodeEntryText, EntryJson, SortSet, KeysInOrder, Joined, Print;
    FieldTexts(fields, NodePairs(node, keys));
  }

  // ----- a bundle -----

  function ObjectText(o: BundleObject): string {
    "{" + Joined(["\"hash\":" + Quote(o.hash), "\"data\":" + Quote(o.data)]) + "}"
  }

  function ObjectTexts(objects: seq<BundleObject>): seq<string> {
    seq(|objects|, i requires 0 <= i < |objects| => ObjectText(objects[i]))
  }

  lemma DataField(v: Json)
    ensures PrintField(Field("data", v)) == "\"data\":" + Print(v)
  {
    FieldText("data", v, "\"data\":");
  }

  lemma ManifestField(v: Json)
    ensures PrintField(Field("manifest", v)) == "\"manifest\":" + Print(v)
  {
    FieldText("manifest", v, "\"manifest\":");
  }

  lemma ObjectsField(v: Json)
    ensures PrintField(Field("objects", v)) == "\"objects\":" + Print(v)
  {
    FieldText("objects", v, "\"objects\":");
  }

  lemma ObjectPrinted(o: BundleObject)
    ensures Print(ObjectJson(o)) == ObjectText(o)
  {
    var fields := [Field("hash", Str(o.hash)), Field("data", Str(o.data))];
    var texts := ["\"hash\":" + Quote(o.hash), "\"data\":" + Quote(o.data)];
    HashField(Str(o.hash));
    DataField(Str(o.data));
    StrText(o.hash);
    StrText(o.data);
    hide PrintField, Print, Quote, Joined;
    FieldTexts(fields, texts);
  }

  lemma ObjectsPrinted(objects: seq<BundleObject>)
    ensures Print(Arr(MapJson(objects, ObjectJson))) == ListText(ObjectTexts(objects))
  {
    ArrText(MapJson(objects, ObjectJson));
    forall i | 0 <= i < |objects| ensures Print(ObjectJson(objects[i])) == ObjectText(objects[i]) {
      ObjectPrinted(objects[i]);
    }
    hide Print, Joined, ObjectText, ObjectJson;
    assert Printed(MapJson(objects, ObjectJson)) == ObjectTexts(objects);
  }

  /** The bytes of a bundle are the UTF-8 encoding of this text, around the canonical text of its manifest. */
  lemma BundleWritten(b: BundleFile) returns (keys: seq<string>)
    ensures KeysInOrder(keys, b.manifest.env.Keys)
    ensures var m := b.manifest;
            FileBytes(b) ==
            Encode("{" + Joined(["\"schema_version\":" + Digits(b.schemaVersion),
                                 "\"manifest\":" + ManifestText(m.schemaVersion, m.packages, EnvPairs(m.env, keys), m.tools, m.memoryPointer,
                                                                ToHex(m.workdirRootHash)),
                                 "\"objects\":" + ListText(ObjectTexts(b.objects))]) + "}")
  {
    var m := b.manifest;
    keys := ManifestPrinted(m);
    ThreePrinted(Num(b.schemaVersion), ToJson(m), Arr(MapJson(b.objects, ObjectJson)));
    NumText(b.schemaVersion);
    ObjectsPrinted(b.objects);
    hide Print, Joined, Digits, ToJson, ManifestText, ListText, ObjectTexts, MapJson, ToHex, EnvPairs, KeysInOrder;
  }

  /** Bytes before bytes: the smaller byte at the first place they differ. */
  ghost predicate BytesBefore(a: Bytes, b: Bytes) {
    exists k :: 0 <= k < |a| && k < |b| && a[..k] == b[..k] && a[k] < b[k]
  }

  lemma BytesBeforeIs(a: Digest, b: Digest)
    requires LexLe(a, b) && a != b
    ensures BytesBefore(a, b)
  {
    var k := 0;
    assert a == a[..32] && b == b[..32];
    while k < 32 && a[k] == b[k]
      invariant k <= 32 && a[..k] == b[..k]
    {
      k := k + 1;
    }
    LexFirstDifference(a, b, k);
  }

  /** The objects of a packed bundle: each object of the store once, in the order of the digests, both in hex. */
  lemma ObjectsListed(objs: Objects) returns (digests: seq<Digest>)
    ensures forall d: Digest :: d in objs <==> d in digests
    ensures forall i, j :: 0 <= i < j < |digests| ==> BytesBefore(digests[i], digests[j])
    ensures var list := EncodeItems(SortedItems(objs));
            && |list| == |digests|
            && forall i :: 0 <= i < |digests| ==> list[i] == BundleObject(ToHex(digests[i]), ToHex(objs[digests[i]]))
  {
    var items := SortedItems(objs);
    digests := seq(|items|, i requires 0 <= i < |items| => items[i].hash);
    assert forall i :: 0 <= i < |items| ==> items[i] in items && digests[i] == items[i].hash;
    forall d: Digest ensures d in objs <==> d in digests {
      if d in objs {
        assert Item(d, objs[d]) in items;
      }
    }
    hide SortedItems, ToHex;
    forall i, j | 0 <= i < j < |digests| ensures BytesBefore(digests[i], digests[j]) {
      assert ByHash(items[i], items[j]) && items[i] != items[j];
      assert items[i].data == objs[digests[i]] && items[j].data == objs[digests[j]];
      BytesBeforeIs(digests[i], digests[j]);
    }
  }

  lemma ThreePrinted(v: Json, m: Json, o: Json)
    ensures Print(Obj([Field("schema_version", v), Field("manifest", m), Field("objects", o)]))
         == "{" + Joined(["\"schema_version\":" + Print(v), "\"manifest\":" + Print(m), "\"objects\":" + Print(o)]) + "}"
  {
    var fields := [Field("schema_version", v), Field("manifest", m), Field("objects", o)];
    var texts := ["\"schema_version\":" + Print(v), "\"manifest\":" + Print(m), "\"objects\":" + Print(o)];
    VersionField(v);
    ManifestField(m);
    ObjectsField(o);
    hide *;
    FieldTexts(fields, texts);
  }
}
