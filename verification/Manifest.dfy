/** The checkpoint manifest: the engine's `Manifest::new` and `canonical_bytes`, and the
  verifier's independent encoder `canonicalManifestBytes`. */
module ManifestFormat {
  import opened Bytes
  import opened Sorting
  import opened JsonText
  import opened JsonFields
  import opened Utf8

  const SCHEMA_VERSION: nat := 1
  const REDACTED: string := "<redacted>"

  datatype Package = Package(name: string, version: string)

  datatype EnvironmentInputs = EnvironmentInputs(
    packages: seq<Package>, env: map<string, string>, tools: seq<string>, memoryPointer: Option<string>)

  datatype Manifest = Manifest(
    schemaVersion: nat, packages: seq<Package>, env: map<string, string>, tools: seq<string>,
    memoryPointer: Option<string>, workdirRootHash: Digest)

  // ----- normalisation -----

  predicate ByNameVersion(a: Package, b: Package) {
    if a.name == b.name then ByUtf8(a.version, b.version) else ByUtf8(a.name, b.name)
  }

  lemma ByNameVersionTotal()
    ensures TotalOrder(ByNameVersion)
  {
    ByUtf8Total();
    forall a: Package, b: Package, c: Package | ByNameVersion(a, b) && ByNameVersion(b, c)
      ensures ByNameVersion(a, c)
    {
      if a.name != b.name && b.name != c.name {
        assert ByUtf8(a.name, c.name);
      }
    }
  }

  function Lower(s: string): string {
    seq(|s|, i requires 0 <= i < |s| =>
      if 'A' <= s[i] <= 'Z' then (s[i] as int + 32) as char else s[i])
  }

  predicate Contains(s: string, p: string) {
    p <= s || (s != "" && Contains(s[1..], p))
  }

  predicate IsSecretKey(key: string) {
    exists p :: p in ["secret", "token", "password", "key", "credential"] && Contains(Lower(key), p)
  }

  function Redact(env: map<string, string>): map<string, string> {
    map k | k in env :: if IsSecretKey(k) then REDACTED else env[k]
  }

  function New(inputs: EnvironmentInputs, root: Digest): Manifest {
    Manifest(SCHEMA_VERSION, Sort(ByNameVersion, inputs.packages), Redact(inputs.env),
             Dedup(Sort(ByUtf8, inputs.tools)), inputs.memoryPointer, root)
  }

  // ----- the engine's encoding -----

  function PackageJson(p: Package): Json {
    Obj([Field("name", Str(p.name)), Field("version", Str(p.version))])
  }

  function PointerJson(pointer: Option<string>): Json {
    match pointer
    case None => Null
    case Some(s) => Str(s)
  }

  function TextJson(s: string): Json {
    Str(s)
  }

  /** The six fields in canonical order. */
  function Fields(
    schemaVersion: nat, packages: seq<Package>, env: seq<Field>, tools: seq<string>,
    memoryPointer: Option<string>, rootHex: string): seq<Field>
  {
    [Field("schema_version", Num(schemaVersion)),
     Field("packages", Arr(MapJson(packages, PackageJson))),
     Field("env", Obj(env)),
     Field("tools", Arr(MapJson(tools, TextJson))),
     Field("memory_pointer", PointerJson(memoryPointer)),
     Field("workdir_root_hash", Str(rootHex))]
  }

  ghost function EnvFields(env: map<string, string>): seq<Field> {
    SortedFields(env, TextJson)
  }

  ghost function ToJson(m: Manifest): Json {
    Obj(Fields(m.schemaVersion, m.packages, EnvFields(m.env), m.tools, m.memoryPointer, ToHex(m.workdirRootHash)))
  }

  ghost function CanonicalBytes(m: Manifest): Bytes {
    ToBytes(ToJson(m))
  }

  // ----- reading a manifest -----

  function ReadPackage(v: Json): Option<Package> {
    match v
    case Obj(fields) =>
      (match (AsText(Lookup(fields, "name")), AsText(Lookup(fields, "version")))
       case (Some(name), Some(version)) => Some(Package(name, version))
       case _ => None)
    case _ => None
  }

  function ReadText'(v: Json): Option<string> {
    AsText(Some(v))
  }

  /** `Option<String>`: a missing field reads like `null`. */
  function ReadPointer(fields: seq<Field>): Option<Option<string>> {
    if Absent(fields, "memory_pointer") then Some(None)
    else
      match Lookup(fields, "memory_pointer")
      case Some(Null) => Some(None)
      case Some(Str(s)) => Some(Some(s))
      case _ => None
  }

  function ReadEnv(v: Option<Json>): Option<map<string, string>> {
    match v
    case Some(Obj(fields)) => CollectMapFields(fields, ReadText')
    case _ => None
  }

  function ReadList<T>(v: Option<Json>, f: Json -> Option<T>): Option<seq<T>> {
    match v
    case Some(Arr(items)) => Collect(items, f)
    case _ => None
  }

  function Build(
    version: Option<nat>, packages: Option<seq<Package>>, env: Option<map<string, string>>,
    tools: Option<seq<string>>, pointer: Option<Option<string>>, root: Option<Digest>): Option<Manifest>
  {
    match (version, packages, env, tools, pointer, root)
    case (Some(v), Some(p), Some(e), Some(t), Some(mp), Some(r)) => Some(Manifest(v, p, e, t, mp, r))
    case _ => None
  }

  function FromJson(v: Json): Option<Manifest> {
    match v
    case Obj(fields) =>
      Build(AsU32(Lookup(fields, "schema_version")),
            ReadList(Lookup(fields, "packages"), ReadPackage),
            ReadEnv(Lookup(fields, "env")),
            ReadList(Lookup(fields, "tools"), ReadText'),
            ReadPointer(fields),
            AsDigest(Lookup(fields, "workdir_root_hash")))
    case _ => None
  }

  lemma PackageRoundTrip(p: Package)
    ensures ReadPackage(PackageJson(p)) == Some(p)
  {
    var fields := [Field("name", Str(p.name)), Field("version", Str(p.version))];
    LookupAt(fields, 0);
    LookupAt(fields, 1);
  }

  lemma FieldsDistinct(v: nat, p: seq<Package>, e: seq<Field>, t: seq<string>, mp: Option<string>, r: string, i: nat)
    requires i < 6
    ensures IsOnly(Fields(v, p, e, t, mp, r), i)
  {
    var fields := Fields(v, p, e, t, mp, r);
    assert fields[0].key[0] == 's' && fields[1].key[0] == 'p' && fields[2].key[0] == 'e';
    assert fields[3].key[0] == 't' && fields[4].key[0] == 'm' && fields[5].key[0] == 'w';
  }

  lemma FieldLookups(v: nat, p: seq<Package>, e: seq<Field>, t: seq<string>, mp: Option<string>, r: string)
    ensures var fields := Fields(v, p, e, t, mp, r);
            && Lookup(fields, "schema_version") == Some(Num(v))
            && Lookup(fields, "packages") == Some(Arr(MapJson(p, PackageJson)))
            && Lookup(fields, "env") == Some(Obj(e))
            && Lookup(fields, "tools") == Some(Arr(MapJson(t, TextJson)))
            && Lookup(fields, "memory_pointer") == Some(PointerJson(mp))
            && Lookup(fields, "workdir_root_hash") == Some(Str(r))
            && !Absent(fields, "memory_pointer")
  {
    var fields := Fields(v, p, e, t, mp, r);
    forall i: nat | i < 6 ensures Lookup(fields, fields[i].key) == Some(fields[i].value) {
      FieldsDistinct(v, p, e, t, mp, r, i);
      LookupAt(fields, i);
    }
    assert fields[0].key == "schema_version" && fields[1].key == "packages" && fields[2].key == "env";
    assert fields[3].key == "tools" && fields[4].key == "memory_pointer" && fields[5].key == "workdir_root_hash";
  }

  lemma ReadParts(m: Manifest, env: seq<Field>)
    requires env == EnvFields(m.env) && m.schemaVersion < 0x1_0000_0000
    ensures Build(AsU32(Some(Num(m.schemaVersion))),
                  ReadList(Some(Arr(MapJson(m.packages, PackageJson))), ReadPackage),
                  ReadEnv(Some(Obj(env))),
                  ReadList(Some(Arr(MapJson(m.tools, TextJson))), ReadText'),
                  Some(m.memoryPointer),
                  AsDigest(Some(Str(ToHex(m.workdirRootHash))))) == Some(m)
  {
    ListsRoundTrip(m.packages, m.tools);
    EnvRoundTrip(m.env);
    DigestHexRoundTrip(m.workdirRootHash);
  }

  /** Reading canonical text gives the manifest back. */
  lemma JsonRoundTrip(m: Manifest)
    requires m.schemaVersion < 0x1_0000_0000
    ensures FromJson(ToJson(m)) == Some(m)
  {
    var env, rootHex := EnvFields(m.env), ToHex(m.workdirRootHash);
    ReadParts(m, env);
    FieldLookups(m.schemaVersion, m.packages, env, m.tools, m.memoryPointer, rootHex);
    FromLookups(Fields(m.schemaVersion, m.packages, env, m.tools, m.memoryPointer, rootHex), m, env, rootHex);
  }

  lemma FromLookups(fields: seq<Field>, m: Manifest, env: seq<Field>, rootHex: string)
    requires Lookup(fields, "schema_version") == Some(Num(m.schemaVersion))
    requires Lookup(fields, "packages") == Some(Arr(MapJson(m.packages, PackageJson)))
    requires Lookup(fields, "env") == Some(Obj(env))
    requires Lookup(fields, "tools") == Some(Arr(MapJson(m.tools, TextJson)))
    requires Lookup(fields, "memory_pointer") == Some(PointerJson(m.memoryPointer)) && !Absent(fields, "memory_pointer")
    requires Lookup(fields, "workdir_root_hash") == Some(Str(rootHex))
    ensures FromJson(Obj(fields)) ==
            Build(AsU32(Some(Num(m.schemaVersion))),
                  ReadList(Some(Arr(MapJson(m.packages, PackageJson))), ReadPackage),
                  ReadEnv(Some(Obj(env))),
                  ReadList(Some(Arr(MapJson(m.tools, TextJson))), ReadText'),
                  Some(m.memoryPointer),
                  AsDigest(Some(Str(rootHex))))
  {
  }

  lemma ListsRoundTrip(packages: seq<Package>, tools: seq<string>)
    ensures Collect(MapJson(packages, PackageJson), ReadPackage) == Some(packages)
    ensures Collect(MapJson(tools, TextJson), ReadText') == Some(tools)
  {
    forall p ensures ReadPackage(PackageJson(p)) == Some(p) {
      PackageRoundTrip(p);
    }
    CollectMap(packages, PackageJson, ReadPackage);
    CollectMap(tools, TextJson, ReadText');
  }

  lemma EnvRoundTrip(env: map<string, string>)
    ensures CollectMapFields(EnvFields(env), ReadText') == Some(env)
  {
    SortedFieldsRoundTrip(env, TextJson, ReadText');
  }

  lemma CanonicalInjective(a: Manifest, b: Manifest)
    requires a.schemaVersion == b.schemaVersion == SCHEMA_VERSION
    requires CanonicalBytes(a) == CanonicalBytes(b)
    ensures a == b
  {
    JsonTextRoundTrip(ToJson(a));
    JsonTextRoundTrip(ToJson(b));
    JsonRoundTrip(a);
    JsonRoundTrip(b);
  }

  // ----- what the canonical bytes determine, and what determines them -----

  lemma ToolsDetermined(a: seq<string>, b: seq<string>)
    ensures Dedup(Sort(ByUtf8, a)) == Dedup(Sort(ByUtf8, b)) <==> Elements(a) == Elements(b)
  {
    ByUtf8Total();
    SortSorts(ByUtf8, a);
    SortSorts(ByUtf8, b);
    SameMembers(a, Sort(ByUtf8, a));
    SameMembers(b, Sort(ByUtf8, b));
    DedupSorted(ByUtf8, Sort(ByUtf8, a));
    DedupSorted(ByUtf8, Sort(ByUtf8, b));
    assert Elements(Sort(ByUtf8, a)) == Elements(a) && Elements(Sort(ByUtf8, b)) == Elements(b);
    if Elements(a) == Elements(b) {
      StrictUnique(ByUtf8, Dedup(Sort(ByUtf8, a)), Dedup(Sort(ByUtf8, b)));
    }
  }

  /** Two environments get the same canonical bytes exactly when they have the same package
    multiset, tool set, redacted variables, memory pointer and root. In particular the value of
    a secret variable never reaches the bytes. */
  lemma CanonicalBytesDetermine(a: EnvironmentInputs, b: EnvironmentInputs, ra: Digest, rb: Digest)
    ensures CanonicalBytes(New(a, ra)) == CanonicalBytes(New(b, rb)) <==>
            && multiset(a.packages) == multiset(b.packages)
            && Elements(a.tools) == Elements(b.tools)
            && Redact(a.env) == Redact(b.env)
            && a.memoryPointer == b.memoryPointer
            && ra == rb
  {
    ByNameVersionTotal();
    SortDeterminedByContents(ByNameVersion, a.packages, b.packages);
    ToolsDetermined(a.tools, b.tools);
    if CanonicalBytes(New(a, ra)) == CanonicalBytes(New(b, rb)) {
      CanonicalInjective(New(a, ra), New(b, rb));
    }
  }

  lemma SecretsRedacted(a: map<string, string>, b: map<string, string>)
    requires a.Keys == b.Keys
    ensures Redact(a) == Redact(b) <==> forall k :: k in a && !IsSecretKey(k) ==> a[k] == b[k]
  {
    if Redact(a) == Redact(b) {
      forall k | k in a && !IsSecretKey(k) ensures a[k] == b[k] {
        assert Redact(a)[k] == Redact(b)[k];
      }
    }
  }

  /** Normalising a normalised environment changes nothing. */
  lemma NewIdempotent(inputs: EnvironmentInputs, root: Digest)
    ensures var m := New(inputs, root);
            New(EnvironmentInputs(m.packages, m.env, m.tools, m.memoryPointer), root) == m
  {
    var m := New(inputs, root);
    ByNameVersionTotal();
    SortDeterminedByContents(ByNameVersion, m.packages, inputs.packages);
    ByUtf8Total();
    SortSorts(ByUtf8, inputs.tools);
    DedupSorted(ByUtf8, Sort(ByUtf8, inputs.tools));
    SameMembers(inputs.tools, Sort(ByUtf8, inputs.tools));
    assert Elements(Sort(ByUtf8, inputs.tools)) == Elements(inputs.tools);
    ToolsDetermined(m.tools, inputs.tools);
    assert Redact(m.env) == m.env;
  }
}
