/** What the engine's files read as, field by field: a directory node, a manifest, a bundle. A field must occur
  exactly once, fields it does not know are skipped, and in a map the last of several equal keys counts. */
module Reading {
  import opened Bytes
  import opened JsonText
  import opened JsonFields
  import opened Snapshot
  import opened ManifestFormat
  import opened Bundle

  // ----- fields -----

  ghost predicate OnlyAt(fields: seq<Field>, key: string, v: Json, i: int) {
    && 0 <= i < |fields| && fields[i].key == key && fields[i].value == v
    && forall j :: 0 <= j < |fields| && j != i ==> fields[j].key != key
  }

  ghost predicate Only(fields: seq<Field>, key: string, v: Json) {
    exists i :: OnlyAt(fields, key, v, i)
  }

  lemma {:induction false} LookupIs(fields: seq<Field>, key: string, v: Json)
    ensures Lookup(fields, key) == Some(v) <==> Only(fields, key, v)
  {
    if fields != [] {
      LookupIs(fields[1..], key, v);
      OnlyStep(fields, key, v);
      hide Only;
    }
  }

  lemma OnlyStep(fields: seq<Field>, key: string, v: Json)
    requires fields != []
    ensures Only(fields, key, v) <==>
            if fields[0].key == key then fields[0].value == v && Absent(fields[1..], key) else Only(fields[1..], key, v)
  {
    var rest := fields[1..];
    assert forall i :: 0 <= i < |rest| ==> rest[i] == fields[i + 1];
    if Only(fields, key, v) {
      var i :| OnlyAt(fields, key, v, i);
      if i > 0 {
        assert OnlyAt(rest, key, v, i - 1);
      }
    }
    if fields[0].key == key && fields[0].value == v && Absent(rest, key) {
      assert OnlyAt(fields, key, v, 0);
    }
    if fields[0].key != key && Only(rest, key, v) {
      var i :| OnlyAt(rest, key, v, i);
      assert OnlyAt(fields, key, v, i + 1);
    }
  }

  /** The last field with this key. */
  ghost predicate LastField(fields: seq<Field>, key: string, i: int) {
    0 <= i < |fields| && fields[i].key == key && forall j :: i < j < |fields| ==> fields[j].key != key
  }

  ghost predicate Under<T>(fields: seq<Field>, f: Json -> Option<T>, key: string, x: T) {
    exists i :: LastField(fields, key, i) && f(fields[i].value) == Some(x)
  }

  /** An object as a map: every value must read, and under each key is what the last field with it reads as. */
  ghost predicate MapReads<T>(fields: seq<Field>, f: Json -> Option<T>, m: map<string, T>) {
    && (forall i :: 0 <= i < |fields| ==> f(fields[i].value).Some? && fields[i].key in m)
    && (forall k :: k in m ==> Under(fields, f, k, m[k]))
  }

  lemma UnderOne<T>(fields: seq<Field>, f: Json -> Option<T>, key: string, x: T, y: T)
    requires Under(fields, f, key, x) && Under(fields, f, key, y)
    ensures x == y && exists i :: 0 <= i < |fields| && fields[i].key == key
  {
    var i :| LastField(fields, key, i) && f(fields[i].value) == Some(x);
    var j :| LastField(fields, key, j) && f(fields[j].value) == Some(y);
    assert i == j;
  }

  lemma UnderStep<T>(fields: seq<Field>, f: Json -> Option<T>, key: string, x: T)
    requires fields != []
    requires var last := fields[|fields| - 1];
             if last.key == key then f(last.value) == Some(x) else Under(fields[..|fields| - 1], f, key, x)
    ensures Under(fields, f, key, x)
  {
    var n := |fields| - 1;
    if fields[n].key == key {
      assert LastField(fields, key, n);
    } else {
      var i :| LastField(fields[..n], key, i) && f(fields[..n][i].value) == Some(x);
      assert fields[..n][i] == fields[i] && forall j :: 0 <= j < n ==> fields[..n][j] == fields[j];
      assert LastField(fields, key, i);
    }
  }

  lemma {:induction false} MapRead<T>(fields: seq<Field>, f: Json -> Option<T>)
    ensures CollectMapFields(fields, f).Some? <==> forall i :: 0 <= i < |fields| ==> f(fields[i].value).Some?
    ensures CollectMapFields(fields, f).Some? ==> MapReads(fields, f, CollectMapFields(fields, f).value)
  {
    hide Under;
    if fields != [] {
      var n := |fields| - 1;
      var front, all := CollectMapFields(fields[..n], f), CollectMapFields(fields, f);
      MapRead(fields[..n], f);
      assert forall i :: 0 <= i < n ==> fields[..n][i] == fields[i];
      if all.Some? {
        assert all.value == front.value[fields[n].key := f(fields[n].value).value];
        forall k | k in all.value ensures Under(fields, f, k, all.value[k]) {
          UnderStep(fields, f, k, all.value[k]);
        }
      }
    }
  }

  lemma MapReadUnique<T>(fields: seq<Field>, f: Json -> Option<T>, m: map<string, T>)
    requires MapReads(fields, f, m)
    ensures CollectMapFields(fields, f) == Some(m)
  {
    MapRead(fields, f);
    hide Under, CollectMapFields;
    var r := CollectMapFields(fields, f).value;
    forall k ensures k in m <==> k in r {
      if k in m {
        UnderOne(fields, f, k, m[k], m[k]);
      }
      if k in r {
        UnderOne(fields, f, k, r[k], r[k]);
      }
    }
    forall k | k in m ensures m[k] == r[k] {
      UnderOne(fields, f, k, m[k], r[k]);
    }
    assert m == r;
  }

  // ----- a directory node -----

  ghost predicate TextField(fields: seq<Field>, key: string, text: string) {
    Only(fields, key, Str(text))
  }

  ghost predicate DigestField(fields: seq<Field>, key: string, d: Digest) {
    exists text :: TextField(fields, key, text) && Spells(text, d)
  }

  ghost predicate NumberField(fields: seq<Field>, key: string, n: nat) {
    Only(fields, key, Num(n)) && n <= 0xFFFF_FFFF
  }

  ghost predicate EntryReads(v: Json, e: Entry) {
    && v.Obj?
    && match e
       case FileEntry(mode, hash) => TextField(v.fields, "kind", "file") && NumberField(v.fields, "mode", mode) && DigestField(v.fields, "hash", hash)
       case DirEntry(mode, hash) => TextField(v.fields, "kind", "dir") && NumberField(v.fields, "mode", mode) && DigestField(v.fields, "hash", hash)
       case SymlinkEntry(target) => TextField(v.fields, "kind", "symlink") && TextField(v.fields, "target", target)
  }

  lemma TextRead(fields: seq<Field>, key: string, text: string)
    ensures AsText(Lookup(fields, key)) == Some(text) <==> TextField(fields, key, text)
  {
    LookupIs(fields, key, Str(text));
    hide Lookup, Only;
  }

  lemma NumberRead(fields: seq<Field>, key: string, n: nat)
    ensures AsU32(Lookup(fields, key)) == Some(n) <==> NumberField(fields, key, n)
  {
    LookupIs(fields, key, Num(n));
    hide Lookup, Only;
  }

  lemma DigestRead(fields: seq<Field>, key: string, d: Digest)
    ensures AsDigest(Lookup(fields, key)) == Some(d) <==> DigestField(fields, key, d)
  {
    hide Lookup, FromHex, Spells, TextField;
    forall text ensures AsText(Lookup(fields, key)) == Some(text) <==> TextField(fields, key, text) {
      TextRead(fields, key, text);
    }
    forall text ensures FromHex(text) == Some(d) <==> Spells(text, d) {
      HexRead(text, d);
    }
  }

  lemma KindsDiffer()
    ensures "file" != "symlink" && "dir" != "symlink" && "file" != "dir"
  {
    assert |"file"| == 4 && |"dir"| == 3 && |"symlink"| == 7;
  }

  lemma EntryRead(v: Json, e: Entry)
    ensures ReadEntry(v) == Some(e) <==> EntryReads(v, e)
  {
    KindsDiffer();
    if v.Obj? {
      var fields := v.fields;
      TextRead(fields, "kind", "file");
      TextRead(fields, "kind", "dir");
      TextRead(fields, "kind", "symlink");
      match e {
        case FileEntry(mode, hash) =>
          NumberRead(fields, "mode", mode);
          DigestRead(fields, "hash", hash);
        case DirEntry(mode, hash) =>
          NumberRead(fields, "mode", mode);
          DigestRead(fields, "hash", hash);
        case SymlinkEntry(target) =>
          TextRead(fields, "target", target);
      }
      hide Lookup, TextField, NumberField, DigestField, AsText, AsU32, AsDigest;
    }
  }

  /** What a directory node reads as. */
  lemma NodeRead(bytes: Bytes, node: DirNode)
    ensures ReadNode(bytes) == Some(node) <==>
            exists fields :: FromBytes(bytes) == Some(Obj(fields)) && MapReads(fields, ReadEntry, node)
  {
    if FromBytes(bytes).Some? && FromBytes(bytes).value.Obj? {
      var fields := FromBytes(bytes).value.fields;
      MapRead(fields, ReadEntry);
      if MapReads(fields, ReadEntry, node) {
        MapReadUnique(fields, ReadEntry, node);
      }
    }
    hide FromBytes, MapReads, CollectMapFields;
  }

  // ----- a manifest -----

  ghost predicate ListReads<T>(v: Json, f: Json -> Option<T>, xs: seq<T>) {
    v.Arr? && |v.items| == |xs| && forall i :: 0 <= i < |xs| ==> f(v.items[i]) == Some(xs[i])
  }

  lemma {:induction false} ListRead<T>(items: seq<Json>, f: Json -> Option<T>, xs: seq<T>)
    ensures Collect(items, f) == Some(xs) <==> ListReads(Arr(items), f, xs)
  {
    if items != [] && xs != [] {
      ListRead(items[1..], f, xs[1..]);
      assert xs == [xs[0]] + xs[1..];
      assert forall i :: 1 <= i < |items| ==> items[i] == items[1..][i - 1];
      assert forall i :: 1 <= i < |xs| ==> xs[i] == xs[1..][i - 1];
    }
  }

  ghost predicate PackageReads(v: Json, p: Package) {
    v.Obj? && TextField(v.fields, "name", p.name) && TextField(v.fields, "version", p.version)
  }

  lemma PackageRead(v: Json, p: Package)
    ensures ReadPackage(v) == Some(p) <==> PackageReads(v, p)
  {
    if v.Obj? {
      TextRead(v.fields, "name", p.name);
      TextRead(v.fields, "version", p.version);
      hide Lookup, TextField, AsText;
    }
  }

  /** No pointer is a missing field or a null. */
  ghost predicate PointerReads(fields: seq<Field>, pointer: Option<string>) {
    match pointer
    case None => (forall i :: 0 <= i < |fields| ==> fields[i].key != "memory_pointer") || Only(fields, "memory_pointer", Null)
    case Some(text) => TextField(fields, "memory_pointer", text)
  }

  lemma PointerRead(fields: seq<Field>, pointer: Option<string>)
    ensures ReadPointer(fields) == Some(pointer) <==> PointerReads(fields, pointer)
  {
    LookupIs(fields, "memory_pointer", Null);
    if pointer.Some? {
      LookupIs(fields, "memory_pointer", Str(pointer.value));
    }
    if Absent(fields, "memory_pointer") {
      AbsentLookup(fields, "memory_pointer");
    }
    hide Lookup;
  }

  lemma AbsentLookup(fields: seq<Field>, key: string)
    requires Absent(fields, key)
    ensures forall v :: !Only(fields, key, v)
  {
  }

  ghost predicate ListField<T>(fields: seq<Field>, key: string, f: Json -> Option<T>, xs: seq<T>) {
    exists v :: Only(fields, key, v) && ListReads(v, f, xs)
  }

  lemma ListFieldRead<T>(fields: seq<Field>, key: string, f: Json -> Option<T>, xs: seq<T>)
    ensures ReadList(Lookup(fields, key), f) == Some(xs) <==> ListField(fields, key, f, xs)
  {
    var v := Lookup(fields, key);
    forall w ensures v == Some(w) <==> Only(fields, key, w) {
      LookupIs(fields, key, w);
    }
    if v.Some? && v.value.Arr? {
      ListRead(v.value.items, f, xs);
    }
    hide Lookup, Only, Collect;
  }

  ghost predicate EnvField(fields: seq<Field>, env: map<string, string>) {
    exists inner :: Only(fields, "env", Obj(inner)) && MapReads(inner, ReadText', env)
  }

  lemma EnvFieldRead(fields: seq<Field>, env: map<string, string>)
    ensures ReadEnv(Lookup(fields, "env")) == Some(env) <==> EnvField(fields, env)
  {
    var v := Lookup(fields, "env");
    forall w ensures v == Some(w) <==> Only(fields, "env", w) {
      LookupIs(fields, "env", w);
    }
    if v.Some? && v.value.Obj? {
      MapRead(v.value.fields, ReadText');
      if MapReads(v.value.fields, ReadText', env) {
        MapReadUnique(v.value.fields, ReadText', env);
      }
    }
    hide Lookup, Only, MapReads, CollectMapFields;
  }

  ghost predicate ManifestReads(v: Json, m: Manifest) {
    && v.Obj?
    && NumberField(v.fields, "schema_version", m.schemaVersion)
    && ListField(v.fields, "packages", ReadPackage, m.packages)
    && EnvField(v.fields, m.env)
    && ListField(v.fields, "tools", ReadText', m.tools)
    && PointerReads(v.fields, m.memoryPointer)
    && DigestField(v.fields, "workdir_root_hash", m.workdirRootHash)
  }

  /** What a manifest reads as. */
  lemma ManifestRead(v: Json, m: Manifest)
    ensures FromJson(v) == Some(m) <==> ManifestReads(v, m)
  {
    if v.Obj? {
      NumberRead(v.fields, "schema_version", m.schemaVersion);
      ListFieldRead(v.fields, "packages", ReadPackage, m.packages);
      EnvFieldRead(v.fields, m.env);
      ListFieldRead(v.fields, "tools", ReadText', m.tools);
      PointerRead(v.fields, m.memoryPointer);
      DigestRead(v.fields, "workdir_root_hash", m.workdirRootHash);
      hide Lookup, NumberField, ListField, EnvField, PointerReads, DigestField, AsU32, ReadList, ReadEnv, ReadPointer, AsDigest;
    }
  }

  // ----- a bundle -----

  ghost predicate ObjectReads(v: Json, o: BundleObject) {
    v.Obj? && TextField(v.fields, "hash", o.hash) && TextField(v.fields, "data", o.data)
  }

  lemma ObjectRead(v: Json, o: BundleObject)
    ensures ReadObject(v) == Some(o) <==> ObjectReads(v, o)
  {
    if v.Obj? {
      TextRead(v.fields, "hash", o.hash);
      TextRead(v.fields, "data", o.data);
      hide Lookup, TextField, AsText;
    }
  }

  ghost predicate ManifestField(fields: seq<Field>, m: Manifest) {
    exists v :: Only(fields, "manifest", v) && ManifestReads(v, m)
  }

  lemma ManifestFieldRead(fields: seq<Field>, m: Manifest)
    ensures ReadManifest(Lookup(fields, "manifest")) == Some(m) <==> ManifestField(fields, m)
  {
    forall w ensures Lookup(fields, "manifest") == Some(w) <==> Only(fields, "manifest", w) {
      LookupIs(fields, "manifest", w);
    }
    forall w ensures FromJson(w) == Some(m) <==> ManifestReads(w, m) {
      ManifestRead(w, m);
    }
    hide Lookup, Only, FromJson, ManifestReads;
  }

  ghost predicate FileReads(v: Json, b: BundleFile) {
    && v.Obj?
    && NumberField(v.fields, "schema_version", b.schemaVersion)
    && ManifestField(v.fields, b.manifest)
    && ListField(v.fields, "objects", ReadObject, b.objects)
  }

  /** What a bundle reads as. */
  lemma FileRead(bytes: Bytes, b: BundleFile)
    ensures ReadFile(bytes) == Some(b) <==> exists v :: FromBytes(bytes) == Some(v) && FileReads(v, b)
  {
    if FromBytes(bytes).Some? && FromBytes(bytes).value.Obj? {
      var fields := FromBytes(bytes).value.fields;
      NumberRead(fields, "schema_version", b.schemaVersion);
      ManifestFieldRead(fields, b.manifest);
      ListFieldRead(fields, "objects", ReadObject, b.objects);
    }
    hide FromBytes, Lookup, NumberField, ListField, ManifestField, AsU32, ReadList, ReadManifest;
  }
}
