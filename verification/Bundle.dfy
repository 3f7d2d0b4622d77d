/** A checkpoint as one self-contained file: `pack` and `unpack` in `bundle.rs`. */
module Bundle {
  import opened Bytes
  import opened JsonText
  import opened JsonFields
  import opened Cas
  import opened ManifestFormat

  const BUNDLE_SCHEMA_VERSION: nat := 1

  datatype BundleObject = BundleObject(hash: string, data: string)

  datatype BundleFile = BundleFile(schemaVersion: nat, manifest: Manifest, objects: seq<BundleObject>)

  // ----- the file format -----

  function ObjectJson(o: BundleObject): Json {
    Obj([Field("hash", Str(o.hash)), Field("data", Str(o.data))])
  }

  ghost function BundleFields(version: nat, manifest: Json, objects: seq<BundleObject>): seq<Field> {
    [Field("schema_version", Num(version)), Field("manifest", manifest), Field("objects", Arr(MapJson(objects, ObjectJson)))]
  }

  ghost function FileBytes(b: BundleFile): Bytes {
    ToBytes(Obj(BundleFields(b.schemaVersion, ToJson(b.manifest), b.objects)))
  }

  function ReadObject(v: Json): Option<BundleObject> {
    match v
    case Obj(fields) =>
      (match (AsText(Lookup(fields, "hash")), AsText(Lookup(fields, "data")))
       case (Some(hash), Some(data)) => Some(BundleObject(hash, data))
       case _ => None)
    case _ => None
  }

  function ReadManifest(v: Option<Json>): Option<Manifest> {
    match v
    case Some(m) => FromJson(m)
    case None => None
  }

  function Assemble(version: Option<nat>, manifest: Option<Manifest>, objects: Option<seq<BundleObject>>): Option<BundleFile> {
    match (version, manifest, objects)
    case (Some(v), Some(m), Some(o)) => Some(BundleFile(v, m, o))
    case _ => None
  }

  function ReadFile(bytes: Bytes): Option<BundleFile> {
    match FromBytes(bytes)
    case Some(Obj(fields)) =>
      Assemble(AsU32(Lookup(fields, "schema_version")), ReadManifest(Lookup(fields, "manifest")),
               ReadList(Lookup(fields, "objects"), ReadObject))
    case _ => None
  }

  lemma ObjectRoundTrip(o: BundleObject)
    ensures ReadObject(ObjectJson(o)) == Some(o)
  {
    var fields := [Field("hash", Str(o.hash)), Field("data", Str(o.data))];
    assert "hash"[0] == 'h' && "data"[0] == 'd';
    LookupAt(fields, 0);
    LookupAt(fields, 1);
  }

  lemma FileLookups(v: nat, m: Json, o: seq<BundleObject>)
    ensures var fields := BundleFields(v, m, o);
            && Lookup(fields, "schema_version") == Some(Num(v))
            && Lookup(fields, "manifest") == Some(m)
            && Lookup(fields, "objects") == Some(Arr(MapJson(o, ObjectJson)))
  {
    var fields := BundleFields(v, m, o);
    assert fields[0].key[0] == 's' && fields[1].key[0] == 'm' && fields[2].key[0] == 'o';
    LookupAt(fields, 0);
    LookupAt(fields, 1);
    LookupAt(fields, 2);
  }

  lemma ObjectListRoundTrip(o: seq<BundleObject>)
    ensures ReadList(Some(Arr(MapJson(o, ObjectJson))), ReadObject) == Some(o)
  {
    forall x ensures ReadObject(ObjectJson(x)) == Some(x) {
      ObjectRoundTrip(x);
    }
    CollectMap(o, ObjectJson, ReadObject);
  }

  lemma FileRoundTrip(b: BundleFile)
    requires b.schemaVersion < 0x1_0000_0000 && b.manifest.schemaVersion < 0x1_0000_0000
    ensures ReadFile(FileBytes(b)) == Some(b)
  {
    hide FromJson, ToJson, ToBytes, FromBytes, CollectMapFields;
    var fields := BundleFields(b.schemaVersion, ToJson(b.manifest), b.objects);
    JsonTextRoundTrip(Obj(fields));
    FileLookups(b.schemaVersion, ToJson(b.manifest), b.objects);
    ObjectListRoundTrip(b.objects);
    JsonRoundTrip(b.manifest);
  }

  // ----- the objects of a bundle -----

  function EncodeItem(it: Item): BundleObject {
    BundleObject(ToHex(it.hash), ToHex(it.data))
  }

  function EncodeItems(items: seq<Item>): seq<BundleObject> {
    seq(|items|, i requires 0 <= i < |items| => EncodeItem(items[i]))
  }

  function Stored(objs: Objects, d: Digest, data: Bytes): Objects {
    if d in objs then objs else objs[d := data]
  }

  /** One object of a bundle, checked against its name. */
  function LoadOne(h: Hash, objs: Objects, o: BundleObject): Option<Objects> {
    match FromHex(o.data)
    case None => None
    case Some(data) => if ToHex(h(data)) == o.hash then Some(Stored(objs, h(data), data)) else None
  }

  function LoadAll(h: Hash, objs: Objects, list: seq<BundleObject>): Option<Objects>
    decreases |list|
  {
    if list == [] then Some(objs)
    else
      match LoadOne(h, objs, list[0])
      case None => None
      case Some(more) => LoadAll(h, more, list[1..])
  }

  /** The byte strings a bundle carries. */
  function Payload(list: seq<BundleObject>): set<Bytes> {
    set i | 0 <= i < |list| && FromHex(list[i].data).Some? :: FromHex(list[i].data).value
  }

  lemma {:induction false} LoadAllSnoc(h: Hash, objs: Objects, list: seq<BundleObject>, o: BundleObject)
    ensures LoadAll(h, objs, list + [o]) ==
            match LoadAll(h, objs, list) case None => None case Some(more) => LoadOne(h, more, o)
    decreases |list|
  {
    if list == [] {
      assert list + [o] == [o] && [o][1..] == [];
    } else {
      assert (list + [o])[1..] == list[1..] + [o];
      match LoadOne(h, objs, list[0])
      case None =>
      case Some(more) => LoadAllSnoc(h, more, list[1..], o);
    }
  }

  /** Loading adds sound objects taken from the bundle and nothing else. */
  lemma {:induction false} LoadAllFrom(h: Hash, objs: Objects, list: seq<BundleObject>)
    requires LoadAll(h, objs, list).Some?
    ensures var r := LoadAll(h, objs, list).value;
            && (Sound(h, objs) ==> Sound(h, r))
            && r.Values <= objs.Values + Payload(list)
    decreases |list|
  {
    if list != [] {
      var more := LoadOne(h, objs, list[0]).value;
      LoadAllFrom(h, more, list[1..]);
      var data := FromHex(list[0].data).value;
      assert data in Payload(list);
      forall x | x in Payload(list[1..]) ensures x in Payload(list) {
        var i :| 0 <= i < |list[1..]| && FromHex(list[1..][i].data) == Some(x);
        assert FromHex(list[i + 1].data) == Some(x);
      }
    }
  }

  ghost predicate Part(a: Objects, objs: Objects) {
    forall d :: d in a ==> d in objs && a[d] == objs[d]
  }

  /** Loading encoded items of a sound store into a part of that store. */
  lemma {:induction false} LoadEncoded(h: Hash, objs: Objects, start: Objects, items: seq<Item>)
    requires Sound(h, objs) && Part(start, objs)
    requires forall it :: it in items ==> it.hash in objs && objs[it.hash] == it.data
    ensures LoadAll(h, start, EncodeItems(items)).Some?
    ensures var r := LoadAll(h, start, EncodeItems(items)).value;
            Part(r, objs) && r.Keys == start.Keys + set it | it in items :: it.hash
    decreases |items|
  {
    if items != [] {
      var it := items[0];
      assert it in items;
      HexRoundTrip(it.data);
      var more := Stored(start, it.hash, it.data);
      assert LoadOne(h, start, EncodeItems(items)[0]) == Some(more);
      assert EncodeItems(items)[1..] == EncodeItems(items[1..]);
      LoadEncoded(h, objs, more, items[1..]);
      assert (set x | x in items :: x.hash) == {it.hash} + set x | x in items[1..] :: x.hash;
    }
  }

  lemma LoadPacked(h: Hash, objs: Objects)
    requires Sound(h, objs)
    ensures LoadAll(h, map[], EncodeItems(SortedItems(objs))) == Some(objs)
  {
    var items := SortedItems(objs);
    hide SortedItems, LoadAll, EncodeItems;
    LoadEncoded(h, objs, map[], items);
    var r := LoadAll(h, map[], EncodeItems(items)).value;
    forall d | d in objs ensures d in r {
      assert Item(d, objs[d]) in items;
    }
    assert r.Keys == objs.Keys;
    assert r == objs;
  }
}
