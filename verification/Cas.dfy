/** The content-addressed object store: files named by the hex of their digest, written under a
  temporary name and renamed into place. */
module Cas {
  import opened Bytes
  import opened Sorting
  import opened JsonFields

  datatype Error =
    | ObjectNotFound(requested: Digest)
    | CorruptObject(requested: Digest, actual: Digest)
    | InvalidHash(name: string)
    | Io
    | UnsupportedFileType
    | UnsafeEntryName(name: string)
    | Encoding
    | BadBundle
    | StackExhausted

  datatype Result<+T> = Ok(value: T) | Err(error: Error)

  type Objects = map<Digest, Bytes>

  function TempName(d: Digest): string {
    ".tmp-" + ToHex(d)
  }

  predicate IsTemp(name: string) {
    ".tmp-" <= name
  }

  lemma {:induction false} HexIsNotTemp(b: Bytes)
    ensures !IsTemp(ToHex(b))
  {
    if b != [] {
      assert ToHex(b)[0] == HexDigit(b[0] / 16) != '.';
    }
  }

  predicate ByDigest(a: Digest, b: Digest) {
    LexLe(a, b)
  }

  datatype Item = Item(hash: Digest, data: Bytes)

  /** `sort_by_key` on the digest; the bytes only break ties between equal digests. */
  predicate ByHash(a: Item, b: Item) {
    if a.hash == b.hash then LexLe(a.data, b.data) else LexLe(a.hash, b.hash)
  }

  lemma ByDigestTotal()
    ensures TotalOrder(ByDigest)
  {
    KeyOrderTotal(ByDigest, (d: Digest) => d);
  }

  lemma ByHashTotal()
    ensures TotalOrder(ByHash)
  {
    forall a: Item ensures ByHash(a, a) { LexReflexive(a.data); }
    forall a: Item, b: Item ensures ByHash(a, b) || ByHash(b, a) {
      LexTotal(a.hash, b.hash);
      LexTotal(a.data, b.data);
    }
    forall a: Item, b: Item | ByHash(a, b) && ByHash(b, a) ensures a == b {
      if a.hash == b.hash { LexAntisymmetric(a.data, b.data); } else { LexAntisymmetric(a.hash, b.hash); }
    }
    forall a: Item, b: Item, c: Item | ByHash(a, b) && ByHash(b, c) ensures ByHash(a, c) {
      if a.hash == b.hash == c.hash {
        LexTransitive(a.data, b.data, c.data);
      } else if a.hash != b.hash && b.hash != c.hash {
        LexTransitive(a.hash, b.hash, c.hash);
        if a.hash == c.hash { LexAntisymmetric(a.hash, b.hash); }
      }
    }
  }

  /** The items are the objects, each once. */
  ghost predicate Enumerates(items: seq<Item>, objs: Objects) {
    && NoDuplicates(items)
    && forall it: Item :: it in items <==> it.hash in objs && objs[it.hash] == it.data
  }

  lemma EnumeratesPush(items: seq<Item>, objs: Objects, d: Digest, b: Bytes)
    requires Enumerates(items, objs) && d !in objs
    ensures Enumerates(items + [Item(d, b)], objs[d := b])
  {
    assert Item(d, b) !in items;
  }

  lemma EnumerationUnique(a: seq<Item>, b: seq<Item>, objs: Objects)
    requires Enumerates(a, objs) && Enumerates(b, objs)
    requires SortedBy(ByHash, a) && SortedBy(ByHash, b)
    ensures a == b
  {
    ByHashTotal();
    assert forall it: Item :: it in Elements(a) <==> it in Elements(b);
    StrictUnique(ByHash, a, b);
  }

  ghost function ItemsAt(keys: seq<Digest>, objs: Objects): seq<Item>
    requires forall d :: d in keys ==> d in objs
  {
    seq(|keys|, i requires 0 <= i < |keys| => Item(keys[i], objs[keys[i]]))
  }

  lemma ItemsAtEnumerate(keys: seq<Digest>, objs: Objects)
    requires NoDuplicates(keys) && forall d :: d in keys <==> d in objs
    ensures Enumerates(ItemsAt(keys, objs), objs)
  {
    var items := ItemsAt(keys, objs);
    forall it: Item | it.hash in objs && objs[it.hash] == it.data ensures it in items {
      var i :| 0 <= i < |keys| && keys[i] == it.hash;
      assert items[i] == it;
    }
    forall i, j | 0 <= i < j < |items| ensures items[i] != items[j] {
      assert items[i].hash == keys[i] && items[j].hash == keys[j];
    }
  }

  /** Every object with its digest, sorted by digest, each once. */
  ghost function SortedItems(objs: Objects): (items: seq<Item>)
    ensures SortedBy(ByHash, items) && Enumerates(items, objs)
  {
    ByDigestTotal();
    SortSetSorts(ByDigest, objs.Keys);
    var keys := SortSet(ByDigest, objs.Keys);
    assert forall d: Digest :: d in keys <==> d in Elements(keys);
    ItemsAtEnumerate(keys, objs);
    ItemsAt(keys, objs)
  }

  ghost predicate Sound(h: Hash, objs: Objects) {
    forall d :: d in objs ==> h(objs[d]) == d
  }

  /** What `get` returns. */
  ghost function Fetch(h: Hash, objs: Objects, d: Digest): Result<Bytes> {
    if d !in objs then Err(ObjectNotFound(d))
    else if h(objs[d]) != d then Err(CorruptObject(d, h(objs[d])))
    else Ok(objs[d])
  }

  /** The objects behind a set of files: final names only, whatever temporaries lie beside them. */
  ghost predicate Represents(files: map<string, Bytes>, objs: Objects) {
    forall d: Digest :: (d in objs <==> ToHex(d) in files) && (d in objs ==> objs[d] == files[ToHex(d)])
  }

  /** Every file is an object or a temporary. */
  ghost predicate Tidy(files: map<string, Bytes>) {
    forall n :: n in files ==> IsTemp(n) || exists d: Digest :: n == ToHex(d)
  }

  lemma RepresentsPut(files: map<string, Bytes>, objs: Objects, d: Digest, bytes: Bytes, after: map<string, Bytes>)
    requires Represents(files, objs) && Tidy(files)
    requires after == (files - {TempName(d)})[ToHex(d) := bytes]
    ensures Represents(after, objs[d := bytes]) && Tidy(after)
  {
    forall e: Digest ensures ToHex(e) != TempName(d) && (ToHex(e) == ToHex(d) ==> e == d) {
      HexIsNotTemp(e);
      if ToHex(e) == ToHex(d) {
        HexInjective(e, d);
      }
    }
  }

  /** The objects a directory holds. */
  ghost function ObjectsIn(files: map<string, Bytes>): Objects {
    map d | d in (set n | n in files && DigestFromHex(n).Some? :: DigestFromHex(n).value) && ToHex(d) in files :: files[ToHex(d)]
  }

  lemma ObjectsInRepresented(files: map<string, Bytes>)
    ensures Represents(files, ObjectsIn(files))
  {
    forall d: Digest ensures d in ObjectsIn(files) <==> ToHex(d) in files {
      DigestHexRoundTrip(d);
    }
  }

  class CasStore {
    const h: Hash
    var files: map<string, Bytes>
    ghost var objs: Objects

    ghost predicate Valid()
      reads this
    {
      Represents(files, objs) && Tidy(files)
    }

    /** `open`: a directory with whatever objects and temporaries it holds; a new one holds none. */
    constructor (hash: Hash, existing: map<string, Bytes>)
      requires Tidy(existing)
      ensures Valid() && h == hash && files == existing
      ensures existing == map[] ==> objs == map[]
    {
      h := hash;
      files := existing;
      objs := ObjectsIn(existing);
      ObjectsInRepresented(existing);
    }

    /** `put`: a no-op when the object exists, else write aside and rename. */
    method Put(bytes: Bytes) returns (d: Digest)
      requires Valid()
      modifies this
      ensures Valid()
      ensures d == h(bytes)
      ensures objs == if d in old(objs) then old(objs) else old(objs)[d := bytes]
      ensures files == if d in old(objs) then old(files) else (old(files) - {".tmp-" + ToHex(d)})[ToHex(d) := bytes]
    {
      d := h(bytes);
      var finalName, tempName := ToHex(d), TempName(d);
      if finalName in files {
        return;
      }
      ghost var before := files;
      files := files[tempName := bytes];
      var moved := files[tempName];
      files := files - {tempName};
      files := files[finalName := moved];
      RepresentsPut(before, objs, d, bytes, files);
      objs := objs[d := bytes];
    }

    /** `get`: the bytes are checked against the name before they are returned. */
    method Get(d: Digest) returns (r: Result<Bytes>)
      requires Valid()
      ensures d !in objs ==> r == Err(ObjectNotFound(d))
      ensures d in objs && h(objs[d]) != d ==> r == Err(CorruptObject(d, h(objs[d])))
      ensures d in objs && h(objs[d]) == d ==> r == Ok(objs[d])
      ensures r == Fetch(h, objs, d)
    {
      var path := ToHex(d);
      if path !in files {
        return Err(ObjectNotFound(d));
      }
      var bytes := files[path];
      var actual := h(bytes);
      if actual != d {
        return Err(CorruptObject(d, actual));
      }
      return Ok(bytes);
    }

    /** `read_all`: directories are read in any order; the sort makes the result canonical. */
    method ReadAll() returns (r: Result<seq<Item>>)
      requires Valid()
      ensures r.Ok? <==> Sound(h, objs)
      ensures r.Ok? ==> r.value == SortedItems(objs)
    {
      var objects: seq<Item> := [];
      var todo := files.Keys;
      assert Done(objs, todo) == map[];
      while todo != {}
        invariant todo <= files.Keys
        invariant Sound(h, Done(objs, todo)) && Enumerates(objects, Done(objs, todo))
      {
        var name :| name in todo;
        if !IsTemp(name) {
          ghost var origin: Digest :| name == ToHex(origin);
          DigestHexRoundTrip(origin);
          var hash := DigestFromHex(name).value;
          var got := this.Get(hash);
          if got.Err? {
            assert hash in objs;
            return Err(got.error);
          }
          EnumeratesPush(objects, Done(objs, todo), hash, got.value);
          DoneObject(objs, todo, hash);
          objects := objects + [Item(hash, got.value)];
        } else {
          DoneTemp(objs, todo, name);
        }
        todo := todo - {name};
      }
      assert Done(objs, {}) == objs;
      SortEnumerated(objects, objs);
      return Ok(Sort(ByHash, objects));
    }
  }

  /** The objects whose names are no longer to be read. */
  ghost function Done(objs: Objects, todo: set<string>): Objects {
    map d | d in objs && ToHex(d) !in todo :: objs[d]
  }

  lemma DoneTemp(objs: Objects, todo: set<string>, name: string)
    requires IsTemp(name)
    ensures Done(objs, todo - {name}) == Done(objs, todo)
  {
    forall d: Digest ensures ToHex(d) != name {
      HexIsNotTemp(d);
    }
  }

  lemma DoneObject(objs: Objects, todo: set<string>, d: Digest)
    requires d in objs && ToHex(d) in todo
    ensures Done(objs, todo - {ToHex(d)}) == Done(objs, todo)[d := objs[d]]
  {
    forall e: Digest | ToHex(e) == ToHex(d) ensures e == d {
      HexInjective(e, d);
    }
  }

  lemma SortEnumerated(items: seq<Item>, objs: Objects)
    requires Enumerates(items, objs)
    ensures Sort(ByHash, items) == SortedItems(objs)
  {
    ByHashTotal();
    SortSorts(ByHash, items);
    PermutationDistinct(items, Sort(ByHash, items));
    SameMembers(items, Sort(ByHash, items));
    EnumerationUnique(Sort(ByHash, items), SortedItems(objs), objs);
  }
}
