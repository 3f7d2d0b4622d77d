/** Capturing a directory into the store and rebuilding it: `tree.rs`. */
module Snapshot {
  import opened Bytes
  import opened JsonText
  import opened JsonFields
  import opened Cas
  import opened FileTree

  type u32 = x: int | 0 <= x < 0x1_0000_0000

  datatype Entry =
    | FileEntry(mode: u32, hash: Digest)
    | DirEntry(mode: u32, hash: Digest)
    | SymlinkEntry(target: string)

  type DirNode = map<string, Entry>

  // ----- the node encoding -----

  function HashedFields(kind: string, mode: nat, hash: Digest): seq<Field> {
    [Field("kind", Str(kind)), Field("mode", Num(mode)), Field("hash", Str(ToHex(hash)))]
  }

  function EntryJson(e: Entry): Json {
    match e
    case FileEntry(mode, hash) => Obj(HashedFields("file", mode, hash))
    case DirEntry(mode, hash) => Obj(HashedFields("dir", mode, hash))
    case SymlinkEntry(target) => Obj([Field("kind", Str("symlink")), Field("target", Str(target))])
  }

  ghost function NodeBytes(node: DirNode): Bytes {
    ToBytes(Obj(SortedFields(node, EntryJson)))
  }

  function ReadEntry(v: Json): Option<Entry> {
    match v
    case Obj(fields) =>
      (match AsText(Lookup(fields, "kind"))
       case None => None
       case Some(kind) =>
         if kind == "symlink" then
           match AsText(Lookup(fields, "target"))
           case None => None
           case Some(target) => Some(SymlinkEntry(target))
         else
           match (AsU32(Lookup(fields, "mode")), AsDigest(Lookup(fields, "hash")))
           case (Some(mode), Some(hash)) =>
             if kind == "file" then Some(FileEntry(mode, hash))
             else if kind == "dir" then Some(DirEntry(mode, hash))
             else None
           case _ => None)
    case _ => None
  }

  function ReadNode(bytes: Bytes): Option<DirNode> {
    match FromBytes(bytes)
    case Some(Obj(fields)) => CollectMapFields(fields, ReadEntry)
    case _ => None
  }

  lemma HashedLookups(kind: string, mode: u32, hash: Digest)
    ensures var fields := HashedFields(kind, mode, hash);
            && AsText(Lookup(fields, "kind")) == Some(kind)
            && AsU32(Lookup(fields, "mode")) == Some(mode)
            && AsDigest(Lookup(fields, "hash")) == Some(hash)
  {
    var fields := HashedFields(kind, mode, hash);
    assert "kind"[0] == 'k' && "mode"[0] == 'm' && "hash"[0] == 'h';
    LookupAt(fields, 0);
    LookupAt(fields, 1);
    LookupAt(fields, 2);
    DigestHexRoundTrip(hash);
  }

  lemma SymlinkLookups(target: string)
    ensures var fields := [Field("kind", Str("symlink")), Field("target", Str(target))];
            AsText(Lookup(fields, "kind")) == Some("symlink") && AsText(Lookup(fields, "target")) == Some(target)
  {
    var fields := [Field("kind", Str("symlink")), Field("target", Str(target))];
    LookupAt(fields, 0);
    LookupAt(fields, 1);
  }

  lemma EntryRoundTrip(e: Entry)
    ensures ReadEntry(EntryJson(e)) == Some(e)
  {
    match e
    case FileEntry(mode, hash) => HashedLookups("file", mode, hash);
    case DirEntry(mode, hash) => HashedLookups("dir", mode, hash);
    case SymlinkEntry(target) => SymlinkLookups(target);
  }

  /** A node's text decodes to the node, so nodes with the same bytes are the same node. */
  lemma NodeRoundTrip(node: DirNode)
    ensures ReadNode(NodeBytes(node)) == Some(node)
  {
    JsonTextRoundTrip(Obj(SortedFields(node, EntryJson)));
    forall n | n in node ensures ReadEntry(EntryJson(node[n])) == Some(node[n]) {
      EntryRoundTrip(node[n]);
    }
    SortedFieldsRoundTrip(node, EntryJson, ReadEntry);
  }

  method SerializeNode(node: DirNode) returns (bytes: Bytes)
    ensures bytes == NodeBytes(node)
  {
    var keys := SortKeys(node);
    SortedKeys(node.Keys);
    bytes := ToBytes(Obj(MapFields(node, keys, EntryJson)));
  }

  // ----- what capture records -----

  /** Exactly the trees a capture can read: no special file, and the permission bits let the owner
    list every directory and read every file. */
  predicate Capturable(t: Tree) {
    match t
    case File(mode, _) => Readable(mode)
    case Dir(mode, children) =>
      && Readable(mode)
      && (Searchable(mode) || children == map[])
      && forall n :: n in children ==> Capturable(children[n])
    case Symlink(_) => true
    case Special => false
  }

  /** The entry of a captured node in its parent, from which everything below it can be found. */
  ghost function EntryOf(h: Hash, t: Tree): Entry
    requires Capturable(t)
    decreases t, 1
  {
    match t
    case File(mode, content) => FileEntry(mode % 512, h(content))
    case Dir(mode, children) => DirEntry(mode % 512, RootHash(h, t))
    case Symlink(target) => SymlinkEntry(target)
  }

  ghost function RootHash(h: Hash, t: Tree): Digest
    requires t.Dir? && Capturable(t)
    decreases t, 0
  {
    h(NodeBytes(map n | n in t.children :: EntryOf(h, t.children[n])))
  }

  ghost function NodeOf(h: Hash, children: map<string, Tree>): DirNode
    requires forall n :: n in children ==> Capturable(children[n])
  {
    map n | n in children :: EntryOf(h, children[n])
  }

  /** Everything a capture of the tree hashes and stores. */
  ghost function ObjectsOf(h: Hash, t: Tree): set<Bytes>
    requires Capturable(t)
  {
    match t
    case File(_, content) => {content}
    case Dir(_, children) =>
      {NodeBytes(NodeOf(h, children))} + set n, x | n in children && x in ObjectsOf(h, children[n]) :: x
    case Symlink(_) => {}
  }

  ghost function ChildObjects(h: Hash, children: map<string, Tree>): set<Bytes>
    requires forall n :: n in children ==> Capturable(children[n])
  {
    set n, x | n in children && x in ObjectsOf(h, children[n]) :: x
  }

  // ----- how a store grows -----

  /** `after` is `before` with some of `added`, and holds an object under every digest of `added`.
    Which preimage a digest got is left open: on a collision the first one stays. */
  ghost predicate Extended(h: Hash, before: Objects, after: Objects, added: set<Bytes>) {
    && (forall d :: d in before ==> d in after && after[d] == before[d])
    && (forall x :: x in added ==> h(x) in after)
    && (forall d :: d in after && d !in before ==> after[d] in added && h(after[d]) == d)
  }

  /** Every byte string of `s` can be fetched under its own digest. */
  ghost predicate Stores(h: Hash, objs: Objects, s: set<Bytes>) {
    forall x :: x in s ==> h(x) in objs && objs[h(x)] == x
  }

  lemma ExtendedStep(h: Hash, a: Objects, b: Objects, c: Objects, s: set<Bytes>, t: set<Bytes>)
    requires Extended(h, a, b, s) && Extended(h, b, c, t)
    ensures Extended(h, a, c, s + t)
  {
  }

  lemma ExtendedStores(h: Hash, before: Objects, after: Objects, added: set<Bytes>)
    requires Extended(h, before, after, added) && Sound(h, before)
    ensures Sound(h, after)
    ensures Stores(h, after, added) || Collides(h, before.Values + added)
  {
    forall x | x in added ensures after[h(x)] == x || Collides(h, before.Values + added) {
      var y := after[h(x)];
      if h(x) in before {
        assert y == before[h(x)] && y in before.Values;
      }
      CollidesIn(h, before.Values + added, x, y);
    }
  }

  ghost function Preimage(h: Hash, s: set<Bytes>, d: Digest): Bytes
    requires exists x :: x in s && h(x) == d
  {
    var x :| x in s && h(x) == d;
    x
  }

  /** The store that holds a set of byte strings and nothing else. */
  ghost function StoreOf(h: Hash, s: set<Bytes>): Objects {
    map d | d in (set x | x in s :: h(x)) :: Preimage(h, s, d)
  }

  lemma ExtendedFromEmpty(h: Hash, objs: Objects, s: set<Bytes>)
    requires Extended(h, map[], objs, s)
    ensures objs == StoreOf(h, s) || Collides(h, s)
  {
    if !Collides(h, s) {
      var ideal := StoreOf(h, s);
      forall d: Digest ensures d in objs <==> d in ideal {
        if d in ideal {
          var x :| x in s && h(x) == d;
        }
      }
      forall d | d in objs ensures objs[d] == ideal[d] {
        CollidesIn(h, s, objs[d], ideal[d]);
      }
    }
  }

  lemma StoreOfExtends(h: Hash, s: set<Bytes>)
    ensures Extended(h, map[], StoreOf(h, s), s)
  {
  }

  // ----- capture -----

  /** One directory entry: files and directories are stored, a link is recorded in place. */
  method CaptureEntry(t: Tree, cas: CasStore) returns (r: Result<Entry>)
    requires cas.Valid()
    modifies cas
    ensures r.Ok? <==> Capturable(t)
    ensures r.Ok? ==> r.value == EntryOf(cas.h, t)
    ensures r.Ok? ==> Extended(cas.h, old(cas.objs), cas.objs, ObjectsOf(cas.h, t))
    ensures cas.Valid()
    decreases t, 2
  {
    match t {
      case Symlink(target) =>
        return Ok(SymlinkEntry(target));
      case File(mode, content) =>
        if !Readable(mode) {
          return Err(Io);
        }
        var hash := cas.Put(content);
        return Ok(FileEntry(mode % 512, hash));
      case Dir(mode, _) =>
        var sub := Capture(t, cas);
        if sub.Err? {
          return Err(sub.error);
        }
        return Ok(DirEntry(mode % 512, sub.value));
      case Special =>
        return Err(UnsupportedFileType);
    }
  }

  /** The loop of `capture`: children in any directory order. */
  method CaptureChildren(t: Tree, cas: CasStore) returns (r: Result<DirNode>)
    requires t.Dir? && cas.Valid()
    modifies cas
    ensures r.Ok? <==> forall n :: n in t.children ==> Capturable(t.children[n])
    ensures r.Ok? ==> r.value == NodeOf(cas.h, t.children)
    ensures r.Ok? ==> Extended(cas.h, old(cas.objs), cas.objs, ChildObjects(cas.h, t.children))
    ensures cas.Valid()
    decreases t, 0
  {
    ghost var start := cas.objs;
    var children := t.children;
    var entries: DirNode := map[];
    var todo := children.Keys;
    while todo != {}
      invariant todo <= children.Keys
      invariant forall n :: n in children && n !in todo ==> Capturable(children[n])
      invariant entries == NodeOf(cas.h, Captured(children, todo))
      invariant Extended(cas.h, start, cas.objs, ChildObjects(cas.h, Captured(children, todo)))
      invariant cas.Valid()
    {
      var name :| name in todo;
      ghost var before := cas.objs;
      var entry := CaptureEntry(children[name], cas);
      if entry.Err? {
        return Err(entry.error);
      }
      CapturedMore(cas.h, children, todo, name, start, before, cas.objs);
      entries := entries[name := entry.value];
      todo := todo - {name};
    }
    assert Captured(children, {}) == children;
    return Ok(entries);
  }

  /** `capture`: every child is put before the node that names it. */
  method Capture(t: Tree, cas: CasStore) returns (r: Result<Digest>)
    requires cas.Valid()
    modifies cas
    ensures r.Ok? <==> t.Dir? && Capturable(t)
    ensures r.Ok? ==> r.value == RootHash(cas.h, t)
    ensures r.Ok? ==> Extended(cas.h, old(cas.objs), cas.objs, ObjectsOf(cas.h, t))
    ensures cas.Valid()
    decreases t, 1
  {
    hide NodeBytes, ObjectsOf, RootHash, ChildObjects, NodeOf, Extended, Represents, Tidy;
    if !t.Dir? || !Readable(t.mode) || (!Searchable(t.mode) && t.children != map[]) {
      return Err(Io);
    }
    var entries := CaptureChildren(t, cas);
    if entries.Err? {
      return Err(entries.error);
    }
    var bytes := SerializeNode(entries.value);
    ghost var before := cas.objs;
    var root := cas.Put(bytes);
    CapturedNode(cas.h, t, old(cas.objs), before, cas.objs, bytes);
    return Ok(root);
  }

  lemma CapturedNode(h: Hash, t: Tree, start: Objects, before: Objects, after: Objects, bytes: Bytes)
    requires t.Dir? && Capturable(t) && bytes == NodeBytes(NodeOf(h, t.children))
    requires Extended(h, start, before, ChildObjects(h, t.children))
    requires after == if h(bytes) in before then before else before[h(bytes) := bytes]
    ensures Extended(h, start, after, ObjectsOf(h, t)) && RootHash(h, t) == h(bytes)
  {
    assert Extended(h, before, after, {bytes});
    ExtendedStep(h, start, before, after, ChildObjects(h, t.children), {bytes});
    assert ObjectsOf(h, t) == ChildObjects(h, t.children) + {bytes};
  }

  /** The children a capture has been through. */
  ghost function Captured(children: map<string, Tree>, todo: set<string>): map<string, Tree> {
    map n | n in children && n !in todo :: children[n]
  }

  lemma CapturedMore(h: Hash, children: map<string, Tree>, todo: set<string>, name: string,
                     start: Objects, before: Objects, after: Objects)
    requires name in todo && name in children
    requires forall n :: n in children && (n !in todo || n == name) ==> Capturable(children[n])
    requires Extended(h, start, before, ChildObjects(h, Captured(children, todo)))
    requires Extended(h, before, after, ObjectsOf(h, children[name]))
    ensures NodeOf(h, Captured(children, todo - {name}))
         == NodeOf(h, Captured(children, todo))[name := EntryOf(h, children[name])]
    ensures Extended(h, start, after, ChildObjects(h, Captured(children, todo - {name})))
  {
    CapturedStep(h, children, todo, name);
    ExtendedStep(h, start, before, after, ChildObjects(h, Captured(children, todo)), ObjectsOf(h, children[name]));
  }

  lemma CapturedStep(h: Hash, children: map<string, Tree>, todo: set<string>, name: string)
    requires name in todo && name in children
    requires forall n :: n in children && (n !in todo || n == name) ==> Capturable(children[n])
    ensures NodeOf(h, Captured(children, todo - {name}))
         == NodeOf(h, Captured(children, todo))[name := EntryOf(h, children[name])]
    ensures ChildObjects(h, Captured(children, todo - {name}))
         == ChildObjects(h, Captured(children, todo)) + ObjectsOf(h, children[name])
  {
    var a, b := Captured(children, todo - {name}), Captured(children, todo);
    assert a == b[name := children[name]] && name !in b;
    forall x ensures x in ChildObjects(h, a) <==> x in ChildObjects(h, b) + ObjectsOf(h, children[name]) {
      if x in ChildObjects(h, a) {
        var n :| n in a && x in ObjectsOf(h, a[n]);
        assert n == name || n in b;
      }
      if x in ChildObjects(h, b) {
        var n :| n in b && x in ObjectsOf(h, b[n]);
        assert n in a && a[n] == b[n];
      }
      if x in ObjectsOf(h, children[name]) {
        assert name in a && a[name] == children[name];
      }
    }
  }
}
