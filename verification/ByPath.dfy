/** Capture, load and restore, said of paths, names and objects one at a time. */
module ByPath {
  import opened Bytes
  import opened Cas
  import opened FileTree
  import opened Disks
  import opened Snapshot
  import opened Restore
  import opened SnapshotTheorems
  import opened TreePaths
  import opened ManifestFormat
  import opened Bundle
  import opened Unpacking

  // ----- capture -----

  /** What the owner must be able to do with a node: read a file, list a directory and reach what is in it;
    there must be no socket, pipe or device. The bits are 0400 and 0100. */
  ghost predicate CanRead(x: Option<Tree>) {
    match x
    case Some(File(mode, _)) => mode / 0x100 % 2 == 1
    case Some(Dir(mode, children)) => mode / 0x100 % 2 == 1 && (mode / 0x40 % 2 == 1 || children == map[])
    case Some(Special) => false
    case _ => true
  }

  lemma {:induction false} CapturedRead(t: Tree, p: Path)
    requires Capturable(t)
    ensures CanRead(NodeAt(t, p))
  {
    if p != [] && t.Dir? && p[0] in t.children {
      CapturedRead(t.children[p[0]], p[1..]);
    }
  }

  ghost predicate AllRead(t: Tree) {
    forall p: Path :: CanRead(NodeAt(t, p))
  }

  lemma ReadBelow(t: Tree)
    requires AllRead(t)
    ensures CanRead(Some(t)) && (t.Dir? ==> forall n :: n in t.children ==> AllRead(t.children[n]))
  {
    assert CanRead(NodeAt(t, []));
    hide CanRead;
    if t.Dir? {
      forall n | n in t.children ensures AllRead(t.children[n]) {
        forall p: Path ensures CanRead(NodeAt(t.children[n], p)) {
          NodeBelow(t, n, p);
          assert CanRead(NodeAt(t, [n] + p));
        }
      }
    }
  }

  lemma {:induction false} ReadCaptured(t: Tree)
    requires AllRead(t)
    ensures Capturable(t)
  {
    ReadBelow(t);
    if t.Dir? {
      hide AllRead;
      forall n | n in t.children ensures Capturable(t.children[n]) {
        ReadCaptured(t.children[n]);
      }
    }
  }

  /** A tree can be captured exactly when every node in it can be read. */
  lemma CapturableExactly(t: Tree)
    ensures Capturable(t) <==> AllRead(t)
  {
    if Capturable(t) {
      forall p: Path ensures CanRead(NodeAt(t, p)) {
        CapturedRead(t, p);
      }
    }
    if AllRead(t) {
      ReadCaptured(t);
    }
  }

  /** How a node stands in its directory's record: nine permission bits, and the digest of its content or of
    its own record. */
  ghost predicate EntryIs(h: Hash, x: Tree, e: Entry)
    requires Capturable(x)
  {
    match x
    case File(mode, content) => e == FileEntry(mode % 0x200, h(content))
    case Dir(mode, _) => e == DirEntry(mode % 0x200, RootHash(h, x))
    case Symlink(target) => e == SymlinkEntry(target)
  }

  /** The root hash is the hash of a record of the children, each under its name. */
  lemma RootIs(h: Hash, t: Tree) returns (node: DirNode)
    requires t.Dir? && Capturable(t)
    ensures RootHash(h, t) == h(NodeBytes(node)) && node.Keys == t.children.Keys
    ensures forall n :: n in t.children ==> EntryIs(h, t.children[n], node[n])
  {
    node := NodeOf(h, t.children);
    hide NodeBytes;
    assert node == map n | n in t.children :: EntryOf(h, t.children[n]);
  }

  // ----- restore -----

  /** A name that is safe to join to a directory. */
  predicate Safe(name: string) {
    name != "" && name != "." && name != ".." && (forall i :: 0 <= i < |name| ==> name[i] != '/' && name[i] as int != 0)
  }

  /** What an entry stands for in a store. The mode keeps the twelve bits that `chmod` takes. */
  ghost predicate Makes(h: Hash, objs: Objects, e: Entry, depth: nat, x: Tree) {
    match e
    case FileEntry(mode, d) => x.File? && x.mode == mode % 0x1000 && d in objs && x.content == objs[d] && h(objs[d]) == d
    case DirEntry(mode, d) => x.Dir? && x.mode == mode % 0x1000 && Rebuild(h, objs, d, depth) == Some(x.children)
    case SymlinkEntry(target) => x == Symlink(target) && target != "" && forall i :: 0 <= i < |target| ==> target[i] as int != 0
  }

  /** What a digest stands for: its object is there and matches, reads as a record, and every name in it is safe
    and every entry can be made; each child is what its entry makes. */
  ghost predicate Stands(h: Hash, objs: Objects, d: Digest, depth: nat, children: map<string, Tree>) {
    && depth > 0 && d in objs && h(objs[d]) == d && ReadNode(objs[d]).Some?
    && var node := ReadNode(objs[d]).value;
       && children.Keys == node.Keys
       && forall n :: n in node ==> Safe(n) && Makes(h, objs, node[n], depth - 1, children[n])
  }

  lemma SafeIsValid(name: string)
    ensures Safe(name) <==> ValidName(name)
  {
    if !ValidName(name) && name != "" && name != "." && name != ".." {
      var c: char :| c in name && (c == '/' || c == '\0');
      var i :| 0 <= i < |name| && name[i] == c;
    }
  }

  lemma MakesIs(h: Hash, objs: Objects, e: Entry, depth: nat, x: Tree)
    ensures Makes(h, objs, e, depth, x) <==> RebuildEntry(h, objs, e, depth) == Some(x)
  {
    match e
    case SymlinkEntry(target) =>
      if target != "" && !ValidTarget(target) {
        var i :| 0 <= i < |target| && target[i] == '\0';
      }
    case _ =>
  }

  lemma RebuildIs(h: Hash, objs: Objects, d: Digest, depth: nat, children: map<string, Tree>)
    ensures Rebuild(h, objs, d, depth) == Some(children) <==> Stands(h, objs, d, depth, children)
  {
    hide ReadNode, Safe, ValidName, Makes, RebuildEntry;
    if depth > 0 && LoadNode(h, objs, d).Ok? {
      var node := LoadNode(h, objs, d).value;
      forall n ensures Safe(n) <==> ValidName(n) {
        SafeIsValid(n);
      }
      forall n | n in node && n in children
        ensures Makes(h, objs, node[n], depth - 1, children[n]) <==> RebuildEntry(h, objs, node[n], depth - 1) == Some(children[n])
      {
        MakesIs(h, objs, node[n], depth - 1, children[n]);
      }
      NodeIs(h, objs, node, depth - 1, children);
    }
  }

  lemma NodeIs(h: Hash, objs: Objects, node: DirNode, depth: nat, children: map<string, Tree>)
    ensures RebuildNode(h, objs, node, depth) == Some(children) <==>
            && children.Keys == node.Keys
            && forall n :: n in node ==> ValidName(n) && RebuildEntry(h, objs, node[n], depth) == Some(children[n])
  {
    hide ValidName, RebuildEntry;
    if children.Keys == node.Keys && forall n :: n in node ==> ValidName(n) && RebuildEntry(h, objs, node[n], depth) == Some(children[n]) {
      RebuildNodeIs(h, objs, node, depth, children);
    }
  }

  /** The destination itself: a new one gets mode 0755, one that was there keeps its own. */
  lemma DestinationMode(t: Tree, dest: Path, children: map<string, Tree>)
    requires Ready(t, dest)
    ensures Walk(t, dest).None? ==> Walk(Filled(t, dest, children), dest) == Some(Dir(0x1ED, children))
    ensures Walk(t, dest).Some? ==>
              Walk(t, dest).value.Dir? && Walk(Filled(t, dest, children), dest) == Some(Dir(Walk(t, dest).value.mode, children))
  {
    var made := MkDirAll(t, dest).value;
    if Walk(t, dest).Some? {
      MkDirHere(t, dest);
    } else {
      NewIsEmpty(t, dest);
    }
    WalkGraft(made, dest, Dir(Walk(made, dest).value.mode, children));
  }

  // ----- load -----

  /** A carried object is acceptable: its data is hex, and its name is the hex of the data's digest. */
  ghost predicate Genuine(h: Hash, o: BundleObject) {
    exists data: Bytes :: FromHex(o.data) == Some(data) && o.hash == ToHex(h(data))
  }

  lemma {:induction false} LoadsExactly(h: Hash, objs: Objects, list: seq<BundleObject>)
    ensures LoadAll(h, objs, list).Some? <==> forall i :: 0 <= i < |list| ==> Genuine(h, list[i])
    decreases |list|
  {
    if list != [] {
      hide ToHex, FromHex;
      assert LoadOne(h, objs, list[0]).Some? <==> Genuine(h, list[0]);
      match LoadOne(h, objs, list[0])
      case None =>
      case Some(more) =>
        LoadsExactly(h, more, list[1..]);
        assert forall i :: 1 <= i < |list| ==> list[i] == list[1..][i - 1];
    }
  }

  /** What a load leaves: what was there, and an object under the digest of everything the bundle carried. */
  lemma {:induction false} LoadsAll(h: Hash, objs: Objects, list: seq<BundleObject>)
    requires LoadAll(h, objs, list).Some?
    ensures var r := LoadAll(h, objs, list).value;
            && (forall d :: d in objs ==> d in r && r[d] == objs[d])
            && (forall i :: 0 <= i < |list| ==> FromHex(list[i].data).Some? && h(FromHex(list[i].data).value) in r)
            && (forall d :: d in r && d !in objs ==> exists i :: 0 <= i < |list| && FromHex(list[i].data) == Some(r[d]) && h(r[d]) == d)
    decreases |list|
  {
    if list != [] {
      hide ToHex, FromHex;
      var more := LoadOne(h, objs, list[0]).value;
      LoadsAll(h, more, list[1..]);
      var r := LoadAll(h, objs, list).value;
      assert forall i :: 1 <= i < |list| ==> list[i] == list[1..][i - 1];
      forall d | d in r && d !in objs ensures exists i :: 0 <= i < |list| && FromHex(list[i].data) == Some(r[d]) && h(r[d]) == d {
        if d !in more {
          var i :| 0 <= i < |list[1..]| && FromHex(list[1..][i].data) == Some(r[d]) && h(r[d]) == d;
          assert list[i + 1] == list[1..][i];
        }
      }
    }
  }

  // ----- unpack -----

  /** When a bundle gets as far as the disk: it reads, it has the one known schema, and all it carries is
    genuine. */
  ghost predicate Admitted(h: Hash, bytes: Bytes) {
    && ReadFile(bytes).Some? && ReadFile(bytes).value.schemaVersion == 1
    && forall i :: 0 <= i < |ReadFile(bytes).value.objects| ==> Genuine(h, ReadFile(bytes).value.objects[i])
  }

  /** Any other bundle is refused and leaves the disk alone. */
  lemma Refused(h: Hash, objs: Objects, t: Tree, bytes: Bytes, dest: Path, memoryDest: Option<Path>, depth: nat)
    ensures !Admitted(h, bytes) ==> UnpackOutcome(h, objs, t, bytes, dest, memoryDest, depth) == Outcome(false, t)
    ensures UnpackOutcome(h, objs, t, bytes, dest, memoryDest, depth).ok ==> Admitted(h, bytes)
  {
    if ReadFile(bytes).Some? {
      LoadsExactly(h, objs, ReadFile(bytes).value.objects);
    }
    hide ReadFile, LoadAll, BothOutcome, Genuine;
  }

  /** An admitted bundle: the working directory is restored first; only if that went through, a memory
    destination is given and the memory pointer is a digest, the memory is restored onto what the first
    restore left. */
  lemma AdmittedRestores(h: Hash, objs: Objects, t: Tree, bytes: Bytes, dest: Path, memoryDest: Option<Path>, depth: nat)
    requires Admitted(h, bytes)
    ensures LoadAll(h, objs, ReadFile(bytes).value.objects).Some?
    ensures var all, m := LoadAll(h, objs, ReadFile(bytes).value.objects).value, ReadFile(bytes).value.manifest;
            var first := RestoreOutcome(h, all, t, m.workdirRootHash, dest, depth);
            var outcome := UnpackOutcome(h, objs, t, bytes, dest, memoryDest, depth);
            && (!first.ok ==> outcome == first)
            && (first.ok && (memoryDest.None? || forall d: Digest :: MemoryRoot(m) != Some(d)) ==> outcome == first)
            && (first.ok && memoryDest.Some? ==>
                  forall d :: MemoryRoot(m) == Some(d) ==> outcome == RestoreOutcome(h, all, first.root, d, memoryDest.value, depth))
  {
    LoadsExactly(h, objs, ReadFile(bytes).value.objects);
    hide ReadFile, LoadAll, RestoreOutcome, MemoryRoot, Genuine;
  }

  /** A memory pointer stands for a memory in the bundle exactly when it is the hex of 32 bytes. */
  lemma MemoryNamed(m: Manifest, d: Digest)
    ensures MemoryRoot(m) == Some(d) <==> m.memoryPointer.Some? && Spells(m.memoryPointer.value, d)
  {
    if m.memoryPointer.Some? {
      HexRead(m.memoryPointer.value, d);
    }
    hide FromHex, Spells;
  }

  /** The manifest of a bundle: its root is the working directory's, its pointer the packed memory's root if
    there is one, else the supplied text. */
  lemma PackedManifest(h: Hash, workdir: Tree, memory: Option<Tree>, inputs: EnvironmentInputs, objs: Objects)
    requires Packable(workdir, memory)
    ensures var file := PackedFile(h, workdir, memory, inputs, objs);
            && file.schemaVersion == 1 && file.manifest.workdirRootHash == RootHash(h, workdir)
            && (memory.Some? ==> file.manifest.memoryPointer == Some(ToHex(RootHash(h, memory.value))))
            && (memory.None? ==> file.manifest.memoryPointer == inputs.memoryPointer)
            && exists given: EnvironmentInputs ::
                 given.packages == inputs.packages && given.env == inputs.env && given.tools == inputs.tools
                 && file.manifest == New(given, RootHash(h, workdir))
  {
    hide RootHash, ToHex, EncodeItems, SortedItems, Capturable;
    var given := PackedInputs(h, memory, inputs);
    assert PackedFile(h, workdir, memory, inputs, objs).manifest == New(given, RootHash(h, workdir));
  }
}
