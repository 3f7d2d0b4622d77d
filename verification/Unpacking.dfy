/** Packing a working directory and its memory, and unpacking them elsewhere. */
module Unpacking {
  import opened Bytes
  import opened Sorting
  import opened JsonText
  import opened JsonFields
  import opened Cas
  import opened FileTree
  import opened Disks
  import opened Snapshot
  import opened Restore
  import opened Destinations
  import opened SnapshotTheorems
  import opened Confinement
  import opened TreePaths
  import opened ManifestFormat
  import opened Bundle

  // ----- pack -----

  predicate Packable(workdir: Tree, memory: Option<Tree>) {
    && workdir.Dir? && Capturable(workdir)
    && (memory.Some? ==> memory.value.Dir? && Capturable(memory.value))
  }

  ghost function PackedObjects(h: Hash, workdir: Tree, memory: Option<Tree>): set<Bytes>
    requires Packable(workdir, memory)
  {
    (if memory.Some? then ObjectsOf(h, memory.value) else {}) + ObjectsOf(h, workdir)
  }

  /** The pointer of a packed memory overwrites the supplied one. */
  ghost function PackedInputs(h: Hash, memory: Option<Tree>, inputs: EnvironmentInputs): EnvironmentInputs
    requires memory.Some? ==> memory.value.Dir? && Capturable(memory.value)
  {
    if memory.Some? then inputs.(memoryPointer := Some(ToHex(RootHash(h, memory.value)))) else inputs
  }

  ghost function PackedFile(h: Hash, workdir: Tree, memory: Option<Tree>, inputs: EnvironmentInputs, objs: Objects): BundleFile
    requires Packable(workdir, memory)
  {
    BundleFile(BUNDLE_SCHEMA_VERSION, New(PackedInputs(h, memory, inputs), RootHash(h, workdir)), EncodeItems(SortedItems(objs)))
  }

  datatype Packed = Packed(bytes: Bytes, manifest: Manifest)

  method SerializeFile(b: BundleFile) returns (bytes: Bytes)
    ensures bytes == FileBytes(b)
  {
    var m := b.manifest;
    var keys := SortKeys(m.env);
    SortedKeys(m.env.Keys);
    var manifest := Obj(Fields(m.schemaVersion, m.packages, MapFields(m.env, keys, TextJson), m.tools,
                               m.memoryPointer, ToHex(m.workdirRootHash)));
    assert manifest == ToJson(m);
    bytes := ToBytes(Obj([Field("schema_version", Num(b.schemaVersion)), Field("manifest", manifest),
                          Field("objects", Arr(MapJson(b.objects, ObjectJson)))]));
  }

  /** `pack`: memory first, then the working directory, into one store that is then read out. */
  method Pack(workdir: Tree, memory: Option<Tree>, scratch: CasStore, given: EnvironmentInputs) returns (r: Result<Packed>)
    requires scratch.Valid()
    modifies scratch
    ensures scratch.Valid()
    ensures Sound(scratch.h, old(scratch.objs)) ==> (r.Ok? <==> Packable(workdir, memory))
    ensures r.Ok? ==>
              && Packable(workdir, memory)
              && Extended(scratch.h, old(scratch.objs), scratch.objs, PackedObjects(scratch.h, workdir, memory))
              && var file := PackedFile(scratch.h, workdir, memory, given, scratch.objs);
                 r.value == Packed(FileBytes(file), file.manifest)
  {
    ghost var h, start := scratch.h, scratch.objs;
    var inputs := given;
    if memory.Some? {
      var memoryRoot := Capture(memory.value, scratch);
      if memoryRoot.Err? {
        return Err(memoryRoot.error);
      }
      inputs := inputs.(memoryPointer := Some(ToHex(memoryRoot.value)));
    }
    ghost var middle := scratch.objs;
    ghost var first := if memory.Some? then ObjectsOf(h, memory.value) else {};
    assert Extended(h, start, middle, first);
    var root := Capture(workdir, scratch);
    if root.Err? {
      return Err(root.error);
    }
    ExtendedStep(h, start, middle, scratch.objs, first, ObjectsOf(h, workdir));
    if Sound(h, start) {
      ExtendedStores(h, start, scratch.objs, PackedObjects(h, workdir, memory));
    }
    var manifest := New(inputs, root.value);
    var items := scratch.ReadAll();
    if items.Err? {
      return Err(items.error);
    }
    var file := BundleFile(BUNDLE_SCHEMA_VERSION, manifest, EncodeItems(items.value));
    var bytes := SerializeFile(file);
    return Ok(Packed(bytes, manifest));
  }

  // ----- pack is deterministic -----

  /** Inputs that normalise alike; a supplied pointer counts only where no packed memory overwrites it. */
  ghost predicate SameEnvironment(memory: Option<Tree>, a: EnvironmentInputs, b: EnvironmentInputs) {
    && multiset(a.packages) == multiset(b.packages) && Elements(a.tools) == Elements(b.tools)
    && Redact(a.env) == Redact(b.env)
    && (memory.None? ==> a.memoryPointer == b.memoryPointer)
  }

  /** Captured into empty stores, the same trees and environments give the same bundle bytes, in
    whatever order directories were listed, or two of the packed objects collide. */
  lemma PackDeterministic(h: Hash, workdir: Tree, memory: Option<Tree>, a: Objects, b: Objects,
                          i: EnvironmentInputs, j: EnvironmentInputs)
    requires Packable(workdir, memory) && SameEnvironment(memory, i, j)
    requires Extended(h, map[], a, PackedObjects(h, workdir, memory))
    requires Extended(h, map[], b, PackedObjects(h, workdir, memory))
    ensures FileBytes(PackedFile(h, workdir, memory, i, a)) == FileBytes(PackedFile(h, workdir, memory, j, b))
            || Collides(h, PackedObjects(h, workdir, memory))
  {
    ExtendedFromEmpty(h, a, PackedObjects(h, workdir, memory));
    ExtendedFromEmpty(h, b, PackedObjects(h, workdir, memory));
    SameManifest(h, workdir, memory, i, j);
    hide FileBytes, StoreOf, PackedObjects, New, SortedItems, EncodeItems, PackedInputs, RootHash, Collides;
  }

  lemma SameManifest(h: Hash, workdir: Tree, memory: Option<Tree>, i: EnvironmentInputs, j: EnvironmentInputs)
    requires Packable(workdir, memory) && SameEnvironment(memory, i, j)
    ensures New(PackedInputs(h, memory, i), RootHash(h, workdir)) == New(PackedInputs(h, memory, j), RootHash(h, workdir))
  {
    var root, x, y := RootHash(h, workdir), PackedInputs(h, memory, i), PackedInputs(h, memory, j);
    hide RootHash, Redact, CanonicalBytes, New;
    CanonicalBytesDetermine(x, y, root, root);
    NewSchema(x, root);
    NewSchema(y, root);
    CanonicalInjective(New(x, root), New(y, root));
  }

  lemma NewSchema(inputs: EnvironmentInputs, root: Digest)
    ensures New(inputs, root).schemaVersion == SCHEMA_VERSION
  {
  }

  // ----- unpack -----

  datatype Unpacked = Unpacked(manifest: Manifest, work: map<string, Tree>, memory: Option<map<string, Tree>>)

  /** The digest an engine-captured memory pointer names; any other pointer is left alone. */
  function MemoryRoot(m: Manifest): Option<Digest> {
    match m.memoryPointer
    case None => None
    case Some(text) => DigestFromHex(text)
  }

  ghost function Rebuilt(h: Hash, objs: Objects, m: Manifest, depth: nat, wanted: bool): Option<Unpacked> {
    match Rebuild(h, objs, m.workdirRootHash, depth)
    case None => None
    case Some(work) =>
      if !wanted || MemoryRoot(m).None? then Some(Unpacked(m, work, None))
      else
        match Rebuild(h, objs, MemoryRoot(m).value, depth)
        case None => None
        case Some(memory) => Some(Unpacked(m, work, Some(memory)))
  }

  /** What the bytes of a bundle stand for, or `None` if any part of it is unacceptable. */
  ghost function Contents(h: Hash, objs: Objects, bytes: Bytes, depth: nat, wanted: bool): Option<Unpacked> {
    match ReadFile(bytes)
    case None => None
    case Some(file) =>
      if file.schemaVersion != BUNDLE_SCHEMA_VERSION then None
      else
        match LoadAll(h, objs, file.objects)
        case None => None
        case Some(all) => Rebuilt(h, all, file.manifest, depth, wanted)
  }

  /** Put every object of a bundle into the store, each checked against the name it came with. */
  method LoadObjects(list: seq<BundleObject>, scratch: CasStore) returns (r: Result<()>)
    requires scratch.Valid()
    modifies scratch
    ensures scratch.Valid()
    ensures r.Ok? <==> LoadAll(scratch.h, old(scratch.objs), list).Some?
    ensures r.Ok? ==> scratch.objs == LoadAll(scratch.h, old(scratch.objs), list).value
  {
    hide ToHex, FromHex;
    ghost var h, start := scratch.h, scratch.objs;
    for i := 0 to |list|
      invariant scratch.Valid()
      invariant LoadAll(h, start, list[..i]) == Some(scratch.objs)
    {
      var entry := list[i];
      LoadAllSnoc(h, start, list[..i], entry);
      LoadAllPrefix(h, start, list, i + 1);
      assert list[..i + 1] == list[..i] + [entry];
      var data := FromHex(entry.data);
      if data.None? {
        return Err(BadBundle);
      }
      var stored := scratch.Put(data.value);
      if ToHex(stored) != entry.hash {
        return Err(BadBundle);
      }
    }
    assert list[..|list|] == list;
    return Ok(());
  }

  lemma {:induction false} LoadAllPrefix(h: Hash, objs: Objects, list: seq<BundleObject>, i: nat)
    requires i <= |list|
    ensures LoadAll(h, objs, list[..i]) == None ==> LoadAll(h, objs, list) == None
    decreases |list|
  {
    if i > 0 {
      assert list[..i][1..] == list[1..][..i - 1];
      match LoadOne(h, objs, list[0])
      case None =>
      case Some(more) => LoadAllPrefix(h, more, list[1..], i - 1);
    }
  }

  /** Both destinations are ready and neither lies inside the other. */
  ghost predicate BothReady(t: Tree, dest: Path, memoryDest: Option<Path>) {
    Ready(t, dest) && (memoryDest.Some? ==> Ready(t, memoryDest.value) && Apart(dest, memoryDest.value))
  }

  /** The disk with the working directory, and the memory if there is one, in place. */
  ghost function Delivered(t: Tree, dest: Path, memoryDest: Option<Path>, u: Unpacked): Tree
    requires BothReady(t, dest, memoryDest)
    requires u.memory.Some? ==> memoryDest.Some?
  {
    var first := Filled(t, dest, u.work);
    if u.memory.Some? then
      ReadyElsewhere(t, dest, u.work, memoryDest.value);
      Filled(first, memoryDest.value, u.memory.value)
    else first
  }

  ghost predicate ResolvedBoth(dest: Path, memoryDest: Option<Path>) {
    Resolved(dest) && (memoryDest.Some? ==> Resolved(memoryDest.value))
  }

  /** Every place apart from both destinations holds what it held. */
  ghost predicate UntouchedElsewhere(before: Tree, after: Tree, dest: Path, memoryDest: Option<Path>) {
    forall q :: Apart(dest, q) && (memoryDest.Some? ==> Apart(memoryDest.value, q)) ==> Walk(after, q) == Walk(before, q)
  }

  /** Both restores of an unpack, onto any disk. */
  ghost function BothOutcome(h: Hash, objs: Objects, t: Tree, m: Manifest, dest: Path, memoryDest: Option<Path>, depth: nat): Outcome {
    var work := RestoreOutcome(h, objs, t, m.workdirRootHash, dest, depth);
    if work.ok && memoryDest.Some? && MemoryRoot(m).Some? then
      RestoreOutcome(h, objs, work.root, MemoryRoot(m).value, memoryDest.value, depth)
    else work
  }

  ghost function UnpackOutcome(h: Hash, objs: Objects, t: Tree, bytes: Bytes, dest: Path, memoryDest: Option<Path>, depth: nat): Outcome {
    match ReadFile(bytes)
    case None => Outcome(false, t)
    case Some(file) =>
      if file.schemaVersion != BUNDLE_SCHEMA_VERSION then Outcome(false, t)
      else
        match LoadAll(h, objs, file.objects)
        case None => Outcome(false, t)
        case Some(all) => BothOutcome(h, all, t, file.manifest, dest, memoryDest, depth)
  }

  ghost predicate Delivers(t: Tree, dest: Path, memoryDest: Option<Path>, u: Option<Unpacked>, o: Outcome)
    requires BothReady(t, dest, memoryDest)
    requires u.Some? && u.value.memory.Some? ==> memoryDest.Some?
  {
    (o.ok <==> u.Some?) && (o.ok ==> o.root == Delivered(t, dest, memoryDest, u.value))
  }

  /** Into two ready destinations apart from each other, both trees or an error. */
  lemma BothDeliver(h: Hash, objs: Objects, t: Tree, m: Manifest, dest: Path, memoryDest: Option<Path>, depth: nat)
    requires BothReady(t, dest, memoryDest) && ResolvedBoth(dest, memoryDest)
    ensures Delivers(t, dest, memoryDest, Rebuilt(h, objs, m, depth, memoryDest.Some?), BothOutcome(h, objs, t, m, dest, memoryDest, depth))
  {
    hide Rebuild, RestoreOutcome, Ready, Filled, MemoryRoot, Resolved;
    RestoreFills(h, objs, t, m.workdirRootHash, dest, depth);
    var work := Rebuild(h, objs, m.workdirRootHash, depth);
    if work.Some? && memoryDest.Some? && MemoryRoot(m).Some? {
      ReadyElsewhere(t, dest, work.value, memoryDest.value);
      RestoreFills(h, objs, Filled(t, dest, work.value), MemoryRoot(m).value, memoryDest.value, depth);
    }
  }

  /** A bundle accepted or not, whatever it holds, reaches nothing outside two ready destinations that are
    apart. */
  lemma UnpackConfined(h: Hash, objs: Objects, t: Tree, bytes: Bytes, dest: Path, memoryDest: Option<Path>, depth: nat)
    requires BothReady(t, dest, memoryDest) && ResolvedBoth(dest, memoryDest)
    ensures UntouchedElsewhere(t, UnpackOutcome(h, objs, t, bytes, dest, memoryDest, depth).root, dest, memoryDest)
  {
    hide ReadFile, LoadAll, RestoreOutcome, Ready, Filled, MemoryRoot, Resolved, LinkFree, Rebuild;
    var file := ReadFile(bytes);
    if file.Some? && LoadAll(h, objs, file.value.objects).Some? {
      var all, m := LoadAll(h, objs, file.value.objects).value, file.value.manifest;
      ReadyLinkFree(t, dest);
      RestoreConfined(h, all, t, m.workdirRootHash, dest, depth);
      RestoreFills(h, all, t, m.workdirRootHash, dest, depth);
      var work := Rebuild(h, all, m.workdirRootHash, depth);
      if work.Some? && memoryDest.Some? && MemoryRoot(m).Some? {
        ReadyElsewhere(t, dest, work.value, memoryDest.value);
        ReadyLinkFree(Filled(t, dest, work.value), memoryDest.value);
        RestoreConfined(h, all, Filled(t, dest, work.value), MemoryRoot(m).value, memoryDest.value, depth);
      }
    }
  }

  /** `unpack`: onto any disk, step by step. Into ready destinations apart from each other it succeeds
    exactly when the bundle's contents can be rebuilt, and then delivers exactly those contents. */
  method Unpack(bytes: Bytes, scratch: CasStore, disk: Disk, dest: Path, memoryDest: Option<Path>, depth: nat)
    returns (r: Result<Manifest>)
    requires scratch.Valid() && ResolvedBoth(dest, memoryDest)
    modifies scratch, disk
    ensures Outcome(r.Ok?, disk.root) == UnpackOutcome(scratch.h, old(scratch.objs), old(disk.root), bytes, dest, memoryDest, depth)
    ensures r.Ok? ==> ReadFile(bytes).Some? && r.value == ReadFile(bytes).value.manifest
    ensures BothReady(old(disk.root), dest, memoryDest) ==>
              var u := Contents(scratch.h, old(scratch.objs), bytes, depth, memoryDest.Some?);
              && (r.Ok? <==> u.Some?)
              && (r.Ok? ==> r.value == u.value.manifest && disk.root == Delivered(old(disk.root), dest, memoryDest, u.value))
  {
    hide ReadFile, LoadAll, BothReady, Delivered, BothOutcome;
    var file := ReadFile(bytes);
    if file.None? {
      return Err(Encoding);
    }
    if file.value.schemaVersion != BUNDLE_SCHEMA_VERSION {
      return Err(BadBundle);
    }
    var loaded := LoadObjects(file.value.objects, scratch);
    if loaded.Err? {
      return Err(loaded.error);
    }
    r := RestoreManifest(file.value.manifest, scratch, disk, dest, memoryDest, depth);
  }

  /** The end of `unpack`, once the objects are loaded. */
  method RestoreManifest(m: Manifest, scratch: CasStore, disk: Disk, dest: Path, memoryDest: Option<Path>, depth: nat)
    returns (r: Result<Manifest>)
    requires scratch.Valid() && ResolvedBoth(dest, memoryDest)
    modifies disk
    ensures Outcome(r.Ok?, disk.root) == BothOutcome(scratch.h, scratch.objs, old(disk.root), m, dest, memoryDest, depth)
    ensures r.Ok? ==> r.value == m
    ensures BothReady(old(disk.root), dest, memoryDest) ==>
              var u := Rebuilt(scratch.h, scratch.objs, m, depth, memoryDest.Some?);
              && (r.Ok? <==> u.Some?)
              && (r.Ok? ==> disk.root == Delivered(old(disk.root), dest, memoryDest, u.value))
  {
    hide RestoreOutcome, Ready, BothReady, Delivered, Rebuilt, Fills, Rebuild, MemoryRoot, Resolved;
    if BothReady(disk.root, dest, memoryDest) {
      BothDeliver(scratch.h, scratch.objs, disk.root, m, dest, memoryDest, depth);
    }
    var work := RestoreTree(m.workdirRootHash, scratch, disk, dest, depth);
    if work.Err? {
      return Err(work.error);
    }
    if memoryDest.Some? && MemoryRoot(m).Some? {
      var memory := RestoreTree(MemoryRoot(m).value, scratch, disk, memoryDest.value, depth);
      if memory.Err? {
        return Err(memory.error);
      }
    }
    return Ok(m);
  }

  /** Each destination holds its own tree, and a path apart from both is as it was. */
  lemma DeliveredHolds(t: Tree, dest: Path, memoryDest: Option<Path>, u: Unpacked)
    requires BothReady(t, dest, memoryDest) && (u.memory.Some? ==> memoryDest.Some?)
    ensures var after := Delivered(t, dest, memoryDest, u);
            && Walk(after, dest).Some? && Walk(after, dest).value.Dir? && Walk(after, dest).value.children == u.work
            && (u.memory.Some? ==>
                  && Walk(after, memoryDest.value).Some? && Walk(after, memoryDest.value).value.Dir?
                  && Walk(after, memoryDest.value).value.children == u.memory.value)
  {
    FilledHolds(t, dest, u.work);
    if u.memory.Some? {
      ReadyElsewhere(t, dest, u.work, memoryDest.value);
      FilledHolds(Filled(t, dest, u.work), memoryDest.value, u.memory.value);
      ApartSymmetric(dest, memoryDest.value);
      WalkElsewhere(Filled(t, dest, u.work), memoryDest.value, u.memory.value, dest);
    }
  }

  lemma DeliveredFrame(t: Tree, dest: Path, memoryDest: Option<Path>, u: Unpacked, q: Path)
    requires BothReady(t, dest, memoryDest) && (u.memory.Some? ==> memoryDest.Some?)
    requires Apart(dest, q) && (memoryDest.Some? ==> Apart(memoryDest.value, q)) && Walk(t, q).Some?
    ensures Walk(Delivered(t, dest, memoryDest, u), q) == Walk(t, q)
  {
    WalkElsewhere(t, dest, u.work, q);
    if u.memory.Some? {
      ReadyElsewhere(t, dest, u.work, memoryDest.value);
      WalkElsewhere(Filled(t, dest, u.work), memoryDest.value, u.memory.value, q);
    }
  }

  // ----- round trip -----

  /** What a bundle was packed from and must give back. */
  ghost predicate Deliverable(workdir: Tree, memory: Option<Tree>, depth: nat) {
    && Packable(workdir, memory) && WellNamed(workdir) && Fits(workdir, depth)
    && (memory.Some? ==> WellNamed(memory.value) && Fits(memory.value, depth))
  }

  /** Packing into an empty store and unpacking into another gives back both trees as recorded and
    the same manifest, or two of the packed objects collide. With no memory packed, asking for one
    fails exactly when the supplied pointer is a digest the bundle does not contain. */
  lemma PackThenUnpack(h: Hash, objs: Objects, workdir: Tree, memory: Option<Tree>, inputs: EnvironmentInputs,
                       depth: nat, wanted: bool)
    requires Deliverable(workdir, memory, depth)
    requires Extended(h, map[], objs, PackedObjects(h, workdir, memory))
    ensures var file := PackedFile(h, workdir, memory, inputs, objs);
            var u := Contents(h, map[], FileBytes(file), depth, wanted);
            var work := RecordedChildren(workdir.children);
            || Collides(h, PackedObjects(h, workdir, memory))
            || (if !wanted || MemoryRoot(file.manifest).None? then u == Some(Unpacked(file.manifest, work, None))
                else if memory.Some? then
                  u == Some(Unpacked(file.manifest, work, Some(RecordedChildren(memory.value.children))))
                else u.Some? <==> Rebuild(h, objs, MemoryRoot(file.manifest).value, depth).Some?)
  {
    assert PackedFile(h, workdir, memory, inputs, objs).manifest == New(PackedInputs(h, memory, inputs), RootHash(h, workdir));
    assert Packable(workdir, memory);
    hide *;
    ContentsOfPacked(h, objs, workdir, memory, inputs, depth, wanted);
    RebuiltAsPacked(h, objs, workdir, memory, inputs, depth, wanted);
  }

  lemma ContentsOfPacked(h: Hash, objs: Objects, workdir: Tree, memory: Option<Tree>, inputs: EnvironmentInputs,
                         depth: nat, wanted: bool)
    requires Packable(workdir, memory) && Extended(h, map[], objs, PackedObjects(h, workdir, memory))
    ensures var file := PackedFile(h, workdir, memory, inputs, objs);
            Contents(h, map[], FileBytes(file), depth, wanted) == Rebuilt(h, objs, file.manifest, depth, wanted)
  {
    var file := PackedFile(h, workdir, memory, inputs, objs);
    var bytes := FileBytes(file);
    assert file.schemaVersion == BUNDLE_SCHEMA_VERSION && file.manifest.schemaVersion == SCHEMA_VERSION;
    assert file.objects == EncodeItems(SortedItems(objs));
    hide FileBytes, ReadFile, LoadAll, EncodeItems, SortedItems, PackedInputs, PackedFile, Rebuilt, PackedObjects, New;
    assert Sound(h, objs);
    FileRoundTrip(file);
    LoadPacked(h, objs);
  }

  lemma RebuiltAsPacked(h: Hash, objs: Objects, workdir: Tree, memory: Option<Tree>, inputs: EnvironmentInputs,
                        depth: nat, wanted: bool)
    requires Deliverable(workdir, memory, depth)
    requires Extended(h, map[], objs, PackedObjects(h, workdir, memory))
    ensures var m := New(PackedInputs(h, memory, inputs), RootHash(h, workdir));
            var u := Rebuilt(h, objs, m, depth, wanted);
            var work := RecordedChildren(workdir.children);
            || Collides(h, PackedObjects(h, workdir, memory))
            || (if !wanted || MemoryRoot(m).None? then u == Some(Unpacked(m, work, None))
                else if memory.Some? then u == Some(Unpacked(m, work, Some(RecordedChildren(memory.value.children))))
                else u.Some? <==> Rebuild(h, objs, MemoryRoot(m).value, depth).Some?)
  {
    var s, nothing: Objects := PackedObjects(h, workdir, memory), map[];
    ExtendedStores(h, nothing, objs, s);
    assert nothing.Values + s == s;
    if !Collides(h, s) {
      TreeDelivered(h, objs, workdir, s, depth);
      if memory.Some? {
        TreeDelivered(h, objs, memory.value, s, depth);
        PackedPointer(h, memory, inputs, RootHash(h, workdir));
      }
      hide PackedInputs, PackedObjects, Rebuild, RecordedChildren, RootHash, Extended, Capturable, Deliverable, MemoryRoot;
    }
  }

  lemma TreeDelivered(h: Hash, objs: Objects, t: Tree, s: set<Bytes>, depth: nat)
    requires t.Dir? && Capturable(t) && WellNamed(t) && Fits(t, depth)
    requires Stores(h, objs, s) && ObjectsOf(h, t) <= s
    ensures Rebuild(h, objs, RootHash(h, t), depth) == Some(RecordedChildren(t.children))
  {
    StoredIsRestorable(h, objs, t, depth);
    RebuildCaptured(h, objs, t, depth);
  }

  lemma PackedPointer(h: Hash, memory: Option<Tree>, inputs: EnvironmentInputs, root: Digest)
    requires memory.Some? && memory.value.Dir? && Capturable(memory.value)
    ensures MemoryRoot(New(PackedInputs(h, memory, inputs), root)) == Some(RootHash(h, memory.value))
  {
    DigestHexRoundTrip(RootHash(h, memory.value));
  }

  /** The objects an arbitrary bundle carries. */
  ghost function Carried(bytes: Bytes): set<Bytes> {
    match ReadFile(bytes)
    case None => {}
    case Some(file) => Payload(file.objects)
  }

  /** Any two bundles that are accepted with the same manifest deliver the same trees, whatever else
    they carry and in whatever order, or two of the objects they carry collide. */
  lemma SameManifestSameTrees(h: Hash, a: Bytes, b: Bytes, m: nat, n: nat, wanted: bool)
    ensures var u, v := Contents(h, map[], a, m, wanted), Contents(h, map[], b, n, wanted);
            u.Some? && v.Some? && u.value.manifest == v.value.manifest ==> u == v || Collides(h, Carried(a) + Carried(b))
  {
    var u, v := Contents(h, map[], a, m, wanted), Contents(h, map[], b, n, wanted);
    if u.Some? && v.Some? && u.value.manifest == v.value.manifest {
      var fa, fb := ReadFile(a).value, ReadFile(b).value;
      var oa, ob := LoadAll(h, map[], fa.objects).value, LoadAll(h, map[], fb.objects).value;
      assert u == Rebuilt(h, oa, fa.manifest, m, wanted);
      assert v == Rebuilt(h, ob, fb.manifest, n, wanted);
      LoadAllFrom(h, map[], fa.objects);
      LoadAllFrom(h, map[], fb.objects);
      assert oa.Values <= Carried(a) && ob.Values <= Carried(b);
      hide ReadFile, LoadAll, Carried, Contents;
      RebuiltUnique(h, oa, ob, fa.manifest, fb.manifest, m, n, wanted);
      if Collides(h, oa.Values + ob.Values) {
        CollidesMono(h, oa.Values + ob.Values, Carried(a) + Carried(b));
      }
    }
  }

  lemma RebuiltUnique(h: Hash, oa: Objects, ob: Objects, ma: Manifest, mb: Manifest, m: nat, n: nat, wanted: bool)
    requires Rebuilt(h, oa, ma, m, wanted).Some? && Rebuilt(h, ob, mb, n, wanted).Some?
    requires Rebuilt(h, oa, ma, m, wanted).value.manifest == Rebuilt(h, ob, mb, n, wanted).value.manifest
    ensures Rebuilt(h, oa, ma, m, wanted) == Rebuilt(h, ob, mb, n, wanted) || Collides(h, oa.Values + ob.Values)
  {
    hide Rebuild, MemoryRoot;
    assert ma == mb;
    RebuildUnique(h, oa, ob, ma.workdirRootHash, m, n);
    if wanted && MemoryRoot(ma).Some? {
      RebuildUnique(h, oa, ob, MemoryRoot(ma).value, m, n);
    }
  }

  ghost predicate Holds(t: Tree, p: Path, children: map<string, Tree>) {
    Walk(t, p).Some? && Walk(t, p).value.Dir? && Walk(t, p).value.children == children
  }

  lemma RoundTripDelivered(h: Hash, objs: Objects, workdir: Tree, memory: Option<Tree>, inputs: EnvironmentInputs,
                           t: Tree, dest: Path, memoryDest: Option<Path>, depth: nat)
    requires Deliverable(workdir, memory, depth) && (memoryDest.Some? ==> memory.Some?)
    requires Extended(h, map[], objs, PackedObjects(h, workdir, memory)) && BothReady(t, dest, memoryDest)
    ensures var file := PackedFile(h, workdir, memory, inputs, objs);
            var u := Contents(h, map[], FileBytes(file), depth, memoryDest.Some?);
            || Collides(h, PackedObjects(h, workdir, memory))
            || (&& u.Some? && u.value.manifest == New(PackedInputs(h, memory, inputs), RootHash(h, workdir))
                && (u.value.memory.Some? ==> memoryDest.Some?)
                && var after := Delivered(t, dest, memoryDest, u.value);
                   && Holds(after, dest, RecordedChildren(workdir.children))
                   && (memoryDest.Some? ==> Holds(after, memoryDest.value, RecordedChildren(memory.value.children))))
  {
    PackThenUnpack(h, objs, workdir, memory, inputs, depth, memoryDest.Some?);
    var file := PackedFile(h, workdir, memory, inputs, objs);
    assert file.manifest == New(PackedInputs(h, memory, inputs), RootHash(h, workdir));
    if memory.Some? {
      PackedPointer(h, memory, inputs, RootHash(h, workdir));
    }
    hide Contents, FileBytes, PackedFile, PackedObjects, New, PackedInputs, RootHash, Collides, MemoryRoot, Ready, Delivered, Rebuild;
    var u := Contents(h, map[], FileBytes(file), depth, memoryDest.Some?);
    if u.Some? && (u.value.memory.Some? ==> memoryDest.Some?) {
      DeliveredHolds(t, dest, memoryDest, u.value);
    }
  }

  /** Below the destination is a copy of what is below the original, at every path, and nothing else. */
  ghost predicate CopiedTo(original: Tree, t: Tree, dest: Path) {
    forall p: Path :: p != [] ==> Copies(NodeAt(original, p), NodeAt(t, dest + p))
  }

  lemma HeldCopied(t: Tree, dest: Path, original: Tree)
    requires original.Dir? && Holds(t, dest, RecordedChildren(original.children))
    ensures CopiedTo(original, t, dest)
  {
    RecordedDir(original);
    hide Copies, Recorded, RecordedChildren;
    forall p: Path | p != [] ensures Copies(NodeAt(original, p), NodeAt(t, dest + p)) {
      NodeThrough(t, dest, p);
      RecordedCopies(original, p);
      SameBelow(Walk(t, dest).value, Recorded(original), p);
    }
  }

  lemma SameBelow(s: Tree, t: Tree, p: Path)
    requires s.Dir? && t.Dir? && s.children == t.children && p != []
    ensures NodeAt(s, p) == NodeAt(t, p)
  {
  }

  lemma {:induction false} NodeThrough(t: Tree, p: Path, q: Path)
    requires Walk(t, p).Some?
    ensures NodeAt(t, p + q) == NodeAt(Walk(t, p).value, q)
  {
    if p == [] {
      assert p + q == q;
    } else {
      assert (p + q)[0] == p[0] && (p + q)[1..] == p[1..] + q;
      NodeThrough(t.children[p[0]], p[1..], q);
    }
  }

  /** The round trip as one piece of work: pack into one empty store, unpack from another, and both
    destinations hold what was packed, or two of the packed objects collide. */
  method PackAndUnpack(workdir: Tree, memory: Option<Tree>, packing: CasStore, unpacking: CasStore, given: EnvironmentInputs,
                       disk: Disk, dest: Path, memoryDest: Option<Path>, depth: nat)
    returns (r: Result<Manifest>)
    requires packing != unpacking && packing.h == unpacking.h
    requires packing.Valid() && packing.objs == map[] && unpacking.Valid() && unpacking.objs == map[]
    requires Deliverable(workdir, memory, depth) && (memoryDest.Some? ==> memory.Some?)
    requires ResolvedBoth(dest, memoryDest) && BothReady(disk.root, dest, memoryDest)
    modifies packing, unpacking, disk
    ensures UntouchedElsewhere(old(disk.root), disk.root, dest, memoryDest)
    ensures || Collides(packing.h, PackedObjects(packing.h, workdir, memory))
            || (&& r == Ok(New(PackedInputs(packing.h, memory, given), RootHash(packing.h, workdir)))
                && Holds(disk.root, dest, RecordedChildren(workdir.children))
                && (memoryDest.Some? ==> Holds(disk.root, memoryDest.value, RecordedChildren(memory.value.children))))
    ensures || Collides(packing.h, PackedObjects(packing.h, workdir, memory))
            || (&& CopiedTo(workdir, disk.root, dest)
                && (memoryDest.Some? ==> CopiedTo(memory.value, disk.root, memoryDest.value)))
  {
    ghost var h, t := packing.h, disk.root;
    assert Packable(workdir, memory);
    var packed := Pack(workdir, memory, packing, given);
    UnpackConfined(h, map[], t, packed.value.bytes, dest, memoryDest, depth);
    r := Unpack(packed.value.bytes, unpacking, disk, dest, memoryDest, depth);
    RoundTripDelivered(h, packing.objs, workdir, memory, given, t, dest, memoryDest, depth);
    if !Collides(h, PackedObjects(h, workdir, memory)) {
      HeldCopied(disk.root, dest, workdir);
      if memoryDest.Some? {
        HeldCopied(disk.root, memoryDest.value, memory.value);
      }
    }
  }
}
