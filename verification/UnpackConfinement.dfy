/** When an unpack into two destinations stays inside them: exactly when neither lies on the other. */
module UnpackConfinement {
  import opened Bytes
  import opened Cas
  import opened FileTree
  import opened Disks
  import opened Snapshot
  import opened Restore
  import opened Destinations
  import opened SnapshotTheorems
  import opened Confinement
  import opened ManifestFormat
  import opened Bundle
  import opened Unpacking

  // ----- a link to a place -----

  /** A link with that text leads there. */
  lemma LinkLeads(t: Tree, link: Path, place: Path)
    requires Resolved(link) && link != [] && Resolved(place) && place != []
    requires Walk(t, link) == Some(Symlink(PathText(place))) && HasDir(t, place) && t.Dir? && Searchable(t.mode)
    ensures Locate(t, link) == At(place)
  {
    var dir, n := link[..|link| - 1], link[|link| - 1];
    assert link == dir + [n] && [] + dir == dir && [] + place == place && place + [] == place;
    FrontResolved(dir, n);
    WalkConcat(t, dir, [n]);
    WalkOne(Walk(t, dir).value, n);
    LookThrough(t, [], dir, [n], MAX_LINKS);
    SplitPath(place);
    LookLink(t, dir, n, place);
    LookThrough(t, [], place, [], MAX_LINKS - 1);
    LookDone(t, place, MAX_LINKS - 1);
  }

  lemma LookLink(t: Tree, dir: Path, n: string, place: Path)
    requires HasDir(t, dir) && Searchable(Walk(t, dir).value.mode) && ValidName(n) && t.Dir? && Searchable(t.mode)
    requires n in Walk(t, dir).value.children && Walk(t, dir).value.children[n] == Symlink(PathText(place))
    requires Split(PathText(place)) == [""] + place && "/" <= PathText(place)
    ensures Look(t, dir, [n], MAX_LINKS) == Look(t, [], place, MAX_LINKS - 1)
  {
    var todo := [""] + place;
    assert [n][1..] == [] && Split(PathText(place)) + [] == todo;
    assert todo[0] == "" && todo[1..] == place;
    assert Walk(t, []) == Some(t);
  }

  // ----- a bundle that leads out of destinations that overlap -----

  /** How one path lies on another. */
  lemma {:induction false} Overlap(p: Path, q: Path) returns (s: Path)
    requires !Apart(p, q)
    ensures q == p + s || p == q + s
  {
    if p == [] {
      s := q;
    } else if q == [] {
      s := p;
    } else {
      s := Overlap(p[1..], q[1..]);
      assert p == [p[0]] + p[1..] && q == [q[0]] + q[1..];
      if q[1..] == p[1..] + s {
        assert q == p + s;
      } else {
        assert p == q + s;
      }
    }
  }

  function OneLink(name: string, place: Path): map<string, Tree> {
    map[name := Symlink(PathText(place))]
  }

  /** A working directory with a link, and a memory directory whose path goes over it. */
  datatype Trap = Trap(work: Tree, memory: Tree, link: Path, r: Path)

  /** With the memory inside the working directory the link stands where the memory goes; otherwise the
    memory has a directory where the working directory has the link. */
  function TrapFor(dest: Path, memoryDest: Path, place: Path, name: string): Trap {
    if |memoryDest| > |dest| then
      var s := memoryDest[|dest|..];
      Trap(Nested(s[..|s| - 1], OneLink(s[|s| - 1], place)), Nested([], OneFile(name, [])), memoryDest, [])
    else
      var r := dest[|memoryDest|..] + [name];
      Trap(Nested([], OneLink(name, place)), Nested(r, OneFile(name, [])), dest + [name], r)
  }

  lemma {:induction false} NestedWith(r: Path, leaf: map<string, Tree>)
    requires Resolved(r) && forall n :: n in leaf ==> ValidName(n) && Capturable(leaf[n]) && WellNamed(leaf[n]) && !leaf[n].Dir?
    requires forall n :: n in leaf ==> Recorded(leaf[n]) == leaf[n]
    ensures var t := Nested(r, leaf);
            Capturable(t) && WellNamed(t) && Fits(t, |r| + 1) && Recorded(t) == t
  {
    var t := Nested(r, leaf);
    if r != [] {
      NestedWith(r[1..], leaf);
    }
    assert RecordedChildren(t.children) == t.children;
    RecordedDir(t);
  }

  lemma {:induction false} WalkNested(r: Path, leaf: map<string, Tree>, n: string)
    requires n in leaf
    ensures Walk(Nested(r, leaf), r + [n]) == Some(leaf[n])
  {
    if r == [] {
      assert r + [n] == [n];
    } else {
      assert (r + [n])[0] == r[0] && (r + [n])[1..] == r[1..] + [n];
      WalkNested(r[1..], leaf, n);
    }
  }

  lemma ResolvedParts(p: Path, i: nat)
    requires Resolved(p) && i <= |p|
    ensures Resolved([]) && Resolved(p[i..])
    ensures p != [] ==> Resolved(p[..|p| - 1]) && ValidName(p[|p| - 1])
  {
  }

  /** What is asked of the two trees of a trap: they can be packed, and come back as they were. */
  ghost predicate Packs(trap: Trap, name: string, depth: nat) {
    && Deliverable(trap.work, Some(trap.memory), depth)
    && Recorded(trap.work) == trap.work && trap.work.mode == NEW_DIR_MODE
    && Resolved(trap.r) && trap.memory == Nested(trap.r, OneFile(name, []))
  }

  lemma LinkTree(r: Path, n: string, place: Path, depth: nat)
    requires Resolved(r) && ValidName(n) && Resolved(place) && place != [] && |r| < depth
    ensures var t := Nested(r, OneLink(n, place));
            Capturable(t) && WellNamed(t) && Fits(t, depth) && Recorded(t) == t && t.mode == NEW_DIR_MODE
  {
    SplitPath(place);
    hide Split;
    NestedWith(r, OneLink(n, place));
    FitsMore(Nested(r, OneLink(n, place)), |r| + 1, depth);
  }

  lemma FileTreeFits(r: Path, name: string, depth: nat)
    requires Resolved(r) && ValidName(name) && |r| < depth
    ensures var t := Nested(r, OneFile(name, [])); Capturable(t) && WellNamed(t) && Fits(t, depth)
  {
    NestedFits(r, name, []);
    FitsMore(Nested(r, OneFile(name, [])), |r| + 1, depth);
  }

  lemma TrapPacks(dest: Path, memoryDest: Path, place: Path, name: string)
    requires Resolved(dest) && Resolved(memoryDest) && Resolved(place) && place != [] && ValidName(name)
    ensures Packs(TrapFor(dest, memoryDest, place, name), name, |dest| + |memoryDest| + 2)
  {
    var trap := TrapFor(dest, memoryDest, place, name);
    var depth := |dest| + |memoryDest| + 2;
    hide Resolved, Capturable, WellNamed, Fits, Recorded, ValidName, OneLink, OneFile, PathText;
    if |memoryDest| > |dest| {
      var s := memoryDest[|dest|..];
      ResolvedParts(memoryDest, |dest|);
      ResolvedParts(s, 0);
      LinkTree(s[..|s| - 1], s[|s| - 1], place, depth);
    } else {
      ResolvedParts(dest, |memoryDest|);
      NameAdded(dest[|memoryDest|..], name);
      LinkTree([], name, place, depth);
    }
    FileTreeFits(trap.r, name, depth);
  }

  /** The link lies inside the first destination and on the way of the second restore. */
  ghost predicate Lies(trap: Trap, dest: Path, memoryDest: Path, place: Path) {
    && Resolved(trap.link) && trap.link == memoryDest + trap.r
    && |trap.link| > |dest| && trap.link[..|dest|] == dest
    && Walk(trap.work, trap.link[|dest|..]) == Some(Symlink(PathText(place)))
  }

  lemma TrapLies(dest: Path, memoryDest: Path, place: Path, name: string)
    requires Resolved(dest) && Resolved(memoryDest) && !Apart(dest, memoryDest) && ValidName(name)
    ensures Lies(TrapFor(dest, memoryDest, place, name), dest, memoryDest, place)
  {
    hide Walk, Nested, Resolved, Apart, PathText;
    var trap := TrapFor(dest, memoryDest, place, name);
    var s := Overlap(dest, memoryDest);
    if |memoryDest| > |dest| {
      assert memoryDest == dest + s && memoryDest[|dest|..] == s && s == s[..|s| - 1] + [s[|s| - 1]];
      WalkNested(s[..|s| - 1], OneLink(s[|s| - 1], place), s[|s| - 1]);
    } else {
      assert dest == memoryDest + s by {
        if memoryDest == dest + s {
          assert s == [];
        }
      }
      assert dest[|memoryDest|..] == s && trap.link[|dest|..] == [name] && [] + [name] == [name];
      NameAdded(dest, name);
      WalkNested([], OneLink(name, place), name);
    }
  }

  /** After the first restore the link is there, and leads to the place. */
  lemma LinkDelivered(t: Tree, dest: Path, work: Tree, link: Path, place: Path)
    requires Ready(t, dest) && work.Dir? && Searchable(work.mode) && Apart(dest, place) && HasDir(t, place)
    requires Resolved(link) && |link| > |dest| && link[..|dest|] == dest && Resolved(place)
    requires Walk(work, link[|dest|..]) == Some(Symlink(PathText(place)))
    ensures var u := Filled(t, dest, work.children);
            Walk(u, place) == Walk(t, place) && Locate(u, link) == At(place)
  {
    var u, s := Filled(t, dest, work.children), link[|dest|..];
    FilledHolds(t, dest, work.children);
    FilledChild(t, dest, work.children, "", Special);
    WalkConcat(u, dest, s);
    assert dest + s == link;
    WalkElsewhere(t, dest, work.children, place);
    LinkLeads(u, link, place);
  }

  /** What an unpack of a packed bundle amounts to. */
  lemma UnpackPacked(h: Hash, objs: Objects, t: Tree, work: Tree, memory: Tree, inputs: EnvironmentInputs,
                     dest: Path, memoryDest: Path, depth: nat)
    requires Packable(work, Some(memory)) && Extended(h, map[], objs, PackedObjects(h, work, Some(memory)))
    ensures var bytes := FileBytes(PackedFile(h, work, Some(memory), inputs, objs));
            var first := RestoreOutcome(h, objs, t, RootHash(h, work), dest, depth);
            UnpackOutcome(h, map[], t, bytes, dest, Some(memoryDest), depth) ==
            if first.ok then RestoreOutcome(h, objs, first.root, RootHash(h, memory), memoryDest, depth) else first
  {
    var file := PackedFile(h, work, Some(memory), inputs, objs);
    hide *;
    PackedParts(h, work, memory, inputs, objs);
    ExtendedSound(h, objs, PackedObjects(h, work, Some(memory)));
    FileRoundTrip(file);
    LoadPacked(h, objs);
    UnpackRead(h, objs, t, FileBytes(file), file, dest, memoryDest, depth);
  }

  lemma PackedParts(h: Hash, work: Tree, memory: Tree, inputs: EnvironmentInputs, objs: Objects)
    requires Packable(work, Some(memory))
    ensures work.Dir? && memory.Dir? && Capturable(work) && Capturable(memory)
    ensures var file := PackedFile(h, work, Some(memory), inputs, objs);
            && file.schemaVersion == BUNDLE_SCHEMA_VERSION && file.manifest.schemaVersion < 0x1_0000_0000
            && BUNDLE_SCHEMA_VERSION < 0x1_0000_0000
            && file.manifest.workdirRootHash == RootHash(h, work)
            && MemoryRoot(file.manifest) == Some(RootHash(h, memory))
            && file.objects == EncodeItems(SortedItems(objs))
  {
    PackedPointer(h, Some(memory), inputs, RootHash(h, work));
    hide RootHash, Capturable, MemoryRoot, EncodeItems, SortedItems, PackedInputs;
  }

  lemma ExtendedSound(h: Hash, objs: Objects, s: set<Bytes>)
    requires Extended(h, map[], objs, s)
    ensures Sound(h, objs)
  {
  }

  lemma UnpackRead(h: Hash, objs: Objects, t: Tree, bytes: Bytes, file: BundleFile, dest: Path, memoryDest: Path, depth: nat)
    requires ReadFile(bytes) == Some(file) && file.schemaVersion == BUNDLE_SCHEMA_VERSION
    requires LoadAll(h, map[], file.objects) == Some(objs) && MemoryRoot(file.manifest).Some?
    ensures var first := RestoreOutcome(h, objs, t, file.manifest.workdirRootHash, dest, depth);
            UnpackOutcome(h, map[], t, bytes, dest, Some(memoryDest), depth) ==
            if first.ok then RestoreOutcome(h, objs, first.root, MemoryRoot(file.manifest).value, memoryDest, depth) else first
  {
    hide ReadFile, LoadAll, RestoreOutcome, MemoryRoot;
  }

  /** The first restore of a packed trap sets the link, and the second goes through it. */
  lemma TrapSprings(h: Hash, objs: Objects, t: Tree, dest: Path, memoryDest: Path, place: Path, name: string, trap: Trap, depth: nat)
    requires Resolved(dest) && Resolved(place) && ValidName(name) && Ready(t, dest)
    requires Room(t, place, name) && Apart(dest, place)
    requires Lies(trap, dest, memoryDest, place) && Packs(trap, name, depth)
    requires Stores(h, objs, PackedObjects(h, trap.work, Some(trap.memory)))
    ensures var first := RestoreOutcome(h, objs, t, RootHash(h, trap.work), dest, depth);
            && first.ok
            && HasFile(RestoreOutcome(h, objs, first.root, RootHash(h, trap.memory), memoryDest, depth).root, place + [name], [])
  {
    var u := Filled(t, dest, trap.work.children);
    var s := PackedObjects(h, trap.work, Some(trap.memory));
    hide *;
    TrapParts(t, dest, memoryDest, place, name, trap, depth);
    ObjectsWithin(h, trap.work, trap.memory);
    TreeDelivered(h, objs, trap.work, s, depth);
    RestoreFills(h, objs, t, RootHash(h, trap.work), dest, depth);
    FirstDone(t, dest, trap.work, Rebuild(h, objs, RootHash(h, trap.work), depth),
              RestoreOutcome(h, objs, t, RootHash(h, trap.work), dest, depth));
    LinkDelivered(t, dest, trap.work, trap.link, place);
    SameRoom(t, u, place, name);
    StoresSome(h, objs, s, ObjectsOf(h, trap.memory));
    TreeRestorable(h, objs, trap.memory, depth);
    RoomIsWritten(u, memoryDest + trap.r, place, name);
    Escapes(h, objs, u, memoryDest, trap.r, name, [], place + [name], depth);
  }

  lemma TrapParts(t: Tree, dest: Path, memoryDest: Path, place: Path, name: string, trap: Trap, depth: nat)
    requires Lies(trap, dest, memoryDest, place) && Packs(trap, name, depth) && Room(t, place, name)
    ensures trap.work.Dir? && Capturable(trap.work) && WellNamed(trap.work) && Fits(trap.work, depth)
    ensures Capturable(trap.memory) && WellNamed(trap.memory) && Fits(trap.memory, depth)
    ensures trap.memory == Nested(trap.r, OneFile(name, [])) && Packable(trap.work, Some(trap.memory))
    ensures Resolved(trap.r) && Resolved(trap.link) && trap.link == memoryDest + trap.r
    ensures |trap.link| > |dest| && trap.link[..|dest|] == dest
    ensures Walk(trap.work, trap.link[|dest|..]) == Some(Symlink(PathText(place)))
    ensures Searchable(trap.work.mode) && HasDir(t, place)
    ensures RecordedChildren(trap.work.children) == trap.work.children
  {
    hide Capturable, WellNamed, Fits, Nested, OneFile, Walk, PathText, Resolved;
  }

  lemma FirstDone(t: Tree, dest: Path, work: Tree, built: Option<map<string, Tree>>, o: Outcome)
    requires work.Dir? && Ready(t, dest) && Fills(t, dest, built, o)
    requires built == Some(RecordedChildren(work.children)) && RecordedChildren(work.children) == work.children
    ensures o == Outcome(true, Filled(t, dest, work.children))
  {
    hide Ready, Filled, RecordedChildren;
  }

  lemma SameRoom(t: Tree, u: Tree, place: Path, name: string)
    requires Room(t, place, name) && Walk(u, place) == Walk(t, place)
    ensures Room(u, place, name)
  {
  }

  lemma ObjectsWithin(h: Hash, work: Tree, memory: Tree)
    requires Packable(work, Some(memory))
    ensures ObjectsOf(h, work) <= PackedObjects(h, work, Some(memory))
    ensures ObjectsOf(h, memory) <= PackedObjects(h, work, Some(memory))
  {
    hide ObjectsOf, Capturable;
  }

  lemma StoresSome(h: Hash, objs: Objects, s: set<Bytes>, some: set<Bytes>)
    requires Stores(h, objs, s) && some <= s
    ensures Stores(h, objs, some)
  {
  }

  /** Into destinations one of which lies on the other there is a bundle that writes outside: its working
    directory brings a link, and its memory goes through it. */
  lemma TrapBundle(h: Hash, t: Tree, dest: Path, memoryDest: Path, place: Path, name: string, inputs: EnvironmentInputs)
    returns (bytes: Bytes, depth: nat)
    requires Resolved(dest) && Resolved(memoryDest) && Resolved(place) && ValidName(name) && Ready(t, dest)
    requires Room(t, place, name) && Apart(dest, place) && Apart(memoryDest, place) && !Apart(dest, memoryDest)
    ensures var trap := TrapFor(dest, memoryDest, place, name);
            && Packable(trap.work, Some(trap.memory))
            && (|| Collides(h, PackedObjects(h, trap.work, Some(trap.memory)))
                || !UntouchedElsewhere(t, UnpackOutcome(h, map[], t, bytes, dest, Some(memoryDest), depth).root, dest, Some(memoryDest)))
  {
    hide *;
    var trap := TrapFor(dest, memoryDest, place, name);
    ApartNotRoot(dest, place);
    TrapPacks(dest, memoryDest, place, name);
    TrapLies(dest, memoryDest, place, name);
    depth := |dest| + |memoryDest| + 2;
    PacksPackable(trap, name, depth);
    var objs := StoreOf(h, PackedObjects(h, trap.work, Some(trap.memory)));
    bytes := FileBytes(PackedFile(h, trap.work, Some(trap.memory), inputs, objs));
    StoreOfExtends(h, PackedObjects(h, trap.work, Some(trap.memory)));
    StoreOfStores(h, PackedObjects(h, trap.work, Some(trap.memory)));
    if !Collides(h, PackedObjects(h, trap.work, Some(trap.memory))) {
      UnpackPacked(h, objs, t, trap.work, trap.memory, inputs, dest, memoryDest, depth);
      TrapSprings(h, objs, t, dest, memoryDest, place, name, trap, depth);
      RoomIsFree(t, place, name);
      ApartDeeperThere(dest, place, name);
      ApartDeeperThere(memoryDest, place, name);
      TouchedElsewhere(t, UnpackOutcome(h, map[], t, bytes, dest, Some(memoryDest), depth).root, dest, memoryDest, place + [name]);
    }
  }

  /** A directory in which a file of that name can be made. */
  ghost predicate Room(t: Tree, place: Path, name: string) {
    CanCreate(t, place) && name !in Walk(t, place).value.children
  }

  lemma RoomIsFree(t: Tree, place: Path, name: string)
    requires Room(t, place, name)
    ensures Walk(t, place + [name]) == None
  {
    WalkConcat(t, place, [name]);
    WalkOne(Walk(t, place).value, name);
  }

  lemma RoomIsWritten(t: Tree, p: Path, place: Path, name: string)
    requires Locate(t, p) == At(place) && Room(t, place, name) && ValidName(name)
    ensures Writes(t, p + [name], place + [name])
  {
    var left := LookOn(t, [], p, [name], MAX_LINKS);
    LookLacking(t, place, name, left);
  }

  lemma ApartDeeperThere(p: Path, q: Path, n: string)
    requires Apart(p, q)
    ensures Apart(p, q + [n])
  {
    ApartSymmetric(p, q);
    ApartDeeper(q, n, p);
    ApartSymmetric(q + [n], p);
  }

  lemma ApartNotRoot(p: Path, q: Path)
    requires Apart(p, q)
    ensures q != []
  {
  }

  lemma PacksPackable(trap: Trap, name: string, depth: nat)
    requires Packs(trap, name, depth)
    ensures Packable(trap.work, Some(trap.memory))
  {
  }

  lemma TouchedElsewhere(t: Tree, u: Tree, dest: Path, memoryDest: Path, q: Path)
    requires Apart(dest, q) && Apart(memoryDest, q) && HasFile(u, q, []) && Walk(t, q) == None
    ensures !UntouchedElsewhere(t, u, dest, Some(memoryDest))
  {
  }

  /** Whatever the bundle holds, no unpack of it reaches anything outside the two destinations. */
  ghost predicate ConfinesAll(h: Hash, t: Tree, dest: Path, memoryDest: Path) {
    forall bytes, depth ::
      UntouchedElsewhere(t, UnpackOutcome(h, map[], t, bytes, dest, Some(memoryDest), depth).root, dest, Some(memoryDest))
  }

  /** Into two destinations that are new or empty, while there is a directory outside with room for one more
    file, every unpack stays inside exactly when neither destination lies on the other, or two of the
    objects of one small bundle collide. */
  lemma ConfinedExactly(h: Hash, t: Tree, dest: Path, memoryDest: Path, place: Path, name: string)
    requires Resolved(dest) && Resolved(memoryDest) && Ready(t, dest) && Ready(t, memoryDest)
    requires Resolved(place) && ValidName(name) && Room(t, place, name) && Apart(dest, place) && Apart(memoryDest, place)
    ensures var trap := TrapFor(dest, memoryDest, place, name);
            && Packable(trap.work, Some(trap.memory))
            && (|| (ConfinesAll(h, t, dest, memoryDest) <==> Apart(dest, memoryDest))
                || Collides(h, PackedObjects(h, trap.work, Some(trap.memory))))
  {
    hide Ready, UnpackOutcome, UntouchedElsewhere, Resolved, Apart, PackedObjects, Collides, Room, ValidName, TrapFor, Capturable;
    var trap := TrapFor(dest, memoryDest, place, name);
    if Apart(dest, memoryDest) {
      ApartNotRoot(dest, place);
      TrapPacks(dest, memoryDest, place, name);
      forall bytes, depth
        ensures UntouchedElsewhere(t, UnpackOutcome(h, map[], t, bytes, dest, Some(memoryDest), depth).root, dest, Some(memoryDest))
      {
        UnpackConfined(h, map[], t, bytes, dest, Some(memoryDest), depth);
      }
    } else {
      var bytes, depth := TrapBundle(h, t, dest, memoryDest, place, name, EnvironmentInputs([], map[], [], None));
    }
  }
}
