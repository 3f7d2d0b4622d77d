/** Where a restore can write. It follows the links it meets, so what keeps it inside its destination is
  that there are none: none on the way, and none inside before it starts. Those it makes itself it never
  meets again, because a node names each entry once. */
module Confinement {
  import opened Bytes
  import opened Sorting
  import opened Utf8
  import opened JsonFields
  import opened Cas
  import opened FileTree
  import opened Disks
  import opened Snapshot
  import opened Restore
  import opened SnapshotTheorems

  ghost predicate NoLinkBelow(t: Tree, p: Path) {
    forall s: Path :: !LinkAt(t, p + s)
  }

  /** No link on the path to the destination, nor in it. */
  ghost predicate LinkFree(t: Tree, dest: Path) {
    NoLinkOn(t, dest) && NoLinkBelow(t, dest)
  }

  ghost predicate HasDir(t: Tree, p: Path) {
    Walk(t, p).Some? && Walk(t, p).value.Dir?
  }

  /** At most what is at one place differs. */
  ghost predicate Within(before: Tree, after: Tree, p: Path) {
    after == before || exists s :: after == Graft(before, p, s)
  }

  lemma WithinUntouched(t: Tree, u: Tree, p: Path)
    requires Within(t, u, p)
    ensures Untouched(t, u, p)
  {
    GraftUntouched(t, p);
  }

  lemma WithinThen(t: Tree, u: Tree, v: Tree, p: Path)
    requires Within(t, u, p) && Within(u, v, p)
    ensures Within(t, v, p)
  {
    if u != t && v != u {
      var s :| u == Graft(t, p, s);
      var s' :| v == Graft(u, p, s');
      GraftGraft(t, p, s, s');
    }
  }

  /** What changes below a directory changes in it, and leaves it a directory. */
  lemma WithinDeeper(t: Tree, u: Tree, p: Path, n: string)
    requires HasDir(t, p) && Within(t, u, p + [n])
    ensures Within(t, u, p) && HasDir(u, p)
  {
    if u != t {
      var s :| u == Graft(t, p + [n], s);
      var d := Walk(t, p).value;
      GraftSnoc(t, p, n, s);
      WalkGraft(t, p, d.(children := d.children[n := s]));
    }
  }

  lemma {:induction false} SiblingsApart(p: Path, m: string, n: string, s: Path)
    requires m != n
    ensures Apart(p + [m], p + [n] + s)
  {
    if p != [] {
      assert (p + [m])[1..] == p[1..] + [m] && (p + [n] + s)[1..] == p[1..] + [n] + s;
      SiblingsApart(p[1..], m, n, s);
    }
  }

  lemma SiblingKept(t: Tree, u: Tree, p: Path, m: string, n: string)
    requires Within(t, u, p + [m]) && m != n && NoLinkBelow(t, p + [n])
    ensures NoLinkBelow(u, p + [n])
  {
    WithinUntouched(t, u, p + [m]);
    forall s: Path ensures !LinkAt(u, p + [n] + s) {
      SiblingsApart(p, m, n, s);
    }
  }

  lemma NoLinkOnEntry(t: Tree, dir: Path, n: string)
    requires HasDir(t, dir) && !LinkAt(t, dir + [n])
    ensures NoLinkOn(t, dir + [n])
  {
    var p := dir + [n];
    forall k | 0 <= k <= |p| ensures !LinkAt(t, p[..k]) {
      if k <= |dir| {
        assert p[..k] == dir[..k] && dir == dir[..k] + dir[k..];
        WalkConcat(t, dir[..k], dir[k..]);
        assert k == |dir| ==> dir[..k] == dir;
      } else {
        assert p[..k] == p;
      }
    }
  }

  // ----- one call -----

  lemma WriteWithin(t: Tree, dir: Path, n: string, content: Bytes)
    requires HasDir(t, dir) && Resolved(dir + [n]) && !LinkAt(t, dir + [n])
    ensures match WriteFile(t, dir + [n], content)
            case None => true
            case Some(u) => Within(t, u, dir + [n]) && HasDir(u, dir) && !LinkAt(u, dir + [n])
  {
    var p := dir + [n];
    NoLinkOnEntry(t, dir, n);
    LocatePlain(t, p);
    var next := WriteFile(t, p, content);
    if next.Some? {
      GraftEntry(t, dir, n, File(if Locate(t, p).At? then Walk(t, p).value.mode else NEW_FILE_MODE, content));
    }
  }

  lemma GraftEntry(t: Tree, dir: Path, n: string, s: Tree)
    requires HasDir(t, dir)
    ensures var u := Graft(t, dir + [n], s);
            Within(t, u, dir + [n]) && HasDir(u, dir) && (LinkAt(u, dir + [n]) ==> s.Symlink?)
  {
    var d := Walk(t, dir).value;
    var u := Graft(t, dir + [n], s);
    GraftSnoc(t, dir, n, s);
    WalkGraft(t, dir, d.(children := d.children[n := s]));
    WalkConcat(u, dir, [n]);
    WalkOne(Walk(u, dir).value, n);
  }

  lemma ModeWithin(t: Tree, dir: Path, n: string, mode: nat)
    requires HasDir(t, dir) && Resolved(dir + [n]) && !LinkAt(t, dir + [n])
    ensures match SetMode(t, dir + [n], mode)
            case None => true
            case Some(u) => Within(t, u, dir + [n])
  {
    NoLinkOnEntry(t, dir, n);
    LocatePlain(t, dir + [n]);
  }

  lemma LinkWithin(t: Tree, dir: Path, n: string, target: string)
    requires HasDir(t, dir) && Resolved(dir + [n])
    ensures match MakeLink(t, dir + [n], target)
            case None => true
            case Some(u) => Within(t, u, dir + [n])
  {
    LocateIn(t, dir, n);
  }

  lemma MkDirWithin(t: Tree, dir: Path, n: string)
    requires HasDir(t, dir) && Resolved(dir + [n]) && NoLinkBelow(t, dir + [n])
    ensures match CreateDirs(t, dir + [n])
            case None => true
            case Some(u) => Within(t, u, dir + [n]) && HasDir(u, dir + [n]) && NoLinkBelow(u, dir + [n])
  {
    var p := dir + [n];
    assert p + [] == p;
    NoLinkOnEntry(t, dir, n);
    CreateDirsPlain(t, p);
    MkDirHere(t, dir);
    MkDirSnoc(t, dir, n);
    MadeLinkFree(t, p);
    var made := MkDirAll(t, p);
    assert made.Some? && made.value != t ==> made.value == Graft(t, p, Dir(NEW_DIR_MODE, map[]));
  }

  /** Making a directory brings no link in. */
  lemma MadeLinkFree(t: Tree, p: Path)
    requires MkDirAll(t, p).Some? ==> NoLinkBelow(t, p)
    ensures MkDirAll(t, p).Some? ==> HasDir(MkDirAll(t, p).value, p) && NoLinkBelow(MkDirAll(t, p).value, p)
  {
    if MkDirAll(t, p).Some? {
      var u := MkDirAll(t, p).value;
      MkDirSnoc(t, p, "");
      if Walk(t, p).Some? {
        MkDirHere(t, p);
      } else {
        NewIsEmpty(t, p);
        forall s: Path ensures !LinkAt(u, p + s) {
          WalkConcat(u, p, s);
        }
      }
    }
  }

  // ----- a whole restore -----

  lemma BelowDeeper(t: Tree, p: Path, n: string)
    requires NoLinkBelow(t, p)
    ensures NoLinkBelow(t, p + [n])
  {
    forall s: Path ensures !LinkAt(t, p + [n] + s) {
      assert p + [n] + s == p + ([n] + s);
    }
  }

  lemma {:induction false} EntryWithin(h: Hash, objs: Objects, t: Tree, e: Entry, dir: Path, n: string, depth: nat)
    requires HasDir(t, dir) && Resolved(dir + [n]) && NoLinkBelow(t, dir + [n])
    ensures Within(t, EntryOutcome(h, objs, t, e, dir + [n], depth).root, dir + [n])
    decreases depth, 1, 0
  {
    var p := dir + [n];
    assert p + [] == p;
    hide WriteFile, SetMode, MakeLink, Within, HasDir, NoLinkBelow, RestoreOutcome, Fetch;
    assert !LinkAt(t, p) by { AtPlace(t, p); }
    match e
    case FileEntry(mode, d) =>
      var content := Fetch(h, objs, d);
      if content.Ok? {
        WriteWithin(t, dir, n, content.value);
        var u := WriteFile(t, p, content.value);
        if u.Some? {
          ModeWithin(u.value, dir, n, mode);
          ThenWithin(t, u.value, SetMode(u.value, p, mode), p);
        }
      }
      NothingWithin(t, p);
    case DirEntry(mode, d) =>
      RestoreWithin(h, objs, t, d, dir, n, depth);
      var u := RestoreOutcome(h, objs, t, d, p, depth).root;
      WithinDeeper(t, u, dir, n);
      ModeWithin(u, dir, n, mode);
      ThenWithin(t, u, SetMode(u, p, mode), p);
    case SymlinkEntry(target) =>
      LinkWithin(t, dir, n, target);
      NothingWithin(t, p);
  }

  lemma AtPlace(t: Tree, p: Path)
    requires NoLinkBelow(t, p)
    ensures !LinkAt(t, p)
  {
    assert p + [] == p;
  }

  lemma NothingWithin(t: Tree, p: Path)
    ensures Within(t, t, p)
  {
  }

  lemma ThenWithin(t: Tree, u: Tree, next: Option<Tree>, p: Path)
    requires Within(t, u, p) && (next.Some? ==> Within(u, next.value, p))
    ensures Within(t, After(next, u).root, p)
  {
    if next.Some? {
      WithinThen(t, u, next.value, p);
    }
  }

  lemma {:induction false} NamesWithin(h: Hash, objs: Objects, t: Tree, node: DirNode, names: seq<string>, dest: Path, depth: nat)
    requires HasDir(t, dest) && Resolved(dest) && NoDuplicates(names)
    requires forall n :: n in names ==> n in node && NoLinkBelow(t, dest + [n])
    ensures var u := NamesOutcome(h, objs, t, node, names, dest, depth).root; Within(t, u, dest) && HasDir(u, dest)
    decreases depth, 2, |names|
  {
    hide Within, HasDir, NoLinkBelow, EntryOutcome, NamesOutcome, NoDuplicates, ValidName, Resolved;
    NothingWithin(t, dest);
    DistinctTail(names);
    if names == [] {
      NamesEnd(h, objs, t, node, dest, depth);
    } else {
      var n, rest := names[0], names[1..];
      NamesStep(h, objs, t, node, names, dest, depth);
      if ValidName(n) {
        NameAdded(dest, n);
        EntryWithin(h, objs, t, node[n], dest, n, depth);
        var one := EntryOutcome(h, objs, t, node[n], dest + [n], depth);
        WithinDeeper(t, one.root, dest, n);
        if one.ok {
          forall m | m in rest ensures m in node && NoLinkBelow(one.root, dest + [m]) {
            SiblingKept(t, one.root, dest, n, m);
          }
          NamesWithin(h, objs, one.root, node, rest, dest, depth);
          WithinThen(t, one.root, NamesOutcome(h, objs, one.root, node, rest, dest, depth).root, dest);
        }
      }
    }
  }

  lemma {:induction false} RestoreWithin(h: Hash, objs: Objects, t: Tree, d: Digest, dir: Path, n: string, depth: nat)
    requires HasDir(t, dir) && Resolved(dir + [n]) && NoLinkBelow(t, dir + [n])
    ensures var u := RestoreOutcome(h, objs, t, d, dir + [n], depth).root; Within(t, u, dir + [n]) && !LinkAt(u, dir + [n])
    decreases depth, 0, 0
  {
    var p := dir + [n];
    hide *;
    AtPlace(t, p);
    NothingWithin(t, p);
    RestoreStops(h, objs, t, d, p, depth);
    MkDirWithin(t, dir, n);
    if depth > 0 && CreateDirs(t, p).Some? {
      var made := CreateDirs(t, p).value;
      AtPlace(made, p);
      if LoadNode(h, objs, d).Ok? {
        var node := LoadNode(h, objs, d).value;
        RestoreStep(h, objs, t, d, p, depth, made, node);
        AllBelow(made, p);
        NamesWithin(h, objs, made, node, SortSet(ByUtf8, node.Keys), p, depth - 1);
        var u := NamesOutcome(h, objs, made, node, SortSet(ByUtf8, node.Keys), p, depth - 1).root;
        WithinThen(t, made, u, p);
        DirIsNoLink(u, p);
      }
    }
  }

  lemma AllBelow(t: Tree, p: Path)
    requires NoLinkBelow(t, p)
    ensures forall n :: NoLinkBelow(t, p + [n])
  {
    forall n ensures NoLinkBelow(t, p + [n]) {
      BelowDeeper(t, p, n);
    }
  }

  lemma DirIsNoLink(t: Tree, p: Path)
    requires HasDir(t, p)
    ensures !LinkAt(t, p)
  {
  }

  lemma MadeConfined(t: Tree, dest: Path)
    requires Resolved(dest) && LinkFree(t, dest)
    ensures match CreateDirs(t, dest)
            case None => true
            case Some(made) => Untouched(t, made, dest) && HasDir(made, dest) && NoLinkBelow(made, dest)
  {
    CreateDirsPlain(t, dest);
    MkDirUntouched(t, dest);
    MadeLinkFree(t, dest);
  }

  /** Whatever the objects say, and however far it gets, a restore into a destination without links on
    the way or inside changes nothing outside it. */
  lemma RestoreConfined(h: Hash, objs: Objects, t: Tree, d: Digest, dest: Path, depth: nat)
    requires Resolved(dest) && LinkFree(t, dest)
    ensures Untouched(t, RestoreOutcome(h, objs, t, d, dest, depth).root, dest)
  {
    hide *;
    MadeConfined(t, dest);
    SameUntouched(t, dest);
    RestoreStops(h, objs, t, d, dest, depth);
    if depth > 0 && CreateDirs(t, dest).Some? && LoadNode(h, objs, d).Ok? {
      var made, node := CreateDirs(t, dest).value, LoadNode(h, objs, d).value;
      RestoreStep(h, objs, t, d, dest, depth, made, node);
      AllBelow(made, dest);
      NamesWithin(h, objs, made, node, SortSet(ByUtf8, node.Keys), dest, depth - 1);
      var u := NamesOutcome(h, objs, made, node, SortSet(ByUtf8, node.Keys), dest, depth - 1).root;
      WithinUntouched(made, u, dest);
      UntouchedThen(t, made, u, dest);
    }
  }

  lemma SameUntouched(t: Tree, p: Path)
    ensures Untouched(t, t, p)
  {
  }

  /** A destination that is new or empty has no links. */
  lemma ReadyLinkFree(t: Tree, dest: Path)
    requires Ready(t, dest)
    ensures LinkFree(t, dest)
  {
    ReadyPlain(t, dest);
    forall s: Path ensures !LinkAt(t, dest + s) {
      WalkConcat(t, dest, s);
      if Walk(t, dest).Some? {
        MkDirHere(t, dest);
      }
    }
  }

  // ----- a link that leads out -----

  /** A path that goes on behind a place it leads to. */
  lemma {:induction false} LookOn(t: Tree, at: Path, p: Path, rest: seq<string>, links: nat) returns (left: nat)
    requires Look(t, at, p, links).At?
    ensures Look(t, at, p + rest, links) == Look(t, Look(t, at, p, links).place, rest, left)
    decreases links, |p|
  {
    left := links;
    if p == [] {
      assert p + rest == rest;
    } else {
      var d := Walk(t, at).value;
      var name := p[0];
      assert (p + rest)[0] == name && (p + rest)[1..] == p[1..] + rest;
      if name == "" || name == "." {
        left := LookOn(t, at, p[1..], rest, links);
      } else if name == ".." {
        left := LookOn(t, if at == [] then [] else at[..|at| - 1], p[1..], rest, links);
      } else if d.children[name].Symlink? {
        var target := d.children[name].target;
        assert Split(target) + p[1..] + rest == Split(target) + (p[1..] + rest);
        left := LookOn(t, if "/" <= target then [] else at, Split(target) + p[1..], rest, links - 1);
      } else {
        left := LookOn(t, at + [name], p[1..], rest, links);
      }
    }
  }

  /** Where a path ends that leads to something, or lacks its last name only. */
  predicate Ends(found: Found) {
    found.At? || (found.Absent? && |found.rest| == 1)
  }

  /** Every path on the way leads to a directory. */
  lemma {:induction false} LookFront(t: Tree, at: Path, p: Path, rest: seq<string>, links: nat)
    requires Ends(Look(t, at, p + rest, links)) && rest != []
    ensures Look(t, at, p, links).At? && HasDir(t, Look(t, at, p, links).place)
    decreases links, |p|
  {
    if p == [] {
      assert p + rest == rest;
    } else {
      var d := Walk(t, at).value;
      var name := p[0];
      assert (p + rest)[0] == name && (p + rest)[1..] == p[1..] + rest;
      if name == "" || name == "." {
        LookFront(t, at, p[1..], rest, links);
      } else if name == ".." {
        LookFront(t, if at == [] then [] else at[..|at| - 1], p[1..], rest, links);
      } else if d.children[name].Symlink? {
        var target := d.children[name].target;
        assert Split(target) + p[1..] + rest == Split(target) + (p[1..] + rest);
        LookFront(t, if "/" <= target then [] else at, Split(target) + p[1..], rest, links - 1);
      } else {
        LookFront(t, at + [name], p[1..], rest, links);
      }
    }
  }

  ghost predicate HasFile(t: Tree, p: Path, content: Bytes) {
    Walk(t, p).Some? && Walk(t, p).value.File? && Walk(t, p).value.content == content
  }

  /** A mode with which directories can be searched hides no file and changes none. */
  lemma {:induction false} ModeHidesNothing(t: Tree, q: Path, mode: nat, p: Path, content: Bytes)
    requires Walk(t, q).Some? && HasFile(t, p, content) && Searchable(mode % 4096)
    ensures HasFile(Graft(t, q, WithMode(Walk(t, q).value, mode)), p, content)
  {
    if q != [] && p != [] {
      if |q| == 1 {
        assert q[1..] == [];
      }
      if p[0] == q[0] {
        ModeHidesNothing(t.children[p[0]], q[1..], mode, p[1..], content);
      }
    }
  }

  /** Directories one in the other, and what the innermost holds. */
  function Nested(r: Path, leaf: map<string, Tree>): (t: Tree)
    ensures t.Dir?
  {
    Dir(NEW_DIR_MODE, if r == [] then leaf else map[r[0] := Nested(r[1..], leaf)])
  }

  function OneFile(name: string, content: Bytes): map<string, Tree> {
    map[name := File(NEW_DIR_MODE, content)]
  }

  lemma SingleName(n: string)
    ensures SortSet(ByUtf8, {n}) == [n]
  {
    SortedKeys({n});
    hide SortSet, SortedBy;
    var names := SortSet(ByUtf8, {n});
    assert n in names;
    MultisetOfDistinct(names);
    assert multiset({n}) == multiset{n};
    assert |names| == |multiset(names)| == 1;
  }

  /** The only entry of a node decides. */
  lemma SingleEntry(h: Hash, objs: Objects, t: Tree, d: Digest, dest: Path, depth: nat, n: string, e: Entry)
    requires depth > 0 && IsDir(t, dest) && ValidName(n) && LoadNode(h, objs, d) == Ok(map[n := e])
    ensures RestoreOutcome(h, objs, t, d, dest, depth) == EntryOutcome(h, objs, t, e, dest + [n], depth - 1)
  {
    var node: DirNode := map[n := e];
    assert node.Keys == {n};
    SingleName(n);
    assert CreateDirs(t, dest) == Some(t);
    hide LoadNode, RestoreOutcome, NamesOutcome, EntryOutcome, SortSet, IsDir, CreateDirs;
    RestoreStep(h, objs, t, d, dest, depth, t, node);
    NamesStep(h, objs, t, node, [n], dest, depth - 1);
    var one := EntryOutcome(h, objs, t, e, dest + [n], depth - 1);
    NamesEnd(h, objs, one.root, node, dest, depth - 1);
    assert [n][1..] == [];
  }

  /** Where a write through a path ends up: in a file that is there, or in a new one. */
  ghost predicate Writes(t: Tree, p: Path, place: Path) {
    match Locate(t, p)
    case At(there) => there == place && Walk(t, place).Some? && Walk(t, place).value.File? && Writable(Walk(t, place).value.mode)
    case Absent(dir, rest) => |rest| == 1 && CanCreate(t, dir) && place == dir + rest
    case Broken => false
  }

  lemma ModeLeaves(t: Tree, p: Path, q: Path, content: Bytes)
    requires HasFile(t, q, content)
    ensures HasFile(After(SetMode(t, p, NEW_DIR_MODE), t).root, q, content)
  {
    var found := Locate(t, p);
    if found.At? && Walk(t, found.place).Some? {
      ModeHidesNothing(t, found.place, NEW_DIR_MODE, q, content);
    }
  }

  lemma WriteLands(t: Tree, p: Path, place: Path, content: Bytes)
    requires Writes(t, p, place)
    ensures WriteFile(t, p, content).Some? && HasFile(WriteFile(t, p, content).value, place, content)
  {
    var found := Locate(t, p);
    if found.At? {
      WalkGraft(t, place, File(Walk(t, place).value.mode, content));
    } else {
      var dir, n := found.dir, found.rest[0];
      assert place == dir + [n];
      LandsIn(t, dir, n, File(NEW_FILE_MODE, content));
    }
  }

  lemma LandsIn(t: Tree, dir: Path, n: string, s: Tree)
    requires CanCreate(t, dir)
    ensures Walk(Graft(t, dir + [n], s), dir + [n]) == Some(s)
  {
    var d := Walk(t, dir).value;
    var u := Graft(t, dir + [n], s);
    GraftSnoc(t, dir, n, s);
    WalkGraft(t, dir, d.(children := d.children[n := s]));
    WalkConcat(u, dir, [n]);
    WalkOne(Walk(u, dir).value, n);
  }

  lemma FileEscapes(h: Hash, objs: Objects, t: Tree, p: Path, place: Path, content: Bytes, depth: nat)
    requires p != [] && Writes(t, p, place) && Fetch(h, objs, h(content)) == Ok(content)
    ensures HasFile(EntryOutcome(h, objs, t, FileEntry(NEW_DIR_MODE, h(content)), p, depth).root, place, content)
  {
    hide WriteFile, SetMode, Writes, HasFile;
    WriteLands(t, p, place, content);
    ModeLeaves(WriteFile(t, p, content).value, p, place, content);
  }

  /** If a path in the destination can be written through, there is a recorded tree whose restore writes what
    it likes there: directories along that path, and in them the file. */
  lemma {:induction false} Escapes(h: Hash, objs: Objects, t: Tree, base: Path, r: Path, name: string, content: Bytes, place: Path, depth: nat)
    requires Resolved(r) && ValidName(name) && Writes(t, base + r + [name], place)
    requires Capturable(Nested(r, OneFile(name, content))) && Restorable(h, objs, Nested(r, OneFile(name, content)), depth)
    ensures HasFile(RestoreOutcome(h, objs, t, RootHash(h, Nested(r, OneFile(name, content))), base, depth).root, place, content)
    decreases |r|
  {
    hide *;
    BaseIsDir(t, base, r, name, place);
    if r == [] {
      assert base + r == base;
      FileLevel(h, objs, name, content, depth);
      SingleEntry(h, objs, t, RootHash(h, Nested([], OneFile(name, content))), base, depth, name, FileEntry(NEW_DIR_MODE, h(content)));
      FileEscapes(h, objs, t, base + [name], place, content, depth - 1);
    } else {
      var n, rest := r[0], r[1..];
      DirLevel(h, objs, r, OneFile(name, content), depth);
      var sub := RootHash(h, Nested(rest, OneFile(name, content)));
      SingleEntry(h, objs, t, RootHash(h, Nested(r, OneFile(name, content))), base, depth, n, DirEntry(NEW_DIR_MODE, sub));
      assert base + r == base + [n] + rest;
      Escapes(h, objs, t, base + [n], rest, name, content, place, depth - 1);
      DirEntryKeeps(h, objs, t, sub, base + [n], depth - 1, place, content);
    }
  }

  lemma BaseIsDir(t: Tree, base: Path, r: Path, name: string, place: Path)
    requires Resolved(r) && Writes(t, base + r + [name], place)
    ensures IsDir(t, base) && (r != [] ==> ValidName(r[0]) && Resolved(r[1..]))
  {
    assert base + r + [name] == base + (r + [name]);
    LookFront(t, [], base, r + [name], MAX_LINKS);
  }

  lemma DirEntryKeeps(h: Hash, objs: Objects, t: Tree, d: Digest, p: Path, depth: nat, q: Path, content: Bytes)
    requires p != [] && HasFile(RestoreOutcome(h, objs, t, d, p, depth).root, q, content)
    ensures HasFile(EntryOutcome(h, objs, t, DirEntry(NEW_DIR_MODE, d), p, depth).root, q, content)
  {
    hide RestoreOutcome, HasFile, SetMode;
    ModeLeaves(RestoreOutcome(h, objs, t, d, p, depth).root, p, q, content);
  }

  /** A restorable directory with one entry: its node, and its child. */
  lemma OnlyChild(h: Hash, objs: Objects, t: Tree, n: string, depth: nat)
    requires t.Dir? && t.children.Keys == {n} && Capturable(t) && Restorable(h, objs, t, depth)
    ensures depth > 0 && Capturable(t.children[n]) && Restorable(h, objs, t.children[n], depth - 1)
    ensures LoadNode(h, objs, RootHash(h, t)) == Ok(map[n := EntryOf(h, t.children[n])])
  {
    hide LoadNode, RootHash, EntryOf;
    OneEntryNode(h, t.children, n);
  }

  lemma OneEntryNode(h: Hash, children: map<string, Tree>, n: string)
    requires children.Keys == {n} && Capturable(children[n]) && forall m :: m in children ==> Capturable(children[m])
    ensures NodeOf(h, children) == map[n := EntryOf(h, children[n])]
  {
    hide EntryOf, Capturable;
  }

  lemma FileLevel(h: Hash, objs: Objects, name: string, content: Bytes, depth: nat)
    requires Capturable(Nested([], OneFile(name, content))) && Restorable(h, objs, Nested([], OneFile(name, content)), depth)
    ensures depth > 0 && Fetch(h, objs, h(content)) == Ok(content)
    ensures LoadNode(h, objs, RootHash(h, Nested([], OneFile(name, content)))) == Ok(map[name := FileEntry(NEW_DIR_MODE, h(content))])
  {
    hide LoadNode, RootHash, Fetch;
    OnlyChild(h, objs, Nested([], OneFile(name, content)), name, depth);
  }

  lemma DirLevel(h: Hash, objs: Objects, r: Path, leaf: map<string, Tree>, depth: nat)
    requires r != [] && Capturable(Nested(r, leaf)) && Restorable(h, objs, Nested(r, leaf), depth)
    ensures depth > 0 && Capturable(Nested(r[1..], leaf)) && Restorable(h, objs, Nested(r[1..], leaf), depth - 1)
    ensures LoadNode(h, objs, RootHash(h, Nested(r, leaf))) == Ok(map[r[0] := DirEntry(NEW_DIR_MODE, RootHash(h, Nested(r[1..], leaf)))])
  {
    hide *;
    NestedShape(r, leaf);
    OnlyChild(h, objs, Nested(r, leaf), r[0], depth);
    EntryOfDir(h, Nested(r[1..], leaf));
  }

  lemma NestedShape(r: Path, leaf: map<string, Tree>)
    requires r != []
    ensures var t, sub := Nested(r, leaf), Nested(r[1..], leaf);
            && t.Dir? && t.children.Keys == {r[0]} && t.children[r[0]] == sub
            && sub.Dir? && sub.mode % 512 == NEW_DIR_MODE
  {
  }

  lemma {:induction false} NestedFits(r: Path, name: string, content: Bytes)
    requires Resolved(r) && ValidName(name)
    ensures var t := Nested(r, OneFile(name, content)); WellNamed(t) && Fits(t, |r| + 1) && Capturable(t)
  {
    if r != [] {
      NestedFits(r[1..], name, content);
    }
  }

  /** So no path in a destination may lead a write to a place outside it, be it through a link to a directory,
    to a file or to nothing yet: else there is a sound store of few objects, and a root in it, whose
    restore is not confined. */
  lemma WayOut(h: Hash, t: Tree, dest: Path, r: Path, name: string, place: Path)
    returns (content: Bytes, objs: Objects, d: Digest, depth: nat)
    requires Resolved(r) && ValidName(name) && Writes(t, dest + r + [name], place) && Apart(dest, place)
    ensures Capturable(Nested(r, OneFile(name, content))) && Sound(h, objs)
    ensures !Untouched(t, RestoreOutcome(h, objs, t, d, dest, depth).root, dest)
            || Collides(h, ObjectsOf(h, Nested(r, OneFile(name, content))))
  {
    hide *;
    content := OtherContent(t, place);
    var tree := Nested(r, OneFile(name, content));
    NestedFits(r, name, content);
    objs, d, depth := StoreOf(h, ObjectsOf(h, tree)), RootHash(h, tree), |r| + 1;
    StoreOfStores(h, ObjectsOf(h, tree));
    if !Collides(h, ObjectsOf(h, tree)) {
      TreeRestorable(h, objs, tree, depth);
      Escapes(h, objs, t, dest, r, name, content, place, depth);
      NotUntouched(t, RestoreOutcome(h, objs, t, d, dest, depth).root, dest, place, content);
    }
  }

  lemma OtherContent(t: Tree, place: Path) returns (content: Bytes)
    ensures !HasFile(t, place, content)
  {
    content := if HasFile(t, place, []) then [0] else [];
  }

  lemma NotUntouched(t: Tree, u: Tree, p: Path, q: Path, content: Bytes)
    requires Apart(p, q) && HasFile(u, q, content) && !HasFile(t, q, content)
    ensures !Untouched(t, u, p)
  {
  }

  lemma StoreOfStores(h: Hash, s: set<Bytes>)
    ensures Sound(h, StoreOf(h, s)) && (Stores(h, StoreOf(h, s), s) || Collides(h, s))
  {
    var nothing: Objects := map[];
    StoreOfExtends(h, s);
    ExtendedStores(h, nothing, StoreOf(h, s), s);
    assert nothing.Values + s == s;
  }

  lemma TreeRestorable(h: Hash, objs: Objects, t: Tree, depth: nat)
    requires Capturable(t) && WellNamed(t) && Fits(t, depth) && Stores(h, objs, ObjectsOf(h, t))
    ensures Restorable(h, objs, t, depth)
  {
    hide Capturable, WellNamed, Fits, Stores, ObjectsOf, Restorable;
    StoredIsRestorable(h, objs, t, depth);
  }
}
