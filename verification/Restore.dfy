/** Rebuilding a recorded directory on disk: `restore` in `tree.rs`.

  The recursion follows digests found in untrusted objects, so nothing bounds its depth; `depth`
  is the stack it has. Running out is an error like any other. */
module Restore {
  import opened Bytes
  import opened Sorting
  import opened JsonFields
  import opened Utf8
  import opened Cas
  import opened FileTree
  import opened Disks
  import opened Snapshot

  ghost function LoadNode(h: Hash, objs: Objects, d: Digest): Result<DirNode> {
    match Fetch(h, objs, d)
    case Err(e) => Err(e)
    case Ok(bytes) =>
      match ReadNode(bytes)
      case None => Err(Encoding)
      case Some(node) => Ok(node)
  }

  /** The children a digest stands for in a store, or `None` if some object below it is missing,
    corrupt or malformed, a name is unsafe, or the nesting is deeper than `depth`. */
  ghost function Rebuild(h: Hash, objs: Objects, d: Digest, depth: nat): Option<map<string, Tree>>
    decreases depth, 0
  {
    if depth == 0 then None
    else
      match LoadNode(h, objs, d)
      case Err(_) => None
      case Ok(node) => RebuildNode(h, objs, node, depth - 1)
  }

  ghost function RebuildNode(h: Hash, objs: Objects, node: DirNode, depth: nat): Option<map<string, Tree>>
    decreases depth, 2
  {
    if forall n :: n in node ==> ValidName(n) && RebuildEntry(h, objs, node[n], depth).Some? then
      Some(map n | n in node :: RebuildEntry(h, objs, node[n], depth).value)
    else None
  }

  ghost function RebuildEntry(h: Hash, objs: Objects, e: Entry, depth: nat): Option<Tree>
    decreases depth, 1
  {
    match e
    case FileEntry(mode, d) =>
      (match Fetch(h, objs, d)
       case Ok(content) => Some(File(mode % 4096, content))
       case Err(_) => None)
    case DirEntry(mode, d) =>
      (match Rebuild(h, objs, d, depth)
       case Some(children) => Some(Dir(mode % 4096, children))
       case None => None)
    case SymlinkEntry(target) => if ValidTarget(target) then Some(Symlink(target)) else None
  }

  method Load(d: Digest, cas: CasStore) returns (r: Result<DirNode>)
    requires cas.Valid()
    ensures r == LoadNode(cas.h, cas.objs, d)
  {
    var bytes := cas.Get(d);
    if bytes.Err? {
      return Err(bytes.error);
    }
    var node := ReadNode(bytes.value);
    return if node.None? then Err(Encoding) else Ok(node.value);
  }

  // ----- what the calls do, in order -----

  /** How far a restore got: whether it went through, and the disk it left. */
  datatype Outcome = Outcome(ok: bool, root: Tree)

  function After(next: Option<Tree>, t: Tree): Outcome {
    match next
    case None => Outcome(false, t)
    case Some(u) => Outcome(true, u)
  }

  ghost function RestoreOutcome(h: Hash, objs: Objects, t: Tree, d: Digest, dest: Path, depth: nat): Outcome
    decreases depth, 0, 0
  {
    if depth == 0 then Outcome(false, t)
    else
      match CreateDirs(t, dest)
      case None => Outcome(false, t)
      case Some(made) =>
        match LoadNode(h, objs, d)
        case Err(_) => Outcome(false, made)
        case Ok(node) =>
          SortedKeys(node.Keys);
          NamesOutcome(h, objs, made, node, SortSet(ByUtf8, node.Keys), dest, depth - 1)
  }

  ghost function NamesOutcome(h: Hash, objs: Objects, t: Tree, node: DirNode, names: seq<string>, dest: Path, depth: nat): Outcome
    requires forall n :: n in names ==> n in node
    decreases depth, 2, |names|
  {
    if names == [] then Outcome(true, t)
    else if !ValidName(names[0]) then Outcome(false, t)
    else
      var one := EntryOutcome(h, objs, t, node[names[0]], dest + [names[0]], depth);
      if !one.ok then one else NamesOutcome(h, objs, one.root, node, names[1..], dest, depth)
  }

  ghost function EntryOutcome(h: Hash, objs: Objects, t: Tree, e: Entry, p: Path, depth: nat): Outcome
    requires p != []
    decreases depth, 1, 0
  {
    match e
    case FileEntry(mode, d) =>
      (match Fetch(h, objs, d)
       case Err(_) => Outcome(false, t)
       case Ok(content) =>
         match WriteFile(t, p, content)
         case None => Outcome(false, t)
         case Some(u) => After(SetMode(u, p, mode), u))
    case DirEntry(mode, d) =>
      var sub := RestoreOutcome(h, objs, t, d, p, depth);
      if sub.ok then After(SetMode(sub.root, p, mode), sub.root) else sub
    case SymlinkEntry(target) => After(MakeLink(t, p, target), t)
  }

  lemma RestoreStep(h: Hash, objs: Objects, t: Tree, d: Digest, dest: Path, depth: nat, made: Tree, node: DirNode)
    requires depth > 0 && CreateDirs(t, dest) == Some(made) && LoadNode(h, objs, d) == Ok(node)
    ensures forall n :: n in SortSet(ByUtf8, node.Keys) <==> n in node
    ensures NoDuplicates(SortSet(ByUtf8, node.Keys))
    ensures RestoreOutcome(h, objs, t, d, dest, depth)
         == NamesOutcome(h, objs, made, node, SortSet(ByUtf8, node.Keys), dest, depth - 1)
  {
    SortedKeys(node.Keys);
    hide NamesOutcome, CreateDirs, LoadNode, SortSet;
  }

  lemma RestoreStops(h: Hash, objs: Objects, t: Tree, d: Digest, dest: Path, depth: nat)
    ensures depth == 0 || CreateDirs(t, dest).None? ==> RestoreOutcome(h, objs, t, d, dest, depth) == Outcome(false, t)
    ensures depth > 0 && CreateDirs(t, dest).Some? && LoadNode(h, objs, d).Err? ==>
              RestoreOutcome(h, objs, t, d, dest, depth) == Outcome(false, CreateDirs(t, dest).value)
  {
    hide NamesOutcome, CreateDirs, LoadNode, SortSet;
  }

  lemma NamesStep(h: Hash, objs: Objects, t: Tree, node: DirNode, names: seq<string>, dest: Path, depth: nat)
    requires names != [] && forall n :: n in names ==> n in node
    ensures NamesOutcome(h, objs, t, node, names, dest, depth) ==
            if !ValidName(names[0]) then Outcome(false, t)
            else
              var one := EntryOutcome(h, objs, t, node[names[0]], dest + [names[0]], depth);
              if !one.ok then one else NamesOutcome(h, objs, one.root, node, names[1..], dest, depth)
  {
    hide EntryOutcome, ValidName;
  }

  lemma NamesEnd(h: Hash, objs: Objects, t: Tree, node: DirNode, dest: Path, depth: nat)
    ensures NamesOutcome(h, objs, t, node, [], dest, depth) == Outcome(true, t)
  {
  }

  // ----- restore -----

  lemma NameAdded(dest: Path, n: string)
    requires Resolved(dest) && ValidName(n)
    ensures Resolved(dest + [n])
  {
  }

  /** One entry. A directory gets its mode only after its children are in place, so a read-only mode
    does not stop what goes inside it. */
  method RestoreEntry(e: Entry, cas: CasStore, disk: Disk, p: Path, depth: nat) returns (r: Result<()>)
    requires cas.Valid() && Resolved(p) && p != []
    modifies disk
    ensures Outcome(r.Ok?, disk.root) == EntryOutcome(cas.h, cas.objs, old(disk.root), e, p, depth)
    decreases depth, 1
  {
    var ok: bool;
    match e {
      case FileEntry(mode, d) =>
        var content := cas.Get(d);
        if content.Err? {
          return Err(content.error);
        }
        ok := disk.Write(p, content.value);
        if ok {
          ok := disk.ChangeMode(p, mode);
        }
      case DirEntry(mode, d) =>
        var sub := RestoreTree(d, cas, disk, p, depth);
        if sub.Err? {
          return Err(sub.error);
        }
        ok := disk.ChangeMode(p, mode);
      case SymlinkEntry(target) =>
        ok := disk.MakeSymlink(p, target);
    }
    return if ok then Ok(()) else Err(Io);
  }

  /** The loop of `restore`: every name is checked before it reaches the disk. */
  method RestoreEntries(node: DirNode, cas: CasStore, disk: Disk, dest: Path, depth: nat) returns (r: Result<()>)
    requires cas.Valid() && Resolved(dest)
    modifies disk
    ensures (forall n :: n in SortSet(ByUtf8, node.Keys) ==> n in node)
    ensures Outcome(r.Ok?, disk.root)
         == NamesOutcome(cas.h, cas.objs, old(disk.root), node, SortSet(ByUtf8, node.Keys), dest, depth)
    decreases depth, 2
  {
    hide NamesOutcome, EntryOutcome, SortSet, ValidName;
    ghost var h, objs := cas.h, cas.objs;
    var names := SortKeys(node);
    SortedKeys(node.Keys);
    ghost var outcome := NamesOutcome(h, objs, disk.root, node, names, dest, depth);
    assert names[0..] == names;
    for i := 0 to |names|
      invariant outcome == NamesOutcome(h, objs, disk.root, node, names[i..], dest, depth)
    {
      var name := names[i];
      assert names[i..][0] == name && names[i..][1..] == names[i + 1..];
      NamesStep(h, objs, disk.root, node, names[i..], dest, depth);
      if !ValidName(name) {
        return Err(UnsafeEntryName(name));
      }
      NameAdded(dest, name);
      r := RestoreEntry(node[name], cas, disk, dest + [name], depth);
      if r.Err? {
        return r;
      }
    }
    NamesEnd(h, objs, disk.root, node, dest, depth);
    return Ok(());
  }

  /** `restore`: into any destination at all, step by step. */
  method RestoreTree(d: Digest, cas: CasStore, disk: Disk, dest: Path, depth: nat) returns (r: Result<()>)
    requires cas.Valid() && Resolved(dest)
    modifies disk
    ensures Outcome(r.Ok?, disk.root) == RestoreOutcome(cas.h, cas.objs, old(disk.root), d, dest, depth)
    ensures Ready(old(disk.root), dest) ==>
              Fills(old(disk.root), dest, Rebuild(cas.h, cas.objs, d, depth), Outcome(r.Ok?, disk.root))
    decreases depth, 0
  {
    hide Ready, Fills, LoadNode, RestoreOutcome, NamesOutcome, CreateDirs, SortSet, Rebuild;
    if Ready(disk.root, dest) {
      RestoreFills(cas.h, cas.objs, disk.root, d, dest, depth);
    }
    RestoreStops(cas.h, cas.objs, disk.root, d, dest, depth);
    if depth == 0 {
      return Err(StackExhausted);
    }
    ghost var t := disk.root;
    var made := disk.CreateDirAll(dest);
    if !made {
      return Err(Io);
    }
    var node := Load(d, cas);
    if node.Err? {
      return Err(node.error);
    }
    RestoreStep(cas.h, cas.objs, t, d, dest, depth, disk.root, node.value);
    r := RestoreEntries(node.value, cas, disk, dest, depth - 1);
  }

  // ----- into an empty destination -----

  /** The destination is, or can be made, an empty directory the owner can write. */
  predicate Ready(t: Tree, dest: Path) {
    match MkDirAll(t, dest)
    case Some(made) => CanCreate(made, dest) && Walk(made, dest).value.children == map[]
    case None => false
  }

  /** The disk after a restore put `children` into the destination. */
  ghost function Filled(t: Tree, dest: Path, children: map<string, Tree>): Tree
    requires Ready(t, dest)
  {
    var made := MkDirAll(t, dest).value;
    Graft(made, dest, Dir(Walk(made, dest).value.mode, children))
  }

  /** The destination after a further child appeared in it, whatever operation made it. */
  lemma FilledChild(t: Tree, dest: Path, children: map<string, Tree>, n: string, s: Tree)
    requires Ready(t, dest)
    ensures var u := Filled(t, dest, children);
            && CanCreate(u, dest)
            && Walk(u, dest + [n]) == (if n in children then Some(children[n]) else None)
            && Graft(u, dest + [n], s) == Filled(t, dest, children[n := s])
            && (n !in children ==> MkDirAll(u, dest + [n]) == Some(Filled(t, dest, children[n := Dir(NEW_DIR_MODE, map[])])))
  {
    var made := MkDirAll(t, dest).value;
    var u := Filled(t, dest, children);
    WalkGraft(made, dest, Dir(Walk(made, dest).value.mode, children));
    WalkSnoc(u, dest, n);
    GraftSnoc(u, dest, n, s);
    if n !in children {
      GraftSnoc(u, dest, n, Dir(NEW_DIR_MODE, map[]));
      MkDirChild(u, dest, n);
    }
  }

  /** A restore into a ready destination goes through exactly when everything can be rebuilt, and then
    the destination holds exactly that. */
  ghost predicate Fills(t: Tree, dest: Path, built: Option<map<string, Tree>>, outcome: Outcome)
    requires Ready(t, dest)
  {
    (outcome.ok <==> built.Some?) && (outcome.ok ==> outcome.root == Filled(t, dest, built.value))
  }

  lemma ReadyPlain(t: Tree, dest: Path)
    requires MkDirAll(t, dest).Some?
    ensures NoLinkOn(t, dest)
  {
    forall k | 0 <= k <= |dest| ensures !LinkAt(t, dest[..k]) {
      assert dest == dest[..k] + dest[k..];
      if Walk(t, dest[..k]).Some? {
        MkDirConcat(t, dest[..k], dest[k..]);
      }
    }
  }

  /** How the names directly in a filled destination are looked up. */
  lemma FilledLocate(t: Tree, dest: Path, children: map<string, Tree>, n: string)
    requires Ready(t, dest) && Resolved(dest + [n])
    ensures var u, p := Filled(t, dest, children), dest + [n];
            && LocateParent(u, p) == At(dest)
            && (n !in children ==> Locate(u, p) == Absent(dest, [n]))
            && (n in children && !children[n].Symlink? ==> Locate(u, p) == At(p))
  {
    var u := Filled(t, dest, children);
    FilledChild(t, dest, children, n, Special);
    WalkConcat(u, dest, [n]);
    WalkOne(Walk(u, dest).value, n);
    LocateIn(u, dest, n);
  }

  lemma WriteEffect(t: Tree, dest: Path, children: map<string, Tree>, n: string, content: Bytes)
    requires Ready(t, dest) && n !in children && Resolved(dest + [n])
    ensures WriteFile(Filled(t, dest, children), dest + [n], content)
         == Some(Filled(t, dest, children[n := File(NEW_FILE_MODE, content)]))
  {
    hide Ready, Filled, Locate, LocateParent;
    FilledLocate(t, dest, children, n);
    FilledChild(t, dest, children, n, File(NEW_FILE_MODE, content));
  }

  lemma LinkEffect(t: Tree, dest: Path, children: map<string, Tree>, n: string, target: string)
    requires Ready(t, dest) && n !in children && Resolved(dest + [n])
    ensures MakeLink(Filled(t, dest, children), dest + [n], target)
         == if ValidTarget(target) then Some(Filled(t, dest, children[n := Symlink(target)])) else None
  {
    hide Ready, Filled, Locate, LocateParent;
    FilledLocate(t, dest, children, n);
    FilledChild(t, dest, children, n, Symlink(target));
  }

  lemma ModeEffect(t: Tree, dest: Path, children: map<string, Tree>, n: string, s: Tree, mode: nat)
    requires Ready(t, dest) && (s.File? || s.Dir?) && Resolved(dest + [n])
    ensures SetMode(Filled(t, dest, children[n := s]), dest + [n], mode)
         == Some(Filled(t, dest, children[n := WithMode(s, mode)]))
  {
    hide Ready, Filled, Locate, LocateParent;
    FilledLocate(t, dest, children[n := s], n);
    FilledChild(t, dest, children[n := s], n, WithMode(s, mode));
    assert children[n := s][n := WithMode(s, mode)] == children[n := WithMode(s, mode)];
  }

  /** A directory made in the destination is itself a ready destination, whose filling is the
    filling of the outer one. */
  lemma NestedDestination(t: Tree, dest: Path, children: map<string, Tree>, n: string, sub: map<string, Tree>)
    requires Ready(t, dest) && n !in children
    ensures Ready(Filled(t, dest, children), dest + [n])
    ensures Filled(Filled(t, dest, children), dest + [n], sub) == Filled(t, dest, children[n := Dir(NEW_DIR_MODE, sub)])
  {
    var u, empty := Filled(t, dest, children), Dir(NEW_DIR_MODE, map[]);
    FilledChild(t, dest, children, n, empty);
    var made := MkDirAll(u, dest + [n]).value;
    FilledChild(t, dest, children[n := empty], n, Dir(NEW_DIR_MODE, sub));
    assert children[n := empty][n := Dir(NEW_DIR_MODE, sub)] == children[n := Dir(NEW_DIR_MODE, sub)];
  }

  lemma FilledEmpty(t: Tree, dest: Path)
    ensures Ready(t, dest) ==> MkDirAll(t, dest) == Some(Filled(t, dest, map[]))
  {
    if Ready(t, dest) {
      GraftSame(MkDirAll(t, dest).value, dest);
    }
  }

  lemma {:induction false} GraftSame(t: Tree, p: Path)
    requires Walk(t, p).Some?
    ensures Graft(t, p, Walk(t, p).value) == t
  {
    if p != [] {
      GraftSame(t.children[p[0]], p[1..]);
      assert t.children[p[0] := t.children[p[0]]] == t.children;
      if |p| == 1 {
        assert p[1..] == [];
      }
    }
  }

  lemma ReadyMade(t: Tree, dest: Path)
    requires Ready(t, dest) && Resolved(dest)
    ensures CreateDirs(t, dest) == Some(Filled(t, dest, map[]))
  {
    FilledEmpty(t, dest);
    ReadyPlain(t, dest);
    CreateDirsPlain(t, dest);
  }

  lemma NothingRebuilt(h: Hash, objs: Objects, t: Tree, d: Digest, dest: Path, depth: nat)
    requires Ready(t, dest) && Resolved(dest) && (depth == 0 || LoadNode(h, objs, d).Err?)
    ensures Fills(t, dest, Rebuild(h, objs, d, depth), RestoreOutcome(h, objs, t, d, dest, depth))
  {
    hide Ready, Filled, LoadNode, CreateDirs, RestoreOutcome;
    ReadyMade(t, dest);
    RestoreStops(h, objs, t, d, dest, depth);
  }

  lemma {:induction false} RestoreFills(h: Hash, objs: Objects, t: Tree, d: Digest, dest: Path, depth: nat)
    requires Ready(t, dest) && Resolved(dest)
    ensures Fills(t, dest, Rebuild(h, objs, d, depth), RestoreOutcome(h, objs, t, d, dest, depth))
    decreases depth, 0, 0
  {
    hide *;
    if depth == 0 || LoadNode(h, objs, d).Err? {
      NothingRebuilt(h, objs, t, d, dest, depth);
    } else {
      var node := LoadNode(h, objs, d).value;
      var names := SortSet(ByUtf8, node.Keys);
      var first := Filled(t, dest, map[]);
      ReadyMade(t, dest);
      RestoreStep(h, objs, t, d, dest, depth, first, node);
      NamesFill(h, objs, t, node, names, dest, depth - 1, map[]);
      NodeFills(h, objs, t, d, dest, depth, node, names, NamesOutcome(h, objs, first, node, names, dest, depth - 1));
    }
  }

  lemma NodeFills(h: Hash, objs: Objects, t: Tree, d: Digest, dest: Path, depth: nat, node: DirNode, names: seq<string>, o: Outcome)
    requires Ready(t, dest) && depth > 0 && LoadNode(h, objs, d) == Ok(node)
    requires forall n :: n in names <==> n in node
    requires o.ok <==> Buildable(h, objs, node, names, depth - 1)
    requires o.ok ==> o.root == Filled(t, dest, map[] + Built(h, objs, node, names, depth - 1))
    ensures Fills(t, dest, Rebuild(h, objs, d, depth), o)
  {
    hide Ready, Filled, LoadNode, Buildable, Built, RebuildNode;
    BuiltAll(h, objs, node, names, depth - 1);
  }

  ghost predicate Buildable(h: Hash, objs: Objects, node: DirNode, names: seq<string>, depth: nat)
    requires forall n :: n in names ==> n in node
  {
    forall n :: n in names ==> ValidName(n) && RebuildEntry(h, objs, node[n], depth).Some?
  }

  ghost function Built(h: Hash, objs: Objects, node: DirNode, names: seq<string>, depth: nat): map<string, Tree>
    requires forall n :: n in names ==> n in node
    requires Buildable(h, objs, node, names, depth)
  {
    map n | n in names :: RebuildEntry(h, objs, node[n], depth).value
  }

  lemma BuiltAll(h: Hash, objs: Objects, node: DirNode, names: seq<string>, depth: nat)
    requires forall n :: n in names <==> n in node
    ensures RebuildNode(h, objs, node, depth) ==
            if Buildable(h, objs, node, names, depth) then Some(map[] + Built(h, objs, node, names, depth)) else None
  {
    if Buildable(h, objs, node, names, depth) {
      var b := Built(h, objs, node, names, depth);
      assert map[] + b == b;
      assert b == map n | n in node :: RebuildEntry(h, objs, node[n], depth).value;
    }
  }

  lemma DistinctTail(names: seq<string>)
    requires NoDuplicates(names)
    ensures names != [] ==> NoDuplicates(names[1..]) && names[0] !in names[1..]
  {
  }

  lemma {:induction false} NamesFill(h: Hash, objs: Objects, t: Tree, node: DirNode, names: seq<string>, dest: Path,
                                     depth: nat, children: map<string, Tree>)
    requires Ready(t, dest) && Resolved(dest) && NoDuplicates(names)
    requires forall n :: n in names ==> n in node && n !in children
    ensures var o := NamesOutcome(h, objs, Filled(t, dest, children), node, names, dest, depth);
            && (o.ok <==> Buildable(h, objs, node, names, depth))
            && (o.ok ==> o.root == Filled(t, dest, children + Built(h, objs, node, names, depth)))
    decreases depth, 2, |names|
  {
    hide Ready, Filled, RebuildEntry, EntryOutcome, NamesOutcome, ValidName, Resolved, NoDuplicates;
    DistinctTail(names);
    if names == [] {
      NamesEnd(h, objs, Filled(t, dest, children), node, dest, depth);
      assert children + Built(h, objs, node, names, depth) == children;
    } else {
      var n, rest := names[0], names[1..];
      assert forall m :: m in names <==> m == n || m in rest;
      NamesStep(h, objs, Filled(t, dest, children), node, names, dest, depth);
      if ValidName(n) {
        NameAdded(dest, n);
        EntryPlaced(h, objs, t, node[n], n, dest, depth, children);
        var b := RebuildEntry(h, objs, node[n], depth);
        if b.Some? {
          NamesFill(h, objs, t, node, rest, dest, depth, children[n := b.value]);
          BuiltMore(h, objs, node, names, depth, children);
        }
      }
    }
  }

  lemma BuiltMore(h: Hash, objs: Objects, node: DirNode, names: seq<string>, depth: nat, children: map<string, Tree>)
    requires names != [] && ValidName(names[0]) && forall n :: n in names ==> n in node && n !in children
    requires names[0] !in names[1..] && RebuildEntry(h, objs, node[names[0]], depth).Some?
    ensures Buildable(h, objs, node, names, depth) <==> Buildable(h, objs, node, names[1..], depth)
    ensures Buildable(h, objs, node, names, depth) ==>
              children[names[0] := RebuildEntry(h, objs, node[names[0]], depth).value] + Built(h, objs, node, names[1..], depth)
              == children + Built(h, objs, node, names, depth)
  {
    hide RebuildEntry, ValidName;
    assert forall m :: m in names <==> m == names[0] || m in names[1..];
  }

  lemma {:induction false} EntryPlaced(h: Hash, objs: Objects, t: Tree, e: Entry, n: string, dest: Path, depth: nat,
                                       children: map<string, Tree>)
    requires Ready(t, dest) && Resolved(dest + [n]) && n !in children
    ensures var o, b := EntryOutcome(h, objs, Filled(t, dest, children), e, dest + [n], depth), RebuildEntry(h, objs, e, depth);
            && (o.ok <==> b.Some?)
            && (o.ok ==> o.root == Filled(t, dest, children[n := b.value]))
    decreases depth, 1, 0
  {
    hide Ready, Filled, WriteFile, SetMode, MakeLink;
    var u := Filled(t, dest, children);
    match e
    case FileEntry(mode, d) =>
      var content := Fetch(h, objs, d);
      if content.Ok? {
        WriteEffect(t, dest, children, n, content.value);
        ModeEffect(t, dest, children, n, File(NEW_FILE_MODE, content.value), mode);
      }
    case DirEntry(mode, d) =>
      var built := Rebuild(h, objs, d, depth);
      NestedDestination(t, dest, children, n, if built.Some? then built.value else map[]);
      RestoreFills(h, objs, u, d, dest + [n], depth);
      if built.Some? {
        ModeEffect(t, dest, children, n, Dir(NEW_DIR_MODE, built.value), mode);
      }
    case SymlinkEntry(target) =>
      LinkEffect(t, dest, children, n, target);
  }
}
