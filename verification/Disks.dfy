/** The disk as system calls change it. A path is looked up name by name; a link on the way is followed,
  wherever it leads, and only calls that work on a name itself leave a link at the end alone. */
module Disks {
  import opened Bytes
  import opened FileTree

  /** What Linux allows before it reports a loop. */
  const MAX_LINKS: nat := 40

  // ----- looking a path up -----

  function Split(text: string): (names: seq<string>)
    ensures names != []
  {
    if text == "" then [""]
    else
      var rest := Split(text[1..]);
      if text[0] == '/' then [""] + rest else [[text[0]] + rest[0]] + rest[1..]
  }

  /** The absolute path text of a place. */
  function PathText(p: Path): string {
    if p == [] then "" else "/" + p[0] + PathText(p[1..])
  }

  lemma {:induction false} SplitName(n: string, rest: string)
    requires '/' !in n && (rest == "" || rest[0] == '/')
    ensures Split(n + rest) == if rest == "" then [n] else [n] + Split(rest)[1..]
  {
    if n == "" {
      assert n + rest == rest;
      if rest != "" {
        assert Split(rest)[0] == "";
      }
    } else {
      assert (n + rest)[0] == n[0] && (n + rest)[1..] == n[1..] + rest;
      SplitName(n[1..], rest);
      assert [n[0]] + n[1..] == n;
    }
  }

  lemma {:induction false} SplitPath(p: Path)
    requires Resolved(p) && p != []
    ensures Split(PathText(p)) == [""] + p && "/" <= PathText(p) && ValidTarget(PathText(p))
  {
    var n, rest := p[0], PathText(p[1..]);
    var text := PathText(p);
    assert text == "/" + (n + rest) && text[1..] == n + rest && text[0] == '/';
    assert ValidName(n);
    if p[1..] == [] {
      SplitName(n, rest);
    } else {
      SplitPath(p[1..]);
      SplitName(n, rest);
      assert p == [n] + p[1..];
    }
  }

  /** A place where something is, a directory that lacks the first of the names still to go, or an
    error on the way. */
  datatype Found = At(place: Path) | Absent(dir: Path, rest: seq<string>) | Broken

  function Look(t: Tree, at: Path, todo: seq<string>, links: nat): Found
    decreases links, |todo|
  {
    if todo == [] then At(at)
    else
      match Walk(t, at)
      case Some(Dir(mode, children)) =>
        var name := todo[0];
        if !Searchable(mode) then Broken
        else if name == "" || name == "." then Look(t, at, todo[1..], links)
        else if name == ".." then Look(t, if at == [] then [] else at[..|at| - 1], todo[1..], links)
        else if name !in children then Absent(at, todo)
        else if children[name].Symlink? then
          var target := children[name].target;
          if links == 0 then Broken
          else Look(t, if "/" <= target then [] else at, Split(target) + todo[1..], links - 1)
        else Look(t, at + [name], todo[1..], links)
      case _ => Broken
  }

  function Locate(t: Tree, p: Path): Found {
    Look(t, [], p, MAX_LINKS)
  }

  /** The directory a call on the name itself works in. */
  function LocateParent(t: Tree, p: Path): Found
    requires p != []
  {
    Locate(t, p[..|p| - 1])
  }

  /** What a path leads to. */
  function Reach(t: Tree, p: Path): Option<Tree> {
    match Locate(t, p)
    case At(place) => Walk(t, place)
    case _ => None
  }

  // ----- the calls -----

  /** `fs::write`: replace the content of a writable file, or create the file. */
  function WriteFile(t: Tree, p: Path, content: Bytes): Option<Tree> {
    match Locate(t, p)
    case At(place) =>
      (match Walk(t, place)
       case Some(File(mode, _)) => if Writable(mode) then Some(Graft(t, place, File(mode, content))) else None
       case _ => None)
    case Absent(dir, rest) =>
      if |rest| == 1 && CanCreate(t, dir) then Some(Graft(t, dir + rest, File(NEW_FILE_MODE, content))) else None
    case Broken => None
  }

  function WithMode(s: Tree, mode: nat): Tree {
    match s
    case File(_, content) => File(mode % 4096, content)
    case Dir(_, children) => Dir(mode % 4096, children)
    case _ => s
  }

  /** `chmod(2)`, which keeps twelve bits of what it is given. */
  function SetMode(t: Tree, p: Path, mode: nat): Option<Tree> {
    match Locate(t, p)
    case At(place) =>
      (match Walk(t, place)
       case Some(s) => if s.File? || s.Dir? then Some(Graft(t, place, WithMode(s, mode))) else None
       case None => None)
    case _ => None
  }

  /** A new entry under the name itself, which must be free. */
  function MakeEntry(t: Tree, p: Path, s: Tree): Option<Tree>
    requires p != []
  {
    match LocateParent(t, p)
    case At(dir) =>
      var place := dir + [p[|p| - 1]];
      if CanCreate(t, dir) && Walk(t, place) == None then Some(Graft(t, place, s)) else None
    case _ => None
  }

  /** `symlink(2)`: also fails when the target is not a C string. */
  function MakeLink(t: Tree, p: Path, target: string): Option<Tree>
    requires p != []
  {
    if ValidTarget(target) then MakeEntry(t, p, Symlink(target)) else None
  }

  function MakeDir(t: Tree, p: Path): Option<Tree>
    requires p != []
  {
    MakeEntry(t, p, Dir(NEW_DIR_MODE, map[]))
  }

  predicate IsDir(t: Tree, p: Path) {
    match Reach(t, p)
    case Some(Dir(_, _)) => true
    case _ => false
  }

  /** `create_dir_all`: what leads to a directory is fine; else the directory is made, after its parent
    if that is what is missing. */
  function CreateDirs(t: Tree, p: Path): Option<Tree>
    decreases |p|
  {
    if IsDir(t, p) then Some(t)
    else if p == [] then None
    else
      match MakeDir(t, p)
      case Some(made) => Some(made)
      case None =>
        if !LocateParent(t, p).Absent? then None
        else
          match CreateDirs(t, p[..|p| - 1])
          case None => None
          case Some(made) => MakeDir(made, p)
  }

  /** The disk. Each call either succeeds and changes it, or fails and leaves it alone. A path is given
    name by name, so what is to be one name must be one. */
  class Disk {
    var root: Tree

    constructor (tree: Tree)
      ensures root == tree
    {
      root := tree;
    }

    method CreateDirAll(p: Path) returns (ok: bool)
      requires Resolved(p)
      modifies this
      ensures ok == CreateDirs(old(root), p).Some?
      ensures root == if ok then CreateDirs(old(root), p).value else old(root)
    {
      ok := Commit(CreateDirs(root, p));
    }

    method Write(p: Path, content: Bytes) returns (ok: bool)
      requires Resolved(p)
      modifies this
      ensures ok == WriteFile(old(root), p, content).Some?
      ensures root == if ok then WriteFile(old(root), p, content).value else old(root)
    {
      ok := Commit(WriteFile(root, p, content));
    }

    method ChangeMode(p: Path, mode: nat) returns (ok: bool)
      requires Resolved(p)
      modifies this
      ensures ok == SetMode(old(root), p, mode).Some?
      ensures root == if ok then SetMode(old(root), p, mode).value else old(root)
    {
      ok := Commit(SetMode(root, p, mode));
    }

    method MakeSymlink(p: Path, target: string) returns (ok: bool)
      requires Resolved(p) && p != []
      modifies this
      ensures ok == MakeLink(old(root), p, target).Some?
      ensures root == if ok then MakeLink(old(root), p, target).value else old(root)
    {
      ok := Commit(MakeLink(root, p, target));
    }

    method Commit(next: Option<Tree>) returns (ok: bool)
      modifies this
      ensures ok == next.Some?
      ensures root == if ok then next.value else old(root)
    {
      ok := next.Some?;
      if ok {
        root := next.value;
      }
    }
  }

  // ----- paths without links -----

  ghost predicate LinkAt(t: Tree, p: Path) {
    Walk(t, p).Some? && Walk(t, p).value.Symlink?
  }

  /** No link lies on the path, its end included. */
  ghost predicate NoLinkOn(t: Tree, p: Path) {
    forall k :: 0 <= k <= |p| ==> !LinkAt(t, p[..k])
  }

  /** Names that lead on from a place through directories are looked up as they stand. */
  lemma {:induction false} LookThrough(t: Tree, at: Path, p: Path, rest: seq<string>, links: nat)
    requires Resolved(p) && Walk(t, at + p).Some? && (p != [] ==> !LinkAt(t, at + p))
    ensures Look(t, at, p + rest, links) == Look(t, at + p, rest, links)
    decreases |p|
  {
    if p == [] {
      assert p + rest == rest && at + p == at;
    } else {
      var next := at + [p[0]];
      assert at + p == next + p[1..] && (p + rest)[1..] == p[1..] + rest && (p + rest)[0] == p[0];
      WalkConcat(t, next, p[1..]);
      WalkConcat(t, at, [p[0]]);
      WalkOne(Walk(t, at).value, p[0]);
      if |p| == 1 {
        assert next == at + p;
      } else {
        assert p[1..] != [];
      }
      LookThrough(t, next, p[1..], rest, links);
    }
  }

  lemma WalkOne(t: Tree, n: string)
    ensures Walk(t, [n]) == if t.Dir? && Searchable(t.mode) && n in t.children then Some(t.children[n]) else None
  {
    assert [n][1..] == [];
  }

  /** How a path without links is looked up: to the place it names, or to the first directory on it that
    lacks a name; where the look-up breaks off, no directory can be made either. */
  ghost predicate FoundPlain(t: Tree, p: Path, found: Found) {
    && (found.At? ==> found.place == p && Walk(t, p).Some?)
    && (found.Absent? ==> found.dir + found.rest == p && found.rest != [] && Lacks(t, found.dir, found.rest[0]))
    && (found.Broken? ==> Walk(t, p) == None && MkDirAll(t, p) == None)
  }

  ghost predicate Lacks(t: Tree, dir: Path, name: string) {
    && Walk(t, dir).Some? && Walk(t, dir).value.Dir? && Searchable(Walk(t, dir).value.mode)
    && name !in Walk(t, dir).value.children
  }

  lemma {:induction false} LookPlain(t: Tree, at: Path, p: Path, links: nat)
    requires Resolved(p) && Walk(t, at).Some? && NoLinkOn(t, at + p)
    ensures FoundPlain(t, at + p, Look(t, at, p, links))
    decreases |p|
  {
    if p == [] {
      assert at + p == at;
    } else {
      var next := at + [p[0]];
      assert at + p == next + p[1..];
      WalkConcat(t, at, p);
      WalkConcat(t, at, [p[0]]);
      WalkOne(Walk(t, at).value, p[0]);
      assert (at + p)[..|next|] == next;
      assert !LinkAt(t, next);
      if MkDirAll(t, at + p).Some? {
        MkDirConcat(t, at, p);
      }
      if Walk(t, next).Some? {
        LookPlain(t, next, p[1..], links);
      }
    }
  }

  lemma LocatePlain(t: Tree, p: Path)
    requires Resolved(p) && NoLinkOn(t, p)
    ensures FoundPlain(t, p, Locate(t, p))
    ensures !Locate(t, p).At? ==> Walk(t, p) == None
  {
    assert [] + p == p;
    LookPlain(t, [], p, MAX_LINKS);
    var found := Locate(t, p);
    if found.Absent? {
      WalkConcat(t, found.dir, found.rest);
    }
  }

  lemma NoLinkFront(t: Tree, p: Path)
    requires NoLinkOn(t, p) && p != []
    ensures NoLinkOn(t, p[..|p| - 1])
  {
    var f := p[..|p| - 1];
    forall k | 0 <= k <= |f| ensures !LinkAt(t, f[..k]) {
      assert f[..k] == p[..k];
    }
  }

  /** Without links on the path, directories are made where the path says. */
  lemma {:induction false} CreateDirsPlain(t: Tree, p: Path)
    requires Resolved(p) && NoLinkOn(t, p)
    ensures CreateDirs(t, p) == MkDirAll(t, p)
    decreases |p|
  {
    LocatePlain(t, p);
    if p != [] {
      var f, n := p[..|p| - 1], p[|p| - 1];
      assert p == f + [n];
      NoLinkFront(t, p);
      LocatePlain(t, f);
      MkDirSnoc(t, f, n);
      WalkConcat(t, f, [n]);
      if Walk(t, f).Some? {
        WalkOne(Walk(t, f).value, n);
        MkDirHere(t, f);
      } else {
        CreateDirsPlain(t, f);
        if Locate(t, f).Absent? && MkDirAll(t, f).Some? {
          NewPlace(t, f, n);
        }
      }
    } else {
      MkDirHere(t, p);
    }
  }

  lemma {:induction false} MkDirHere(t: Tree, p: Path)
    requires Walk(t, p).Some?
    ensures MkDirAll(t, p) == if Walk(t, p).value.Dir? then Some(t) else None
  {
    if Walk(t, p).value.Dir? {
      MkDirExisting(t, p);
    } else if MkDirAll(t, p).Some? {
      assert p + [] == p;
      MkDirConcat(t, p, []);
    }
  }

  /** In a directory just made, the next one can be made. */
  lemma NewPlace(t: Tree, f: Path, n: string)
    requires Resolved(f + [n]) && Walk(t, f) == None && MkDirAll(t, f).Some?
    ensures var made := MkDirAll(t, f).value;
            Walk(made, f) == Some(Dir(NEW_DIR_MODE, map[])) && MakeDir(made, f + [n]) == MkDirAll(t, f + [n])
  {
    var made := MkDirAll(t, f).value;
    MkDirSnoc(t, f, n);
    NewIsEmpty(t, f);
    assert (f + [n])[..|f|] == f;
    forall i | 0 <= i < |f| ensures ValidName(f[i]) { assert (f + [n])[i] == f[i]; }
    assert f + [] == f && [] + f == f;
    LookThrough(made, [], f, [], MAX_LINKS);
    WalkConcat(made, f, [n]);
    WalkOne(Walk(made, f).value, n);
  }

  lemma {:induction false} NewIsEmpty(t: Tree, p: Path)
    requires Walk(t, p) == None && MkDirAll(t, p).Some?
    ensures Walk(MkDirAll(t, p).value, p) == Some(Dir(NEW_DIR_MODE, map[]))
  {
    if p[0] in t.children {
      NewIsEmpty(t.children[p[0]], p[1..]);
    } else {
      NewDirsSnoc(p[1..], "");
    }
  }

  lemma LookLacking(t: Tree, dir: Path, n: string, links: nat)
    requires Lacks(t, dir, n) && ValidName(n)
    ensures Look(t, dir, [n], links) == Absent(dir, [n])
  {
  }

  lemma FrontResolved(dir: Path, n: string)
    ensures Resolved(dir + [n]) <==> Resolved(dir) && ValidName(n)
  {
    var p := dir + [n];
    if Resolved(p) {
      forall i | 0 <= i < |dir| ensures ValidName(dir[i]) { assert p[i] == dir[i]; }
      assert p[|dir|] == n;
    }
  }

  /** How a name directly in a directory is looked up. */
  lemma LocateIn(t: Tree, dir: Path, n: string)
    requires Resolved(dir + [n]) && Walk(t, dir).Some? && Walk(t, dir).value.Dir?
    ensures LocateParent(t, dir + [n]) == At(dir)
    ensures Lacks(t, dir, n) ==> Locate(t, dir + [n]) == Absent(dir, [n])
    ensures Walk(t, dir + [n]).Some? && !LinkAt(t, dir + [n]) ==> Locate(t, dir + [n]) == At(dir + [n])
  {
    hide Look, Walk;
    var p := dir + [n];
    FrontResolved(dir, n);
    assert p[..|p| - 1] == dir;
    assert [] + dir == dir && dir + [] == dir && [] + p == p && p + [] == p;
    LookThrough(t, [], dir, [], MAX_LINKS);
    LookThrough(t, [], dir, [n], MAX_LINKS);
    LookDone(t, dir, MAX_LINKS);
    LookDone(t, p, MAX_LINKS);
    if Lacks(t, dir, n) {
      LookLacking(t, dir, n, MAX_LINKS);
    }
    if Walk(t, p).Some? && !LinkAt(t, p) {
      LookThrough(t, [], p, [], MAX_LINKS);
    }
  }

  lemma LookDone(t: Tree, at: Path, links: nat)
    ensures Look(t, at, [], links) == At(at)
  {
  }

  // ----- what a look-up does with one name -----

  function Slashed(names: seq<string>): string
    requires names != []
  {
    if |names| == 1 then names[0] else names[0] + "/" + Slashed(names[1..])
  }

  /** A text is cut at its slashes and nowhere else. */
  lemma {:induction false} SplitCuts(text: string)
    ensures Slashed(Split(text)) == text
    ensures forall i :: 0 <= i < |Split(text)| ==> '/' !in Split(text)[i]
  {
    if text != "" {
      var rest := Split(text[1..]);
      SplitCuts(text[1..]);
      if text[0] == '/' {
        assert ([""] + rest)[1..] == rest;
      } else {
        var names := [[text[0]] + rest[0]] + rest[1..];
        assert names[1..] == rest[1..];
      }
      assert text == [text[0]] + text[1..];
    }
  }

  /** In a directory that can be searched: a dot stays, two dots go up, the name of a link goes where the link
    points, from the root if it begins with a slash and else from here, and a fortieth link is followed
    but not one more; any other name goes down. */
  lemma LookSteps(t: Tree, dir: Path, n: string, rest: seq<string>, links: nat)
    requires Walk(t, dir + [n]).Some? && Walk(t, dir + [n]).value.Dir? && Searchable(Walk(t, dir + [n]).value.mode)
    ensures var here := dir + [n];
            && Look(t, here, ["."] + rest, links) == Look(t, here, rest, links)
            && Look(t, here, [".."] + rest, links) == Look(t, dir, rest, links)
            && forall x :: ValidName(x) && x in Walk(t, here).value.children ==>
                 match Walk(t, here).value.children[x]
                 case Symlink(target) =>
                   && (links == 0 ==> Look(t, here, [x] + rest, links) == Broken)
                   && (links > 0 && target != "" && target[0] == '/' ==>
                         Look(t, here, [x] + rest, links) == Look(t, [], Split(target) + rest, links - 1))
                   && (links > 0 && (target == "" || target[0] != '/') ==>
                         Look(t, here, [x] + rest, links) == Look(t, here, Split(target) + rest, links - 1))
                 case _ => Look(t, here, [x] + rest, links) == Look(t, here + [x], rest, links)
  {
    var here := dir + [n];
    assert here[..|here| - 1] == dir;
    assert forall x :: ([x] + rest)[0] == x && ([x] + rest)[1..] == rest;
    assert forall target: string :: "/" <= target <==> target != "" && target[0] == '/';
  }
}
