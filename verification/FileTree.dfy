/** Files, directories and symbolic links as a tree, and what places in it have to do with each other.

  A path here names a place: it is a list of names from the root, and no link is followed on the way.
  What the system does with a path that crosses links is in `Disks`. */
module FileTree {
  import opened Bytes

  type Mode = x: int | 0 <= x < 4096
  type Path = seq<string>

  /** `Special` stands for sockets, pipes and devices. */
  datatype Tree =
    | File(mode: Mode, content: Bytes)
    | Dir(mode: Mode, children: map<string, Tree>)
    | Symlink(target: string)
    | Special

  const NEW_FILE_MODE: Mode := 420 // 0o644
  const NEW_DIR_MODE: Mode := 493  // 0o755

  predicate Readable(m: Mode) { m / 256 % 2 == 1 }

  predicate Writable(m: Mode) { m / 128 % 2 == 1 }

  predicate Searchable(m: Mode) { m / 64 % 2 == 1 }

  /** One path component that stays where it is put. */
  predicate ValidName(name: string) {
    name != "" && name != "." && name != ".." && '/' !in name && '\0' !in name
  }

  predicate Resolved(p: Path) {
    forall i :: 0 <= i < |p| ==> ValidName(p[i])
  }

  /** Neither path lies on the other. */
  predicate Apart(p: Path, q: Path) {
    p != [] && q != [] && (p[0] == q[0] ==> Apart(p[1..], q[1..]))
  }

  /** Every place apart from this one holds what it held. */
  ghost predicate Untouched(before: Tree, after: Tree, p: Path) {
    forall q :: Apart(p, q) ==> Walk(after, q) == Walk(before, q)
  }

  /** What is at a place; every directory on the way must be searchable. */
  function Walk(t: Tree, p: Path): Option<Tree> {
    if p == [] then Some(t)
    else if t.Dir? && Searchable(t.mode) && p[0] in t.children then Walk(t.children[p[0]], p[1..])
    else None
  }

  /** The tree with the node at `p` replaced, or added to its directory. */
  function Graft(t: Tree, p: Path, s: Tree): Tree {
    if p == [] then s
    else if t.Dir? && (p[0] in t.children || |p| == 1) then
      t.(children := t.children[p[0] := if |p| == 1 then s else Graft(t.children[p[0]], p[1..], s)])
    else t
  }

  predicate CanCreate(t: Tree, p: Path) {
    match Walk(t, p)
    case Some(Dir(m, _)) => Writable(m) && Searchable(m)
    case _ => false
  }

  predicate ValidTarget(target: string) {
    target != "" && '\0' !in target
  }

  function NewDirs(p: Path): Tree {
    Dir(NEW_DIR_MODE, if p == [] then map[] else map[p[0] := NewDirs(p[1..])])
  }

  /** An existing directory is fine, missing ones are made. */
  function MkDirAll(t: Tree, p: Path): Option<Tree> {
    if !t.Dir? then None
    else if p == [] then Some(t)
    else if !Searchable(t.mode) then None
    else if p[0] in t.children then
      match MkDirAll(t.children[p[0]], p[1..])
      case Some(child) => Some(t.(children := t.children[p[0] := child]))
      case None => None
    else if Writable(t.mode) then Some(t.(children := t.children[p[0] := NewDirs(p[1..])]))
    else None
  }

  // ----- path algebra -----

  lemma {:induction false} WalkGraft(t: Tree, p: Path, s: Tree)
    requires Walk(t, p).Some?
    ensures Walk(Graft(t, p, s), p) == Some(s)
    ensures forall s' :: Graft(Graft(t, p, s), p, s') == Graft(t, p, s')
  {
    if p != [] {
      if |p| == 1 {
        assert p[1..] == [];
      } else {
        WalkGraft(t.children[p[0]], p[1..], s);
      }
      forall s' ensures Graft(Graft(t, p, s), p, s') == Graft(t, p, s') {
        var u := Graft(t, p, s);
        assert u.children[p[0]] == if |p| == 1 then s else Graft(t.children[p[0]], p[1..], s);
        assert Graft(u, p, s').children == Graft(t, p, s').children;
      }
    }
  }

  lemma {:induction false} WalkSnoc(t: Tree, p: Path, n: string)
    requires Walk(t, p).Some?
    ensures Walk(t, p + [n]) == Walk(Walk(t, p).value, [n])
  {
    if p == [] {
      assert p + [n] == [n];
    } else {
      assert (p + [n])[1..] == p[1..] + [n];
      WalkSnoc(t.children[p[0]], p[1..], n);
    }
  }

  /** Replacing a child is replacing its directory. */
  lemma {:induction false} GraftSnoc(t: Tree, p: Path, n: string, s: Tree)
    requires Walk(t, p).Some? && Walk(t, p).value.Dir?
    ensures var d := Walk(t, p).value;
            Graft(t, p + [n], s) == Graft(t, p, d.(children := d.children[n := s]))
  {
    var q := p + [n];
    if p == [] {
      assert q == [n];
    } else {
      assert q[1..] == p[1..] + [n] && q[0] == p[0];
      GraftSnoc(t.children[p[0]], p[1..], n, s);
      if |p| == 1 {
        assert p[1..] == [];
      }
    }
  }

  lemma {:induction false} MkDirExisting(t: Tree, p: Path)
    requires Walk(t, p).Some? && Walk(t, p).value.Dir?
    ensures MkDirAll(t, p) == Some(t)
  {
    if p != [] {
      MkDirExisting(t.children[p[0]], p[1..]);
      assert t.children[p[0] := t.children[p[0]]] == t.children;
    }
  }

  lemma {:induction false} MkDirChild(t: Tree, p: Path, n: string)
    requires CanCreate(t, p) && n !in Walk(t, p).value.children
    ensures MkDirAll(t, p + [n]) == Some(Graft(t, p + [n], Dir(NEW_DIR_MODE, map[])))
  {
    var q := p + [n];
    if p == [] {
      assert q == [n] && q[1..] == [];
    } else {
      assert q[1..] == p[1..] + [n] && q[0] == p[0];
      MkDirChild(t.children[p[0]], p[1..], n);
    }
  }

  lemma {:induction false} WalkConcat(t: Tree, p: Path, q: Path)
    ensures Walk(t, p + q) == match Walk(t, p) case None => None case Some(s) => Walk(s, q)
  {
    if p == [] {
      assert p + q == q;
    } else {
      assert (p + q)[1..] == p[1..] + q;
      if t.Dir? && Searchable(t.mode) && p[0] in t.children {
        WalkConcat(t.children[p[0]], p[1..], q);
      }
    }
  }

  lemma {:induction false} GraftGraft(t: Tree, p: Path, s: Tree, s': Tree)
    ensures Graft(Graft(t, p, s), p, s') == Graft(t, p, s')
  {
    if p != [] && t.Dir? && (p[0] in t.children || |p| == 1) {
      var u := Graft(t, p, s);
      if |p| > 1 {
        GraftGraft(t.children[p[0]], p[1..], s, s');
      }
      assert Graft(u, p, s').children == Graft(t, p, s').children;
    }
  }

  /** A place at which a directory can be made, or is: its own directory first, then itself. */
  lemma {:induction false} MkDirSnoc(t: Tree, p: Path, n: string)
    ensures MkDirAll(t, p).Some? ==> Walk(MkDirAll(t, p).value, p).Some? && Walk(MkDirAll(t, p).value, p).value.Dir?
    ensures MkDirAll(t, p + [n]) ==
            match MkDirAll(t, p)
            case None => None
            case Some(made) =>
              var d := Walk(made, p).value;
              if !Searchable(d.mode) then None
              else if n in d.children then (if d.children[n].Dir? then Some(made) else None)
              else if Writable(d.mode) then Some(Graft(made, p + [n], Dir(NEW_DIR_MODE, map[])))
              else None
  {
    var q := p + [n];
    if p == [] {
      assert q == [n] && q[1..] == [];
      if t.Dir? && n in t.children {
        assert t.children[n := t.children[n]] == t.children;
      }
    } else {
      assert q[0] == p[0] && q[1..] == p[1..] + [n];
      if t.Dir? && Searchable(t.mode) {
        if p[0] in t.children {
          var child := t.children[p[0]];
          MkDirSnoc(child, p[1..], n);
          if MkDirAll(child, p[1..]).Some? {
            var made := MkDirAll(child, p[1..]).value;
            SetAgain(t.children, p[0], made, Graft(made, q[1..], Dir(NEW_DIR_MODE, map[])));
          }
        } else {
          NewDirsSnoc(p[1..], n);
          SetAgain(t.children, p[0], NewDirs(p[1..]), NewDirs(q[1..]));
        }
      }
    }
  }

  lemma SetAgain(m: map<string, Tree>, k: string, a: Tree, b: Tree)
    ensures m[k := a][k := b] == m[k := b]
  {
  }

  lemma {:induction false} NewDirsSnoc(p: Path, n: string)
    ensures Walk(NewDirs(p), p) == Some(Dir(NEW_DIR_MODE, map[]))
    ensures NewDirs(p + [n]) == Graft(NewDirs(p), p + [n], Dir(NEW_DIR_MODE, map[]))
  {
    var q := p + [n];
    if p == [] {
      assert q == [n] && q[1..] == [];
    } else {
      assert q[0] == p[0] && q[1..] == p[1..] + [n];
      NewDirsSnoc(p[1..], n);
    }
  }

  lemma {:induction false} MkDirConcat(t: Tree, p: Path, q: Path)
    requires Walk(t, p).Some? && MkDirAll(t, p + q).Some?
    ensures MkDirAll(Walk(t, p).value, q).Some?
  {
    if p == [] {
      assert p + q == q;
    } else {
      assert (p + q)[1..] == p[1..] + q;
      MkDirConcat(t.children[p[0]], p[1..], q);
    }
  }

  // ----- what is left alone -----

  lemma {:induction false} GraftApart(t: Tree, p: Path, s: Tree, q: Path)
    requires Apart(p, q)
    ensures Walk(Graft(t, p, s), q) == Walk(t, q)
  {
    if p[0] == q[0] && |p| > 1 && t.Dir? && p[0] in t.children {
      GraftApart(t.children[p[0]], p[1..], s, q[1..]);
    }
  }

  lemma GraftUntouched(t: Tree, p: Path)
    ensures forall s :: Untouched(t, Graft(t, p, s), p)
  {
    forall s, q | Apart(p, q) ensures Walk(Graft(t, p, s), q) == Walk(t, q) {
      GraftApart(t, p, s, q);
    }
  }

  lemma {:induction false} ApartDeeper(p: Path, n: string, q: Path)
    requires Apart(p, q)
    ensures Apart(p + [n], q)
  {
    if p[0] == q[0] {
      assert (p + [n])[1..] == p[1..] + [n];
      ApartDeeper(p[1..], n, q[1..]);
    }
  }

  lemma {:induction false} ApartSymmetric(p: Path, q: Path)
    requires Apart(p, q)
    ensures Apart(q, p)
  {
    if p[0] == q[0] {
      ApartSymmetric(p[1..], q[1..]);
    }
  }

  lemma UntouchedThen(a: Tree, b: Tree, c: Tree, p: Path)
    requires Untouched(a, b, p) && Untouched(b, c, p)
    ensures Untouched(a, c, p)
  {
  }

  lemma {:induction false} NewDirsApart(p: Path, q: Path)
    requires Apart(p, q)
    ensures Walk(NewDirs(p), q) == None
  {
    if p[0] == q[0] {
      NewDirsApart(p[1..], q[1..]);
    }
  }

  lemma {:induction false} MkDirApart(t: Tree, p: Path, q: Path)
    requires MkDirAll(t, p).Some? && Apart(p, q)
    ensures Walk(MkDirAll(t, p).value, q) == Walk(t, q)
  {
    if p[0] == q[0] {
      if p[0] in t.children {
        MkDirApart(t.children[p[0]], p[1..], q[1..]);
      } else {
        NewDirsApart(p[1..], q[1..]);
      }
    }
  }

  lemma MkDirUntouched(t: Tree, p: Path)
    ensures MkDirAll(t, p).Some? ==> Untouched(t, MkDirAll(t, p).value, p)
  {
    if MkDirAll(t, p).Some? {
      forall q | Apart(p, q) ensures Walk(MkDirAll(t, p).value, q) == Walk(t, q) {
        MkDirApart(t, p, q);
      }
    }
  }
}
