/** Trees seen path by path: what a capture records of each node, and where two trees part. */
module TreePaths {
  import opened Bytes
  import opened FileTree
  import opened SnapshotTheorems
  import opened Drift

  /** The node at a path, whatever the permissions on the way. */
  function NodeAt(t: Tree, p: Path): Option<Tree> {
    if p == [] then Some(t)
    else if t.Dir? && p[0] in t.children then NodeAt(t.children[p[0]], p[1..])
    else None
  }

  lemma NodeBelow(t: Tree, n: string, p: Path)
    ensures NodeAt(t, [n] + p) == if t.Dir? && n in t.children then NodeAt(t.children[n], p) else None
  {
    assert ([n] + p)[1..] == p;
  }

  // ----- what is recorded -----

  /** A copy as a checkpoint makes it: contents and link targets, the nine permission bits, nothing more. */
  ghost predicate Copies(original: Option<Tree>, copy: Option<Tree>) {
    if original.None? then copy.None?
    else
      && copy.Some?
      && match original.value
         case File(mode, content) => copy.value.File? && copy.value.content == content && copy.value.mode == mode % 512
         case Dir(mode, _) => copy.value.Dir? && copy.value.mode == mode % 512
         case Symlink(target) => copy.value == Symlink(target)
         case Special => copy.value == Special
  }

  /** Nodes that a checkpoint cannot tell apart. */
  ghost predicate Alike(x: Option<Tree>, y: Option<Tree>) {
    if x.None? then y.None?
    else
      && y.Some?
      && match x.value
         case File(mode, content) => y.value.File? && y.value.content == content && y.value.mode % 512 == mode % 512
         case Dir(mode, _) => y.value.Dir? && y.value.mode % 512 == mode % 512
         case Symlink(target) => y.value == Symlink(target)
         case Special => y.value == Special
  }

  lemma {:induction false} RecordedCopies(t: Tree, p: Path)
    ensures Copies(NodeAt(t, p), NodeAt(Recorded(t), p))
  {
    if p != [] && t.Dir? && p[0] in t.children {
      RecordedCopies(t.children[p[0]], p[1..]);
    }
  }

  lemma CopiesAlike(x: Option<Tree>, y: Option<Tree>, copy: Option<Tree>)
    requires Copies(x, copy) && Copies(y, copy)
    ensures Alike(x, y)
  {
  }

  /** Alike at every path. */
  ghost predicate Agree(s: Tree, t: Tree) {
    forall p: Path :: Alike(NodeAt(s, p), NodeAt(t, p))
  }

  /** Alike at every path below. */
  ghost predicate AgreeBelow(s: Tree, t: Tree) {
    forall p: Path :: p != [] ==> Alike(NodeAt(s, p), NodeAt(t, p))
  }

  lemma RecordedAgree(s: Tree, t: Tree)
    requires Recorded(s) == Recorded(t)
    ensures Agree(s, t)
  {
    hide Recorded, Alike, Copies, NodeAt;
    forall p: Path ensures Alike(NodeAt(s, p), NodeAt(t, p)) {
      RecordedCopies(s, p);
      RecordedCopies(t, p);
      CopiesAlike(NodeAt(s, p), NodeAt(t, p), NodeAt(Recorded(s), p));
    }
  }

  lemma TopAlike(s: Tree, t: Tree)
    requires Agree(s, t)
    ensures Alike(Some(s), Some(t)) && AgreeBelow(s, t)
  {
    assert Alike(NodeAt(s, []), NodeAt(t, []));
    hide Alike;
  }

  lemma {:induction false} AgreeRecorded(s: Tree, t: Tree)
    requires Agree(s, t)
    ensures Recorded(s) == Recorded(t)
    decreases s
  {
    TopAlike(s, t);
    if s.Dir? {
      assert t.Dir? && s.mode % 512 == t.mode % 512;
      ChildrenAlike(s, t);
      hide Agree, AgreeBelow, Alike;
      forall n | n in s.children ensures n in t.children && Recorded(s.children[n]) == Recorded(t.children[n]) {
        AgreeRecorded(s.children[n], t.children[n]);
      }
      RecordedDir(s);
      RecordedDir(t);
      hide Recorded;
      assert RecordedChildren(s.children) == RecordedChildren(t.children);
    }
  }

  lemma ChildrenAlike(s: Tree, t: Tree)
    requires s.Dir? && t.Dir? && AgreeBelow(s, t)
    ensures s.children.Keys == t.children.Keys
    ensures forall n :: n in s.children ==> Agree(s.children[n], t.children[n])
  {
    hide Alike, NodeAt, AgreeBelow;
    forall n: string ensures n in s.children <==> n in t.children {
      ChildAlike(s, t, n, []);
    }
    forall n | n in s.children ensures Agree(s.children[n], t.children[n]) {
      forall p: Path ensures Alike(NodeAt(s.children[n], p), NodeAt(t.children[n], p)) {
        ChildAlike(s, t, n, p);
      }
    }
  }

  lemma ChildAlike(s: Tree, t: Tree, n: string, p: Path)
    requires s.Dir? && t.Dir? && AgreeBelow(s, t)
    ensures n in s.children <==> n in t.children
    ensures n in s.children ==> Alike(NodeAt(s.children[n], p), NodeAt(t.children[n], p))
  {
    NodeBelow(s, n, []);
    NodeBelow(t, n, []);
    NodeBelow(s, n, p);
    NodeBelow(t, n, p);
    assert Alike(NodeAt(s, [n] + []), NodeAt(t, [n] + []));
    assert Alike(NodeAt(s, [n] + p), NodeAt(t, [n] + p));
  }

  /** Two directories record the same below them exactly when they agree at every path below. */
  lemma AlikeBelow(s: Tree, t: Tree)
    requires s.Dir? && t.Dir?
    ensures RecordedChildren(s.children) == RecordedChildren(t.children) <==> AgreeBelow(s, t)
  {
    var x, y := Dir(0, s.children), Dir(0, t.children);
    RecordedDir(x);
    RecordedDir(y);
    forall p: Path | p != [] ensures NodeAt(x, p) == NodeAt(s, p) && NodeAt(y, p) == NodeAt(t, p) {
    }
    hide Recorded, RecordedChildren, NodeAt;
    if Recorded(x) == Recorded(y) {
      RecordedAgree(x, y);
    }
    if AgreeBelow(s, t) {
      WholeAgree(x, y);
      AgreeRecorded(x, y);
    }
  }

  lemma WholeAgree(s: Tree, t: Tree)
    requires s.Dir? && t.Dir? && s.mode == t.mode && AgreeBelow(s, t)
    ensures Agree(s, t)
  {
    assert Alike(NodeAt(s, []), NodeAt(t, []));
    hide Alike;
  }

  // ----- where two trees part -----

  /** Everything above the path is a directory in both trees. */
  ghost predicate Common(e: Tree, a: Tree, p: Path) {
    p != [] && forall k :: 0 <= k < |p| ==> BothDirs(NodeAt(e, p[..k]), NodeAt(a, p[..k]))
  }

  predicate BothDirs(x: Option<Tree>, y: Option<Tree>) {
    x.Some? && x.value.Dir? && y.Some? && y.value.Dir?
  }

  ghost predicate Lost(e: Tree, a: Tree, p: Path) {
    Common(e, a, p) && NodeAt(e, p).Some? && NodeAt(a, p).None?
  }

  ghost predicate Gained(e: Tree, a: Tree, p: Path) {
    Common(e, a, p) && NodeAt(e, p).None? && NodeAt(a, p).Some?
  }

  ghost predicate Altered(e: Tree, a: Tree, p: Path) {
    && Common(e, a, p) && NodeAt(e, p).Some? && NodeAt(a, p).Some?
    && !BothDirs(NodeAt(e, p), NodeAt(a, p)) && !Alike(NodeAt(e, p), NodeAt(a, p))
  }

  lemma CommonStep(e: Tree, a: Tree, p: Path)
    requires p != []
    ensures Common(e, a, p) <==>
            e.Dir? && a.Dir? && (|p| > 1 ==> p[0] in e.children && p[0] in a.children && Common(e.children[p[0]], a.children[p[0]], p[1..]))
  {
    assert p[..0] == [];
    if e.Dir? && a.Dir? && |p| > 1 {
      if p[0] in e.children && p[0] in a.children {
        forall k | 0 < k < |p|
          ensures NodeAt(e, p[..k]) == NodeAt(e.children[p[0]], p[1..][..k - 1])
          ensures NodeAt(a, p[..k]) == NodeAt(a.children[p[0]], p[1..][..k - 1])
        {
          assert p[..k][1..] == p[1..][..k - 1];
        }
        if Common(e, a, p) {
          forall k | 0 <= k < |p[1..]| ensures BothDirs(NodeAt(e.children[p[0]], p[1..][..k]), NodeAt(a.children[p[0]], p[1..][..k])) {
            assert BothDirs(NodeAt(e, p[..k + 1]), NodeAt(a, p[..k + 1]));
          }
        }
      } else {
        assert p[..1] == [p[0]];
        assert !BothDirs(NodeAt(e, p[..1]), NodeAt(a, p[..1]));
      }
    }
  }

  lemma LeavesDiffer(x: Tree, y: Tree)
    requires !(x.Dir? && y.Dir?)
    ensures Recorded(x) != Recorded(y) <==> !Alike(Some(x), Some(y))
  {
  }

  /** The three kinds of divergence, said of the nodes at the path. */
  lemma {:induction false} DivergesIs(e: Tree, a: Tree, p: Path)
    requires p != []
    ensures Diverges(e, a, p, Missing) <==> Lost(e, a, p)
    ensures Diverges(e, a, p, Unexpected) <==> Gained(e, a, p)
    ensures Diverges(e, a, p, Changed) <==> Altered(e, a, p)
    decreases |p|
  {
    CommonStep(e, a, p);
    hide Common, Recorded;
    var n := p[0];
    if |p| > 1 {
      hide Alike;
      if e.Dir? && a.Dir? && n in e.children && n in a.children {
        DivergesIs(e.children[n], a.children[n], p[1..]);
      }
    } else {
      assert p == [n] + [];
      NodeBelow(e, n, []);
      NodeBelow(a, n, []);
      if e.Dir? && a.Dir? && n in e.children && n in a.children && !(e.children[n].Dir? && a.children[n].Dir?) {
        LeavesDiffer(e.children[n], a.children[n]);
      }
    }
  }
}
