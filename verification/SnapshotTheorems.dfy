/** What capture and restore promise together. */
module SnapshotTheorems {
  import opened Bytes
  import opened Cas
  import opened FileTree
  import opened Snapshot
  import opened Restore

  /** The part of a tree a capture records: permission bits only. */
  function Recorded(t: Tree): Tree {
    match t
    case File(mode, content) => File(mode % 512, content)
    case Dir(mode, children) => Dir(mode % 512, map n | n in children :: Recorded(children[n]))
    case _ => t
  }

  function RecordedChildren(children: map<string, Tree>): map<string, Tree> {
    map n | n in children :: Recorded(children[n])
  }

  /** What every POSIX file system guarantees of names and link targets. */
  predicate WellNamed(t: Tree) {
    match t
    case Dir(_, children) => forall n :: n in children ==> ValidName(n) && WellNamed(children[n])
    case Symlink(target) => ValidTarget(target)
    case _ => true
  }

  predicate Fits(t: Tree, depth: nat) {
    t.Dir? ==> depth > 0 && forall n :: n in t.children ==> Fits(t.children[n], depth - 1)
  }

  lemma {:induction false} FitsMore(t: Tree, d: nat, e: nat)
    requires Fits(t, d) && d <= e
    ensures Fits(t, e)
  {
    if t.Dir? {
      forall n | n in t.children ensures Fits(t.children[n], e - 1) {
        FitsMore(t.children[n], d - 1, e - 1);
      }
    }
  }

  /** Every tree fits some stack: the depth bound of a restore is never a loss for a captured tree. */
  lemma {:induction false} SomeDepthFits(t: Tree) returns (depth: nat)
    ensures Fits(t, depth)
  {
    depth := 0;
    if t.Dir? {
      var todo := t.children.Keys;
      while todo != {}
        invariant todo <= t.children.Keys
        invariant forall n :: n in t.children && n !in todo ==> Fits(t.children[n], depth)
      {
        var n :| n in todo;
        var d := SomeDepthFits(t.children[n]);
        var deeper := if d < depth then depth else d;
        forall m | m in t.children && (m !in todo || m == n) ensures Fits(t.children[m], deeper) {
          FitsMore(t.children[m], if m in todo then d else depth, deeper);
        }
        depth := deeper;
        todo := todo - {n};
      }
      depth := depth + 1;
    }
  }

  // ----- restoring what was captured -----

  /** What restoring a captured tree needs of the store, the names and the stack. */
  ghost predicate Restorable(h: Hash, objs: Objects, t: Tree, depth: nat)
    requires Capturable(t)
  {
    match t
    case File(_, content) => Fetch(h, objs, h(content)) == Ok(content)
    case Dir(_, children) =>
      && depth > 0
      && LoadNode(h, objs, RootHash(h, t)) == Ok(NodeOf(h, children))
      && forall n :: n in children ==> ValidName(n) && Restorable(h, objs, children[n], depth - 1)
    case Symlink(target) => ValidTarget(target)
  }

  lemma CapturedNodeLoads(h: Hash, objs: Objects, t: Tree)
    requires t.Dir? && Capturable(t) && Stores(h, objs, ObjectsOf(h, t))
    ensures LoadNode(h, objs, RootHash(h, t)) == Ok(NodeOf(h, t.children))
  {
    var node := NodeOf(h, t.children);
    NodeRoundTrip(node);
    assert NodeBytes(node) in ObjectsOf(h, t);
  }

  ghost predicate Premises(h: Hash, objs: Objects, t: Tree, depth: nat) {
    Capturable(t) && WellNamed(t) && Fits(t, depth) && Stores(h, objs, ObjectsOf(h, t))
  }

  lemma ChildPremises(h: Hash, objs: Objects, t: Tree, depth: nat, n: string)
    requires t.Dir? && n in t.children && Premises(h, objs, t, depth)
    ensures depth > 0 && ValidName(n) && Premises(h, objs, t.children[n], depth - 1)
  {
    ChildObjectsWithin(h, t, n);
  }

  lemma {:induction false} StoredIsRestorable(h: Hash, objs: Objects, t: Tree, depth: nat)
    requires Premises(h, objs, t, depth)
    ensures Restorable(h, objs, t, depth)
  {
    if t.Dir? {
      forall n | n in t.children
        ensures depth > 0 && ValidName(n) && Capturable(t.children[n]) && Restorable(h, objs, t.children[n], depth - 1)
      {
        ChildPremises(h, objs, t, depth, n);
        StoredIsRestorable(h, objs, t.children[n], depth - 1);
      }
      DirRestorable(h, objs, t, depth);
    } else if t.File? {
      assert t.content in ObjectsOf(h, t);
    }
  }

  lemma DirRestorable(h: Hash, objs: Objects, t: Tree, depth: nat)
    requires t.Dir? && Premises(h, objs, t, depth)
    requires forall n :: n in t.children ==>
               depth > 0 && ValidName(n) && Capturable(t.children[n]) && Restorable(h, objs, t.children[n], depth - 1)
    ensures Restorable(h, objs, t, depth)
  {
    CapturedNodeLoads(h, objs, t);
  }

  ghost predicate ChildrenRebuilt(h: Hash, objs: Objects, children: map<string, Tree>, depth: nat)
    requires forall n :: n in children ==> Capturable(children[n])
  {
    forall n :: n in children ==>
      ValidName(n) && RebuildEntry(h, objs, EntryOf(h, children[n]), depth) == Some(Recorded(children[n]))
  }

  lemma RebuildFromChildren(h: Hash, objs: Objects, d: Digest, children: map<string, Tree>, depth: nat)
    requires forall n :: n in children ==> Capturable(children[n])
    requires depth > 0 && LoadNode(h, objs, d) == Ok(NodeOf(h, children))
    requires ChildrenRebuilt(h, objs, children, depth - 1)
    ensures Rebuild(h, objs, d, depth) == Some(RecordedChildren(children))
  {
    hide *;
    var node := NodeOf(h, children);
    RebuildIs(h, objs, d, node, depth);
    RebuildNodeFromChildren(h, objs, children, depth - 1);
  }

  lemma RebuildIs(h: Hash, objs: Objects, d: Digest, node: DirNode, depth: nat)
    requires depth > 0 && LoadNode(h, objs, d) == Ok(node)
    ensures Rebuild(h, objs, d, depth) == RebuildNode(h, objs, node, depth - 1)
  {
  }

  lemma RebuildNodeFromChildren(h: Hash, objs: Objects, children: map<string, Tree>, depth: nat)
    requires forall n :: n in children ==> Capturable(children[n])
    requires ChildrenRebuilt(h, objs, children, depth)
    ensures RebuildNode(h, objs, NodeOf(h, children), depth) == Some(RecordedChildren(children))
  {
    RebuildNodeIs(h, objs, NodeOf(h, children), depth, RecordedChildren(children));
  }

  lemma RebuildNodeIs(h: Hash, objs: Objects, node: DirNode, depth: nat, result: map<string, Tree>)
    requires node.Keys == result.Keys
    requires forall n :: n in node ==> ValidName(n) && RebuildEntry(h, objs, node[n], depth) == Some(result[n])
    ensures RebuildNode(h, objs, node, depth) == Some(result)
  {
    assert (map n | n in node :: RebuildEntry(h, objs, node[n], depth).value) == result;
  }

  /** A store that holds what a capture of the tree put into it rebuilds the recorded tree. */
  lemma {:induction false} RebuildCaptured(h: Hash, objs: Objects, t: Tree, depth: nat)
    requires t.Dir? && Capturable(t) && Restorable(h, objs, t, depth)
    ensures Rebuild(h, objs, RootHash(h, t), depth) == Some(RecordedChildren(t.children))
    decreases t, 0
  {
    forall n | n in t.children
      ensures ValidName(n)
      ensures RebuildEntry(h, objs, EntryOf(h, t.children[n]), depth - 1) == Some(Recorded(t.children[n]))
    {
      RebuildCapturedEntry(h, objs, t.children[n], depth - 1);
    }
    RebuildFromChildren(h, objs, RootHash(h, t), t.children, depth);
  }

  lemma {:induction false} RebuildCapturedEntry(h: Hash, objs: Objects, t: Tree, depth: nat)
    requires Capturable(t) && Restorable(h, objs, t, depth)
    ensures RebuildEntry(h, objs, EntryOf(h, t), depth) == Some(Recorded(t))
    decreases t, 1
  {
    if t.Dir? {
      RebuildCaptured(h, objs, t, depth);
      EntryFromChildren(h, objs, t, depth, RootHash(h, t), RecordedChildren(t.children));
    } else {
      LeafEntry(h, objs, t, depth);
    }
  }

  lemma LeafEntry(h: Hash, objs: Objects, t: Tree, depth: nat)
    requires !t.Dir? && Capturable(t) && Restorable(h, objs, t, depth)
    ensures RebuildEntry(h, objs, EntryOf(h, t), depth) == Some(Recorded(t))
  {
  }

  lemma EntryFromChildren(h: Hash, objs: Objects, t: Tree, depth: nat, d: Digest, recorded: map<string, Tree>)
    requires t.Dir? && Capturable(t) && d == RootHash(h, t) && recorded == RecordedChildren(t.children)
    requires Rebuild(h, objs, d, depth) == Some(recorded)
    ensures RebuildEntry(h, objs, EntryOf(h, t), depth) == Some(Recorded(t))
  {
    hide *;
    EntryOfDir(h, t);
    RecordedDir(t);
    RebuildDirEntryIs(h, objs, t.mode % 512, d, depth, recorded);
  }

  lemma RebuildDirEntryIs(h: Hash, objs: Objects, mode: u32, d: Digest, depth: nat, children: map<string, Tree>)
    requires Rebuild(h, objs, d, depth) == Some(children)
    ensures RebuildEntry(h, objs, DirEntry(mode, d), depth) == Some(Dir(mode % 4096, children))
  {
  }

  lemma EntryOfDir(h: Hash, t: Tree)
    requires t.Dir? && Capturable(t)
    ensures EntryOf(h, t) == DirEntry(t.mode % 512, RootHash(h, t))
  {
  }

  lemma RecordedDir(t: Tree)
    requires t.Dir?
    ensures Recorded(t) == Dir(t.mode % 512, RecordedChildren(t.children))
  {
  }

  lemma ChildObjectsWithin(h: Hash, t: Tree, n: string)
    requires t.Dir? && Capturable(t) && n in t.children
    ensures ObjectsOf(h, t.children[n]) <= ObjectsOf(h, t)
  {
  }

  // ----- a digest stands for one tree -----

  /** Whatever two stores hold beside it, a digest that both can rebuild stands for one tree, or
    two objects among them collide. */
  lemma {:induction false} RebuildUnique(h: Hash, a: Objects, b: Objects, d: Digest, m: nat, n: nat)
    requires Rebuild(h, a, d, m).Some? && Rebuild(h, b, d, n).Some?
    ensures Rebuild(h, a, d, m) == Rebuild(h, b, d, n) || Collides(h, a.Values + b.Values)
    decreases m, 0
  {
    hide ReadNode, RebuildNode, Collides;
    CollidesIn(h, a.Values + b.Values, a[d], b[d]);
    if a[d] == b[d] {
      RebuildNodeUnique(h, a, b, LoadNode(h, a, d).value, m - 1, n - 1);
    }
  }

  lemma {:induction false} RebuildNodeUnique(h: Hash, a: Objects, b: Objects, node: DirNode, m: nat, n: nat)
    requires RebuildNode(h, a, node, m).Some? && RebuildNode(h, b, node, n).Some?
    ensures RebuildNode(h, a, node, m) == RebuildNode(h, b, node, n) || Collides(h, a.Values + b.Values)
    decreases m, 2
  {
    if !Collides(h, a.Values + b.Values) {
      forall k | k in node ensures RebuildEntry(h, a, node[k], m) == RebuildEntry(h, b, node[k], n) {
        RebuildEntryUnique(h, a, b, node[k], m, n);
      }
      RebuildNodeIs(h, a, node, m, RebuildNode(h, b, node, n).value);
    }
  }

  lemma {:induction false} RebuildEntryUnique(h: Hash, a: Objects, b: Objects, e: Entry, m: nat, n: nat)
    requires RebuildEntry(h, a, e, m).Some? && RebuildEntry(h, b, e, n).Some?
    ensures RebuildEntry(h, a, e, m) == RebuildEntry(h, b, e, n) || Collides(h, a.Values + b.Values)
    decreases m, 1
  {
    match e
    case FileEntry(mode, d) => CollidesIn(h, a.Values + b.Values, a[d], b[d]);
    case DirEntry(mode, d) => RebuildUnique(h, a, b, d, m, n);
    case SymlinkEntry(target) =>
  }

  // ----- the root hash commits to the tree -----

  /** Two captured trees with the same root hash are recorded alike below the root, or two of the
    byte strings hashed for them collide. */
  lemma {:induction false} RootHashCommits(h: Hash, s: Tree, t: Tree)
    requires s.Dir? && t.Dir? && Capturable(s) && Capturable(t)
    requires RootHash(h, s) == RootHash(h, t)
    ensures RecordedChildren(s.children) == RecordedChildren(t.children) || Collides(h, ObjectsOf(h, s) + ObjectsOf(h, t))
    decreases s, 1
  {
    hide ObjectsOf, Recorded, RootHash, EntryOf, NodeOf, Collides;
    SameNode(h, s, t);
    if !Collides(h, ObjectsOf(h, s) + ObjectsOf(h, t)) {
      SameNames(h, s.children, t.children);
      forall n | n in s.children ensures Recorded(s.children[n]) == Recorded(t.children[n]) {
        ChildCommits(h, s, t, n);
      }
    }
  }

  lemma {:induction false} ChildCommits(h: Hash, s: Tree, t: Tree, n: string)
    requires s.Dir? && t.Dir? && Capturable(s) && Capturable(t) && NodeOf(h, s.children) == NodeOf(h, t.children)
    requires n in s.children && n in t.children && !Collides(h, ObjectsOf(h, s) + ObjectsOf(h, t))
    ensures Recorded(s.children[n]) == Recorded(t.children[n])
    decreases s, 0
  {
    hide ObjectsOf, Recorded, RootHash, EntryOf, NodeOf, Collides;
    SameEntry(h, s.children, t.children, n);
    EntryCommits(h, s.children[n], t.children[n]);
    ChildCollision(h, s, t, n);
  }

  lemma SameNames(h: Hash, a: map<string, Tree>, b: map<string, Tree>)
    requires forall k :: k in a ==> Capturable(a[k])
    requires forall k :: k in b ==> Capturable(b[k])
    requires NodeOf(h, a) == NodeOf(h, b)
    ensures a.Keys == b.Keys
  {
    assert a.Keys == NodeOf(h, a).Keys && b.Keys == NodeOf(h, b).Keys;
  }

  lemma SameEntry(h: Hash, a: map<string, Tree>, b: map<string, Tree>, n: string)
    requires forall k :: k in a ==> Capturable(a[k])
    requires forall k :: k in b ==> Capturable(b[k])
    requires n in a && NodeOf(h, a) == NodeOf(h, b)
    ensures n in b && EntryOf(h, a[n]) == EntryOf(h, b[n])
  {
    assert n in NodeOf(h, a) && NodeOf(h, a)[n] == NodeOf(h, b)[n];
  }

  lemma SameNode(h: Hash, s: Tree, t: Tree)
    requires s.Dir? && t.Dir? && Capturable(s) && Capturable(t)
    requires RootHash(h, s) == RootHash(h, t)
    ensures NodeOf(h, s.children) == NodeOf(h, t.children) || Collides(h, ObjectsOf(h, s) + ObjectsOf(h, t))
  {
    var a, b := NodeOf(h, s.children), NodeOf(h, t.children);
    CollidesIn(h, ObjectsOf(h, s) + ObjectsOf(h, t), NodeBytes(a), NodeBytes(b));
    NodeRoundTrip(a);
    NodeRoundTrip(b);
  }

  lemma ChildCollision(h: Hash, s: Tree, t: Tree, n: string)
    requires s.Dir? && t.Dir? && Capturable(s) && Capturable(t) && n in s.children && n in t.children
    ensures Collides(h, ObjectsOf(h, s.children[n]) + ObjectsOf(h, t.children[n])) ==> Collides(h, ObjectsOf(h, s) + ObjectsOf(h, t))
  {
    ChildObjectsWithin(h, s, n);
    ChildObjectsWithin(h, t, n);
    var part := ObjectsOf(h, s.children[n]) + ObjectsOf(h, t.children[n]);
    if Collides(h, part) {
      CollidesMono(h, part, ObjectsOf(h, s) + ObjectsOf(h, t));
    }
  }

  lemma {:induction false} EntryCommits(h: Hash, s: Tree, t: Tree)
    requires Capturable(s) && Capturable(t) && EntryOf(h, s) == EntryOf(h, t)
    ensures Recorded(s) == Recorded(t) || Collides(h, ObjectsOf(h, s) + ObjectsOf(h, t))
    decreases s, 2
  {
    match s
    case File(mode, content) =>
      CollidesIn(h, ObjectsOf(h, s) + ObjectsOf(h, t), content, t.content);
    case Dir(mode, children) =>
      RootHashCommits(h, s, t);
      assert RecordedChildren(s.children) == RecordedChildren(t.children) ==> Recorded(s) == Recorded(t);
    case Symlink(target) =>
  }
}
