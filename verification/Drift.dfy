/** Comparing a directory with what a checkpoint recorded: `drift` and `compare` in `tree.rs`. */
module Drift {
  import opened Bytes
  import opened Sorting
  import opened JsonFields
  import opened Utf8
  import opened Cas
  import opened FileTree
  import opened Disks
  import opened Snapshot
  import opened Restore
  import opened SnapshotTheorems

  datatype Tag = Missing | Unexpected | Changed

  datatype Difference = Difference(tag: Tag, path: Path)

  // ----- what the differences are, without any hash -----

  /** A path at which the two trees first part: everything above it is a directory in both. */
  ghost predicate Diverges(e: Tree, a: Tree, p: Path, tag: Tag)
    requires p != []
    decreases |p|
  {
    && e.Dir? && a.Dir?
    && var n := p[0];
       if |p| > 1 then
         n in e.children && n in a.children && Diverges(e.children[n], a.children[n], p[1..], tag)
       else
         match tag
         case Missing => n in e.children && n !in a.children
         case Unexpected => n !in e.children && n in a.children
         case Changed =>
           && n in e.children && n in a.children
           && Recorded(e.children[n]) != Recorded(a.children[n])
           && !(e.children[n].Dir? && a.children[n].Dir?)
  }

  /** The comparison as a function of the trees, in the order the names are visited. */
  ghost function DiffDirs(e: Tree, a: Tree, prefix: Path): seq<Difference>
    requires e.Dir? && a.Dir?
    decreases e, 1, 0
  {
    DiffNames(e, a, SortSet(ByUtf8, e.children.Keys + a.children.Keys), prefix)
  }

  ghost function DiffNames(e: Tree, a: Tree, names: seq<string>, prefix: Path): seq<Difference>
    requires e.Dir? && a.Dir?
    decreases e, 0, |names|
  {
    if names == [] then [] else DiffName(e, a, names[0], prefix) + DiffNames(e, a, names[1..], prefix)
  }

  ghost function DiffName(e: Tree, a: Tree, n: string, prefix: Path): seq<Difference>
    requires e.Dir? && a.Dir?
    decreases e, 0, 0
  {
    if n in e.children && n in a.children then
      var x, y := e.children[n], a.children[n];
      if Recorded(x) == Recorded(y) then []
      else if x.Dir? && y.Dir? then DiffDirs(x, y, prefix + [n])
      else [Difference(Changed, prefix + [n])]
    else if n in e.children then [Difference(Missing, prefix + [n])]
    else if n in a.children then [Difference(Unexpected, prefix + [n])]
    else []
  }

  // ----- the listing is exactly the divergences -----

  ghost predicate Below(prefix: Path, p: Path) {
    |p| > |prefix| && p[..|prefix|] == prefix
  }

  /** Every divergence is listed, and nothing else is. */
  lemma {:induction false} DiffComplete(e: Tree, a: Tree, prefix: Path, d: Difference)
    requires e.Dir? && a.Dir?
    ensures d in DiffDirs(e, a, prefix) <==>
            Below(prefix, d.path) && Diverges(e, a, d.path[|prefix|..], d.tag)
    decreases e, 1, 0
  {
    var names := SortSet(ByUtf8, e.children.Keys + a.children.Keys);
    SortedKeys(e.children.Keys + a.children.Keys);
    DiffNamesComplete(e, a, names, prefix, d);
  }

  lemma {:induction false} DiffNamesComplete(e: Tree, a: Tree, names: seq<string>, prefix: Path, d: Difference)
    requires e.Dir? && a.Dir?
    ensures d in DiffNames(e, a, names, prefix) <==>
            Below(prefix, d.path) && d.path[|prefix|] in names && Diverges(e, a, d.path[|prefix|..], d.tag)
    decreases e, 0, |names|
  {
    if names != [] {
      DiffNameComplete(e, a, names[0], prefix, d);
      DiffNamesComplete(e, a, names[1..], prefix, d);
    }
  }

  lemma {:induction false} DiffNameComplete(e: Tree, a: Tree, n: string, prefix: Path, d: Difference)
    requires e.Dir? && a.Dir?
    ensures d in DiffName(e, a, n, prefix) <==>
            Below(prefix, d.path) && d.path[|prefix|] == n && Diverges(e, a, d.path[|prefix|..], d.tag)
    decreases e, 0, 0
  {
    BelowStep(prefix, n, d.path);
    if n in e.children && n in a.children {
      var x, y := e.children[n], a.children[n];
      if x.Dir? && y.Dir? {
        DiffComplete(x, y, prefix + [n], d);
        if Recorded(x) == Recorded(y) {
          SameHasNoDivergence(x, y);
        }
      }
    }
  }

  lemma BelowStep(prefix: Path, n: string, p: Path)
    ensures Below(prefix + [n], p) <==> Below(prefix, p) && p[|prefix|] == n && |p| > |prefix| + 1
    ensures Below(prefix, p) ==> p[|prefix|..][0] == p[|prefix|] && p[|prefix|..][1..] == p[|prefix| + 1..]
    ensures p == prefix + [n] <==> Below(prefix, p) && p[|prefix|] == n && |p| == |prefix| + 1
  {
    var q := prefix + [n];
    if |p| > |prefix| {
      assert p[..|prefix| + 1] == p[..|prefix|] + [p[|prefix|]];
      assert |p| == |q| ==> p == p[..|q|];
    }
    assert q[..|prefix|] == prefix;
    if Below(q, p) {
      assert p[..|prefix|] == p[..|q|][..|prefix|];
    }
  }

  lemma {:induction false} SameHasNoDivergence(e: Tree, a: Tree)
    requires e.Dir? && a.Dir? && Recorded(e) == Recorded(a)
    ensures forall p, tag :: p != [] ==> !Diverges(e, a, p, tag)
  {
    forall p: Path, tag | p != [] ensures !Diverges(e, a, p, tag) {
      NoDivergence(e, a, p, tag);
    }
  }

  lemma {:induction false} NoDivergence(e: Tree, a: Tree, p: Path, tag: Tag)
    requires e.Dir? && a.Dir? && Recorded(e) == Recorded(a) && p != []
    ensures !Diverges(e, a, p, tag)
    decreases |p|
  {
    assert Recorded(e).children.Keys == e.children.Keys && Recorded(a).children.Keys == a.children.Keys;
    var n := p[0];
    if n in e.children {
      assert Recorded(e).children[n] == Recorded(e.children[n]) && Recorded(a).children[n] == Recorded(a.children[n]);
      if |p| > 1 && e.children[n].Dir? && a.children[n].Dir? {
        NoDivergence(e.children[n], a.children[n], p[1..], tag);
      }
    }
  }

  // ----- the order of the listing -----

  ghost predicate PathLess(p: Path, q: Path) {
    exists k :: 0 <= k < |p| && k < |q| && p[..k] == q[..k] && p[k] != q[k] && ByUtf8(p[k], q[k])
  }

  ghost predicate Ordered(ds: seq<Difference>) {
    forall i, j :: 0 <= i < j < |ds| ==> PathLess(ds[i].path, ds[j].path)
  }

  /** Paths are listed in strictly increasing order, so the listing is determined by its members. */
  lemma {:induction false} DiffOrdered(e: Tree, a: Tree, prefix: Path)
    requires e.Dir? && a.Dir?
    ensures Ordered(DiffDirs(e, a, prefix))
    decreases e, 1, 0
  {
    var names := SortSet(ByUtf8, e.children.Keys + a.children.Keys);
    SortedKeys(e.children.Keys + a.children.Keys);
    DiffNamesOrdered(e, a, names, prefix);
  }

  lemma {:induction false} DiffNamesOrdered(e: Tree, a: Tree, names: seq<string>, prefix: Path)
    requires e.Dir? && a.Dir? && SortedBy(ByUtf8, names) && NoDuplicates(names)
    ensures Ordered(DiffNames(e, a, names, prefix))
    decreases e, 0, |names|
  {
    if names != [] {
      var first, rest := DiffName(e, a, names[0], prefix), DiffNames(e, a, names[1..], prefix);
      DiffNamesOrdered(e, a, names[1..], prefix);
      if names[0] in e.children && names[0] in a.children && e.children[names[0]].Dir? && a.children[names[0]].Dir? {
        DiffOrdered(e.children[names[0]], a.children[names[0]], prefix + [names[0]]);
      }
      forall x, y | x in first && y in rest ensures PathLess(x.path, y.path) {
        DiffNameComplete(e, a, names[0], prefix, x);
        DiffNamesComplete(e, a, names[1..], prefix, y);
        LaterName(names, prefix, x.path, y.path);
      }
      OrderedConcat(first, rest);
    }
  }

  lemma LaterName(names: seq<string>, prefix: Path, p: Path, q: Path)
    requires names != [] && SortedBy(ByUtf8, names) && NoDuplicates(names)
    requires Below(prefix, p) && p[|prefix|] == names[0]
    requires Below(prefix, q) && q[|prefix|] in names[1..]
    ensures PathLess(p, q)
  {
    var j :| 1 <= j < |names| && names[j] == q[|prefix|];
    assert p[..|prefix|] == q[..|prefix|] && p[|prefix|] != q[|prefix|] && ByUtf8(p[|prefix|], q[|prefix|]);
  }

  lemma OrderedConcat(a: seq<Difference>, b: seq<Difference>)
    requires Ordered(a) && Ordered(b)
    requires forall x, y :: x in a && y in b ==> PathLess(x.path, y.path)
    ensures Ordered(a + b)
  {
    forall i, j | 0 <= i < j < |a + b| ensures PathLess((a + b)[i].path, (a + b)[j].path) {
      if i < |a| && |a| <= j {
        assert a[i] in a && b[j - |a|] in b;
      }
    }
  }

  // ----- what the listing does not see -----

  /** Equal up to the modes of directories. */
  ghost predicate SameButDirModes(e: Tree, a: Tree) {
    if e.Dir? && a.Dir? then
      e.children.Keys == a.children.Keys && forall n :: n in e.children ==> SameButDirModes(e.children[n], a.children[n])
    else Recorded(e) == Recorded(a)
  }

  lemma {:induction false} DiffEmpty(e: Tree, a: Tree, prefix: Path)
    requires e.Dir? && a.Dir?
    ensures DiffDirs(e, a, prefix) == [] <==> SameButDirModes(e, a)
    decreases e, 1
  {
    var names := SortSet(ByUtf8, e.children.Keys + a.children.Keys);
    SortedKeys(e.children.Keys + a.children.Keys);
    DiffNamesEmpty(e, a, names, prefix);
    forall n | n in names ensures DiffName(e, a, n, prefix) == [] <==> SameAt(e, a, n) {
      DiffNameEmpty(e, a, n, prefix);
    }
    SameEverywhere(e, a, names);
  }

  ghost predicate SameAt(e: Tree, a: Tree, n: string)
    requires e.Dir? && a.Dir?
  {
    (n in e.children <==> n in a.children) && (n in e.children ==> SameButDirModes(e.children[n], a.children[n]))
  }

  lemma SameEverywhere(e: Tree, a: Tree, names: seq<string>)
    requires e.Dir? && a.Dir? && forall n :: n in names <==> n in e.children.Keys + a.children.Keys
    ensures SameButDirModes(e, a) <==> forall n :: n in names ==> SameAt(e, a, n)
  {
    if forall n :: n in names ==> SameAt(e, a, n) {
      forall n ensures n in e.children <==> n in a.children {
        assert n in names ==> SameAt(e, a, n);
      }
    }
  }

  lemma {:induction false} DiffNameEmpty(e: Tree, a: Tree, n: string, prefix: Path)
    requires e.Dir? && a.Dir? && (n in e.children || n in a.children)
    ensures DiffName(e, a, n, prefix) == [] <==> SameAt(e, a, n)
    decreases e, 0
  {
    if n in e.children && n in a.children {
      var x, y := e.children[n], a.children[n];
      if Recorded(x) == Recorded(y) {
        RecordedSame(x, y);
      } else if x.Dir? && y.Dir? {
        DiffEmpty(x, y, prefix + [n]);
      }
    }
  }

  lemma {:induction false} DiffNamesEmpty(e: Tree, a: Tree, names: seq<string>, prefix: Path)
    requires e.Dir? && a.Dir?
    ensures DiffNames(e, a, names, prefix) == [] <==> forall n :: n in names ==> DiffName(e, a, n, prefix) == []
  {
    if names != [] {
      var first, rest := DiffName(e, a, names[0], prefix), DiffNames(e, a, names[1..], prefix);
      DiffNamesEmpty(e, a, names[1..], prefix);
      assert DiffNames(e, a, names, prefix) == first + rest && (first + rest == [] <==> first == [] && rest == []);
      assert forall n :: n in names <==> n == names[0] || n in names[1..];
      if first + rest == [] {
        forall n | n in names ensures DiffName(e, a, n, prefix) == [] {
        }
      } else {
        assert |first + rest| == |first| + |rest|;
        var n :| n in names && DiffName(e, a, n, prefix) != [];
      }
    }
  }

  lemma {:induction false} RecordedSame(e: Tree, a: Tree)
    requires Recorded(e) == Recorded(a)
    ensures SameButDirModes(e, a)
  {
    if e.Dir? && a.Dir? {
      assert e.children.Keys == Recorded(e).children.Keys == a.children.Keys;
      forall n | n in e.children ensures SameButDirModes(e.children[n], a.children[n]) {
        assert Recorded(e).children[n] == Recorded(a).children[n];
        RecordedSame(e.children[n], a.children[n]);
      }
    }
  }

  // ----- compare -----

  /** The path text a comparison builds up name by name. */
  function Join(p: Path): string {
    if p == [] then ""
    else
      var front := Join(p[..|p| - 1]);
      if front == "" then p[|p| - 1] else front + "/" + p[|p| - 1]
  }

  function Label(tag: Tag): string {
    match tag
    case Missing => "missing: "
    case Unexpected => "unexpected: "
    case Changed => "changed: "
  }

  function Render(ds: seq<Difference>): seq<string> {
    seq(|ds|, i requires 0 <= i < |ds| => Label(ds[i].tag) + Join(ds[i].path))
  }

  lemma RenderConcat(a: seq<Difference>, b: seq<Difference>)
    ensures Render(a + b) == Render(a) + Render(b)
  {
  }

  /** Both trees are held by the store, and the recorded one fits the stack. */
  ghost predicate Held(h: Hash, objs: Objects, e: Tree, a: Tree, depth: nat) {
    && e.Dir? && a.Dir? && Capturable(e) && Capturable(a) && Fits(e, depth)
    && Stores(h, objs, ObjectsOf(h, e)) && Stores(h, objs, ObjectsOf(h, a))
  }

  ghost function Hashed(h: Hash, e: Tree, a: Tree): set<Bytes>
    requires Capturable(e) && Capturable(a)
  {
    ObjectsOf(h, e) + ObjectsOf(h, a)
  }

  lemma HeldChild(h: Hash, objs: Objects, e: Tree, a: Tree, depth: nat, n: string)
    requires Held(h, objs, e, a, depth) && n in e.children && n in a.children
    requires e.children[n].Dir? && a.children[n].Dir?
    ensures depth > 0 && Held(h, objs, e.children[n], a.children[n], depth - 1)
    ensures Collides(h, Hashed(h, e.children[n], a.children[n])) ==> Collides(h, Hashed(h, e, a))
  {
    ChildObjectsWithin(h, e, n);
    ChildObjectsWithin(h, a, n);
    ChildCollision(h, e, a, n);
  }

  lemma HeldLoads(h: Hash, objs: Objects, e: Tree, a: Tree, depth: nat)
    requires Held(h, objs, e, a, depth)
    ensures depth > 0
    ensures LoadNode(h, objs, RootHash(h, e)) == Ok(NodeOf(h, e.children))
    ensures LoadNode(h, objs, RootHash(h, a)) == Ok(NodeOf(h, a.children))
  {
    CapturedNodeLoads(h, objs, e);
    CapturedNodeLoads(h, objs, a);
  }

  /** Entries are equal exactly when the trees under them are recorded alike, collisions aside. */
  lemma EqualEntries(h: Hash, e: Tree, a: Tree)
    requires Capturable(e) && Capturable(a)
    ensures Recorded(e) == Recorded(a) ==> EntryOf(h, e) == EntryOf(h, a)
    ensures EntryOf(h, e) == EntryOf(h, a) ==> Recorded(e) == Recorded(a) || Collides(h, Hashed(h, e, a))
  {
    if Recorded(e) == Recorded(a) {
      EntryFromRecorded(h, e, a);
    }
    if EntryOf(h, e) == EntryOf(h, a) {
      EntryCommits(h, e, a);
    }
  }

  lemma {:induction false} EntryFromRecorded(h: Hash, e: Tree, a: Tree)
    requires Capturable(e) && Capturable(a) && Recorded(e) == Recorded(a)
    ensures EntryOf(h, e) == EntryOf(h, a)
    decreases e, 1
  {
    if e.Dir? {
      RecordedDir(e);
      RecordedDir(a);
      EntryOfDir(h, e);
      EntryOfDir(h, a);
      RootFromRecorded(h, e, a);
    }
  }

  lemma {:induction false} RootFromRecorded(h: Hash, e: Tree, a: Tree)
    requires e.Dir? && a.Dir? && Capturable(e) && Capturable(a)
    requires RecordedChildren(e.children) == RecordedChildren(a.children)
    ensures RootHash(h, e) == RootHash(h, a)
    decreases e, 0
  {
    assert e.children.Keys == RecordedChildren(e.children).Keys == a.children.Keys;
    forall n | n in e.children ensures EntryOf(h, e.children[n]) == EntryOf(h, a.children[n]) {
      assert RecordedChildren(e.children)[n] == RecordedChildren(a.children)[n];
      EntryFromRecorded(h, e.children[n], a.children[n]);
    }
    assert NodeOf(h, e.children) == NodeOf(h, a.children);
  }

  /** The premise under which a comparison is exact: the digests are those of two held trees. */
  ghost predicate Comparing(h: Hash, objs: Objects, expected: Digest, actual: Digest, e: Tree, a: Tree, depth: nat) {
    Held(h, objs, e, a, depth) && expected == RootHash(h, e) && actual == RootHash(h, a)
  }

  ghost predicate Appended(h: Hash, e: Tree, a: Tree, out: seq<string>, more: seq<Difference>, r: Result<seq<string>>)
    requires Capturable(e) && Capturable(a)
  {
    r == Ok(out + Render(more)) || Collides(h, Hashed(h, e, a))
  }

  lemma EqualRoots(h: Hash, e: Tree, a: Tree, path: Path)
    requires e.Dir? && a.Dir? && Capturable(e) && Capturable(a) && RootHash(h, e) == RootHash(h, a)
    ensures DiffDirs(e, a, path) == [] || Collides(h, Hashed(h, e, a))
  {
    RootHashCommits(h, e, a);
    if RecordedChildren(e.children) == RecordedChildren(a.children) {
      RecordedSame(Dir(0, e.children), Dir(0, a.children));
      DiffEmpty(e, a, path);
    }
  }

  lemma {:induction false} DiffNamesSnoc(e: Tree, a: Tree, names: seq<string>, n: string, prefix: Path)
    requires e.Dir? && a.Dir?
    ensures DiffNames(e, a, names + [n], prefix) == DiffNames(e, a, names, prefix) + DiffName(e, a, n, prefix)
  {
    if names == [] {
      assert names + [n] == [n] && [n][1..] == [];
    } else {
      assert (names + [n])[1..] == names[1..] + [n];
      DiffNamesSnoc(e, a, names[1..], n, prefix);
    }
  }

  lemma JoinSnoc(path: Path, name: string)
    ensures Join(path + [name]) == if Join(path) == "" then name else Join(path) + "/" + name
  {
    assert (path + [name])[..|path|] == path;
  }

  /** The premise under which one name is compared exactly. */
  ghost predicate Names(h: Hash, objs: Objects, en: DirNode, an: DirNode, e: Tree, a: Tree, depth: nat) {
    Held(h, objs, e, a, depth) && en == NodeOf(h, e.children) && an == NodeOf(h, a.children)
  }

  ghost predicate Nested(x: Entry, y: Entry) {
    x != y && x.DirEntry? && y.DirEntry?
  }

  /** What one name contributes, read off the two nodes; two directories are left to `NestedName`. */
  lemma NameContribution(h: Hash, objs: Objects, en: DirNode, an: DirNode, e: Tree, a: Tree, depth: nat, n: string, path: Path)
    requires Names(h, objs, en, an, e, a, depth) && (n in en || n in an)
    requires n in en && n in an ==> !Nested(en[n], an[n])
    ensures Capturable(e) && Capturable(a) && e.Dir? && a.Dir?
    ensures DiffName(e, a, n, path) ==
              (if n in en && n in an then (if en[n] == an[n] then [] else [Difference(Changed, path + [n])])
               else [Difference(if n in en then Missing else Unexpected, path + [n])])
            || Collides(h, Hashed(h, e, a))
  {
    assert n in en <==> n in e.children;
    assert n in an <==> n in a.children;
    if n in en && n in an {
      EqualEntries(h, e.children[n], a.children[n]);
      ChildCollision(h, e, a, n);
      IsDirEntry(h, e.children[n]);
      IsDirEntry(h, a.children[n]);
    }
  }

  lemma IsDirEntry(h: Hash, t: Tree)
    requires Capturable(t)
    ensures EntryOf(h, t).DirEntry? <==> t.Dir?
    ensures t.Dir? ==> EntryOf(h, t).hash == RootHash(h, t)
  {
  }

  lemma NestedName(h: Hash, objs: Objects, en: DirNode, an: DirNode, e: Tree, a: Tree, depth: nat, n: string, path: Path)
    requires Names(h, objs, en, an, e, a, depth) && n in en && n in an && Nested(en[n], an[n])
    ensures Capturable(e) && Capturable(a) && e.Dir? && a.Dir? && n in e.children && n in a.children && depth > 0
    ensures Comparing(h, objs, en[n].hash, an[n].hash, e.children[n], a.children[n], depth - 1)
    ensures DiffName(e, a, n, path) == DiffDirs(e.children[n], a.children[n], path + [n]) || Collides(h, Hashed(h, e, a))
    ensures Collides(h, Hashed(h, e.children[n], a.children[n])) ==> Collides(h, Hashed(h, e, a))
  {
    var x, y := e.children[n], a.children[n];
    IsDirEntry(h, x);
    IsDirEntry(h, y);
    EqualEntries(h, x, y);
    HeldChild(h, objs, e, a, depth, n);
  }

  /** One name of the union of two nodes. */
  method CompareName(name: string, en: DirNode, an: DirNode, prefix: string, cas: CasStore, out: seq<string>, depth: nat,
                     ghost path: Path, ghost e: Tree, ghost a: Tree)
    returns (r: Result<seq<string>>)
    requires cas.Valid() && prefix == Join(path) && depth > 0 && (name in en || name in an)
    ensures Names(cas.h, cas.objs, en, an, e, a, depth) ==> Appended(cas.h, e, a, out, DiffName(e, a, name, path), r)
    decreases depth, 0
  {
    ghost var h, exact := cas.h, Names(cas.h, cas.objs, en, an, e, a, depth);
    var full := if prefix == "" then name else prefix + "/" + name;
    JoinSnoc(path, name);
    if name in en && name in an && en[name] != an[name] && en[name].DirEntry? && an[name].DirEntry? {
      if exact {
        NestedName(h, cas.objs, en, an, e, a, depth, name, path);
      }
      r := Compare(en[name].hash, an[name].hash, full, cas, out, depth - 1, path + [name],
                   if exact then e.children[name] else e, if exact then a.children[name] else a);
      return;
    }
    if exact {
      NameContribution(h, cas.objs, en, an, e, a, depth, name, path);
    }
    if name in en && name in an && en[name] == an[name] {
      assert out + Render([]) == out;
      return Ok(out);
    }
    var tag := if name in en && name in an then Changed else if name in en then Missing else Unexpected;
    RenderOne(tag, path + [name]);
    return Ok(out + [Label(tag) + full]);
  }

  lemma RenderOne(tag: Tag, path: Path)
    ensures Render([Difference(tag, path)]) == [Label(tag) + Join(path)]
  {
  }

  lemma AppendMore(h: Hash, e: Tree, a: Tree, out: seq<string>, names: seq<string>, i: nat, path: Path,
                   before: seq<string>, r: Result<seq<string>>)
    requires e.Dir? && a.Dir? && Capturable(e) && Capturable(a) && i < |names|
    requires Appended(h, e, a, out, DiffNames(e, a, names[..i], path), Ok(before))
    requires Appended(h, e, a, before, DiffName(e, a, names[i], path), r)
    ensures Appended(h, e, a, out, DiffNames(e, a, names[..i + 1], path), r)
  {
    hide DiffName, DiffNames, Hashed, Collides, Capturable;
    var xs, ys := DiffNames(e, a, names[..i], path), DiffName(e, a, names[i], path);
    DiffNamesSnoc(e, a, names[..i], names[i], path);
    assert names[..i + 1] == names[..i] + [names[i]];
    RenderConcat(xs, ys);
    Assoc(out, Render(xs), Render(ys));
  }

  /** The loop of `compare` over the union of the names. */
  method CompareNames(names: seq<string>, en: DirNode, an: DirNode, prefix: string, cas: CasStore, out: seq<string>,
                      depth: nat, ghost path: Path, ghost e: Tree, ghost a: Tree)
    returns (r: Result<seq<string>>)
    requires cas.Valid() && prefix == Join(path) && depth > 0
    requires forall n :: n in names ==> n in en || n in an
    ensures Names(cas.h, cas.objs, en, an, e, a, depth) ==> Appended(cas.h, e, a, out, DiffNames(e, a, names, path), r)
    decreases depth, 1
  {
    ghost var h, exact := cas.h, Names(cas.h, cas.objs, en, an, e, a, depth);
    r := Ok(out);
    assert exact ==> out + Render(DiffNames(e, a, names[..0], path)) == out;
    for i := 0 to |names|
      invariant r.Ok?
      invariant exact ==> Appended(h, e, a, out, DiffNames(e, a, names[..i], path), r)
    {
      var before := r.value;
      r := CompareName(names[i], en, an, prefix, cas, before, depth, path, e, a);
      if exact {
        AppendMore(h, e, a, out, names, i, path, before, r);
      }
      if r.Err? {
        return;
      }
    }
    assert names[..|names|] == names;
  }

  lemma AllNames(h: Hash, objs: Objects, en: DirNode, an: DirNode, e: Tree, a: Tree, depth: nat, path: Path)
    requires Names(h, objs, en, an, e, a, depth)
    ensures DiffNames(e, a, SortSet(ByUtf8, (en + an).Keys), path) == DiffDirs(e, a, path)
  {
    assert (en + an).Keys == e.children.Keys + a.children.Keys;
  }

  /** `compare`: nothing to say about equal digests, else name by name. */
  method Compare(expected: Digest, actual: Digest, prefix: string, cas: CasStore, out: seq<string>, depth: nat,
                 ghost path: Path, ghost e: Tree, ghost a: Tree)
    returns (r: Result<seq<string>>)
    requires cas.Valid() && prefix == Join(path)
    ensures Comparing(cas.h, cas.objs, expected, actual, e, a, depth) ==>
              Appended(cas.h, e, a, out, DiffDirs(e, a, path), r)
    decreases depth, 2
  {
    ghost var exact := Comparing(cas.h, cas.objs, expected, actual, e, a, depth);
    if expected == actual {
      if exact {
        EqualRoots(cas.h, e, a, path);
        assert out + Render([]) == out;
      }
      return Ok(out);
    }
    if exact {
      HeldLoads(cas.h, cas.objs, e, a, depth);
    }
    if depth == 0 {
      return Err(StackExhausted);
    }
    var en := Load(expected, cas);
    if en.Err? {
      return Err(en.error);
    }
    var an := Load(actual, cas);
    if an.Err? {
      return Err(an.error);
    }
    var names := SortKeys(en.value + an.value);
    SortedKeys((en.value + an.value).Keys);
    if exact {
      AllNames(cas.h, cas.objs, en.value, an.value, e, a, depth, path);
    }
    r := CompareNames(names, en.value, an.value, prefix, cas, out, depth, path, e, a);
  }

  // ----- drift -----

  datatype Report = Report(matches: bool, differences: seq<string>)

  /** The recorded tree `e` is in the store, and `a` is what the destination holds now. */
  ghost predicate Checking(h: Hash, objs: Objects, expected: Digest, now: Option<Tree>, e: Tree, depth: nat) {
    && e.Dir? && Capturable(e) && Fits(e, depth) && expected == RootHash(h, e)
    && Sound(h, objs) && Stores(h, objs, ObjectsOf(h, e))
    && now.Some? && now.value.Dir? && Capturable(now.value)
  }

  /** `matches` says whether the destination is recorded alike, and the differences are exactly the
    divergences of the two trees. */
  ghost predicate Exact(e: Tree, a: Tree, r: Result<Report>)
    requires e.Dir? && a.Dir?
  {
    && r.Ok?
    && (r.value.matches <==> RecordedChildren(e.children) == RecordedChildren(a.children))
    && r.value.differences == Render(DiffDirs(e, a, []))
  }

  /** What the second capture leaves in the store, unless something collides. */
  lemma RecapturedHeld(h: Hash, before: Objects, after: Objects, e: Tree, a: Tree, depth: nat)
    requires e.Dir? && a.Dir? && Capturable(e) && Capturable(a) && Fits(e, depth)
    requires Sound(h, before) && Stores(h, before, ObjectsOf(h, e))
    requires Extended(h, before, after, ObjectsOf(h, a))
    ensures Held(h, after, e, a, depth) || Collides(h, before.Values + ObjectsOf(h, a))
    ensures Collides(h, Hashed(h, e, a)) ==> Collides(h, before.Values + ObjectsOf(h, a))
  {
    ExtendedStores(h, before, after, ObjectsOf(h, a));
    forall x | x in ObjectsOf(h, e) ensures x in before.Values {
      assert before[h(x)] == x;
    }
    if Collides(h, Hashed(h, e, a)) {
      CollidesMono(h, Hashed(h, e, a), before.Values + ObjectsOf(h, a));
    }
  }

  lemma RootsDecide(h: Hash, e: Tree, a: Tree)
    requires e.Dir? && a.Dir? && Capturable(e) && Capturable(a)
    ensures (RootHash(h, e) == RootHash(h, a) <==> RecordedChildren(e.children) == RecordedChildren(a.children))
            || Collides(h, Hashed(h, e, a))
  {
    if RecordedChildren(e.children) == RecordedChildren(a.children) {
      RootFromRecorded(h, e, a);
    } else if RootHash(h, e) == RootHash(h, a) {
      RootHashCommits(h, e, a);
    }
  }

  /** After the second capture the comparison is exact, and equal roots mean equal trees, unless
    something collides. */
  lemma DriftSettled(h: Hash, before: Objects, after: Objects, expected: Digest, e: Tree, a: Tree, depth: nat)
    requires Checking(h, before, expected, Some(a), e, depth)
    requires Extended(h, before, after, ObjectsOf(h, a))
    ensures || Collides(h, before.Values + ObjectsOf(h, a))
            || (&& Comparing(h, after, expected, RootHash(h, a), e, a, depth)
                && !Collides(h, Hashed(h, e, a))
                && (expected == RootHash(h, a) <==> RecordedChildren(e.children) == RecordedChildren(a.children))
                && (expected == RootHash(h, a) ==> DiffDirs(e, a, []) == []))
  {
    RecapturedHeld(h, before, after, e, a, depth);
    RootsDecide(h, e, a);
    if expected == RootHash(h, a) {
      EqualRoots(h, e, a, []);
    }
  }

  /** `drift`: capture the destination again, compare the root hashes, name what differs. */
  method CheckDrift(expected: Digest, cas: CasStore, disk: Disk, dest: Path, depth: nat, ghost e: Tree)
    returns (r: Result<Report>)
    requires cas.Valid()
    modifies cas
    ensures cas.Valid()
    ensures var now := Reach(disk.root, dest);
            && (now.None? || !now.value.Dir? || !Capturable(now.value) ==> r.Err?)
            && (r.Ok? ==> (r.value.matches <==> RootHash(cas.h, now.value) == expected))
            && (r.Ok? && r.value.matches ==> r.value.differences == [])
            && (now.Some? && now.value.Dir? && Capturable(now.value) && RootHash(cas.h, now.value) == expected ==> r.Ok?)
    ensures var now := Reach(disk.root, dest);
            Checking(cas.h, old(cas.objs), expected, now, e, depth) ==>
              Exact(e, now.value, r) || Collides(cas.h, old(cas.objs).Values + ObjectsOf(cas.h, now.value))
  {
    var now := Reach(disk.root, dest);
    if now.None? {
      return Err(Io);
    }
    var a := now.value;
    ghost var h, before := cas.h, cas.objs;
    ghost var checking := Checking(h, before, expected, now, e, depth);
    var actual := Capture(a, cas);
    if actual.Err? {
      return Err(actual.error);
    }
    if checking {
      DriftSettled(h, before, cas.objs, expected, e, a, depth);
    }
    hide DiffDirs, Comparing, Extended, RecordedChildren, RootHash, ObjectsOf, Hashed, Collides, Reach;
    if actual.value == expected {
      assert Render([]) == [];
      return Ok(Report(true, []));
    }
    var differences := Compare(expected, actual.value, "", cas, [], depth, [], e, a);
    if differences.Err? {
      return Err(differences.error);
    }
    assert checking ==> [] + Render(DiffDirs(e, a, [])) == Render(DiffDirs(e, a, []));
    return Ok(Report(false, differences.value));
  }

  lemma {:induction false} RecordedAgain(t: Tree)
    ensures Recorded(Recorded(t)) == Recorded(t)
  {
    if t.Dir? {
      forall n | n in t.children ensures Recorded(Recorded(t.children[n])) == Recorded(t.children[n]) {
        RecordedAgain(t.children[n]);
      }
      RecordedDirAgain(t);
    }
  }

  lemma RecordedDirAgain(t: Tree)
    requires t.Dir? && forall n :: n in t.children ==> Recorded(Recorded(t.children[n])) == Recorded(t.children[n])
    ensures Recorded(Recorded(t)) == Recorded(t)
  {
    hide Recorded;
    RecordedDir(t);
    RecordedDir(Recorded(t));
    assert RecordedChildren(RecordedChildren(t.children)) == RecordedChildren(t.children);
  }

  lemma OwnerBitsKept(m: Mode)
    ensures Readable(m % 512) == Readable(m) && Searchable(m % 512) == Searchable(m)
  {
    var q, r := m / 512, m % 512;
    assert m == 512 * q + r && m / 256 == 2 * q + r / 256 && m / 64 == 8 * q + r / 64;
  }

  lemma {:induction false} RecordedCapturable(t: Tree)
    requires Capturable(t)
    ensures Capturable(Recorded(t))
  {
    match t
    case Dir(mode, children) =>
      forall n | n in children ensures Capturable(Recorded(children[n])) {
        RecordedCapturable(children[n]);
      }
      DirCapturable(t);
    case File(mode, content) => OwnerBitsKept(mode);
    case _ =>
  }

  lemma DirCapturable(t: Tree)
    requires t.Dir? && Capturable(t) && forall n :: n in t.children ==> Capturable(Recorded(t.children[n]))
    ensures Capturable(Recorded(t))
  {
    hide Recorded, Readable, Searchable;
    RecordedDir(t);
    OwnerBitsKept(t.mode);
    var children := RecordedChildren(t.children);
    assert forall n :: n in children ==> Capturable(children[n]);
    assert t.children == map[] ==> children == map[];
  }

  /** What a restore leaves behind can be captured again, and an exact report on it is clean: the
    promise of a byte-identical restore. */
  lemma RestoredIsClean(e: Tree, a: Tree)
    requires e.Dir? && Capturable(e) && a.Dir? && Readable(a.mode) && Searchable(a.mode)
    requires a.children == RecordedChildren(e.children)
    ensures Capturable(a)
    ensures forall r :: Exact(e, a, r) ==> r == Ok(Report(true, []))
  {
    forall n | n in e.children ensures Capturable(a.children[n]) {
      RecordedCapturable(e.children[n]);
    }
    var x, y := Dir(0, e.children), Dir(0, a.children);
    RecordedDir(x);
    RecordedDir(y);
    RecordedAgain(x);
    hide Recorded;
    RecordedSame(x, y);
    DiffEmpty(e, a, []);
  }

  /** A directory whose own mode is all that changed: not a match, and nothing to name. */
  lemma ModeOnlyDrift(d: Tree, m: Mode, n: Mode, name: string)
    requires d.Dir? && m % 512 != n % 512
    ensures var e, a := Dir(493, map[name := Dir(m, d.children)]), Dir(493, map[name := Dir(n, d.children)]);
            RecordedChildren(e.children) != RecordedChildren(a.children) && DiffDirs(e, a, []) == []
  {
    var e, a := Dir(493, map[name := Dir(m, d.children)]), Dir(493, map[name := Dir(n, d.children)]);
    var x, y := Dir(m, d.children), Dir(n, d.children);
    RecordedDir(x);
    RecordedDir(y);
    assert RecordedChildren(e.children)[name] == Recorded(x) && RecordedChildren(a.children)[name] == Recorded(y);
    SameChild(e, a, name);
    DiffEmpty(e, a, []);
  }

  lemma SameChild(e: Tree, a: Tree, name: string)
    requires e.Dir? && a.Dir? && e.children.Keys == a.children.Keys == {name}
    requires e.children[name].Dir? && a.children[name].Dir?
    requires e.children[name].children == a.children[name].children
    ensures SameButDirModes(e, a)
  {
    var x, y := e.children[name], a.children[name];
    forall n | n in x.children ensures SameButDirModes(x.children[n], y.children[n]) {
      RecordedSame(x.children[n], y.children[n]);
    }
  }
}
