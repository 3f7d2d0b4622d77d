/** What a drift report prints: a line stands for one difference. */
module DriftLines {
  import opened FileTree
  import opened Cas
  import opened Disks
  import opened SnapshotTheorems
  import opened Drift
  import opened TreePaths

  function Line(d: Difference): string {
    Label(d.tag) + Join(d.path)
  }

  lemma {:induction false} PathTextSnoc(p: Path, n: string)
    ensures PathText(p + [n]) == PathText(p) + "/" + n
  {
    if p == [] {
      assert p + [n] == [n];
    } else {
      assert (p + [n])[0] == p[0] && (p + [n])[1..] == p[1..] + [n];
      PathTextSnoc(p[1..], n);
    }
  }

  lemma {:induction false} JoinIsText(p: Path)
    requires Resolved(p) && p != []
    ensures "/" + Join(p) == PathText(p)
    decreases |p|
  {
    var front, n := p[..|p| - 1], p[|p| - 1];
    assert p == front + [n];
    PathTextSnoc(front, n);
    if front == [] {
      assert Join(front) == "";
    } else {
      JoinIsText(front);
      SplitPath(front);
    }
  }

  lemma JoinDetermines(p: Path, q: Path)
    requires Resolved(p) && p != [] && Resolved(q) && q != [] && Join(p) == Join(q)
    ensures p == q
  {
    JoinIsText(p);
    JoinIsText(q);
    SplitPath(p);
    SplitPath(q);
    assert p == ([""] + p)[1..] && q == ([""] + q)[1..];
  }

  lemma LineDetermines(a: Difference, b: Difference)
    requires Resolved(a.path) && a.path != [] && Resolved(b.path) && b.path != [] && Line(a) == Line(b)
    ensures a == b
  {
    assert Line(a)[0] == Label(a.tag)[0] && Line(b)[0] == Label(b.tag)[0];
    assert a.tag == b.tag;
    var n := |Label(a.tag)|;
    assert Line(a)[n..] == Join(a.path) && Line(b)[n..] == Join(b.path);
    JoinDetermines(a.path, b.path);
  }

  ghost predicate Named(ds: seq<Difference>) {
    forall i :: 0 <= i < |ds| ==> Resolved(ds[i].path) && ds[i].path != []
  }

  /** The printed differences determine the differences, tag and path each. */
  lemma RenderDetermines(x: seq<Difference>, y: seq<Difference>)
    requires Named(x) && Named(y)
    ensures Render(x) == Render(y) <==> x == y
  {
    if Render(x) == Render(y) {
      assert |x| == |Render(x)| == |Render(y)| == |y|;
      forall i | 0 <= i < |x| ensures x[i] == y[i] {
        assert Line(x[i]) == Render(x)[i] == Render(y)[i] == Line(y[i]);
        LineDetermines(x[i], y[i]);
      }
    }
  }

  lemma {:induction false} DivergenceNamed(e: Tree, a: Tree, p: Path, tag: Tag)
    requires WellNamed(e) && WellNamed(a) && p != [] && Diverges(e, a, p, tag)
    ensures Resolved(p)
    decreases |p|
  {
    if |p| > 1 {
      DivergenceNamed(e.children[p[0]], a.children[p[0]], p[1..], tag);
      assert p == [p[0]] + p[1..];
    }
  }

  lemma ListedNamed(e: Tree, a: Tree)
    requires e.Dir? && a.Dir? && WellNamed(e) && WellNamed(a)
    ensures Named(DiffDirs(e, a, []))
  {
    hide WellNamed, Diverges, DiffDirs, Resolved;
    var ds := DiffDirs(e, a, []);
    forall i | 0 <= i < |ds| ensures Resolved(ds[i].path) && ds[i].path != [] {
      DiffComplete(e, a, [], ds[i]);
      var p := ds[i].path;
      assert p[0..] == p;
      DivergenceNamed(e, a, p, ds[i].tag);
    }
  }

  /** A line is printed exactly when the two trees part at its path in the way its tag says. */
  lemma LineExact(e: Tree, a: Tree, d: Difference)
    requires e.Dir? && a.Dir? && WellNamed(e) && WellNamed(a) && Resolved(d.path) && d.path != []
    ensures Line(d) in Render(DiffDirs(e, a, [])) <==> Diverges(e, a, d.path, d.tag)
  {
    hide WellNamed, Diverges, DiffDirs, Resolved, Label, Join;
    var ds := DiffDirs(e, a, []);
    ListedNamed(e, a);
    DiffComplete(e, a, [], d);
    assert d.path[0..] == d.path && d.path[..0] == [];
    if d in ds {
      var i :| 0 <= i < |ds| && ds[i] == d;
      assert Render(ds)[i] == Line(d);
    }
    if Line(d) in Render(ds) {
      var i :| 0 <= i < |ds| && Render(ds)[i] == Line(d);
      assert Line(ds[i]) == Line(d);
      LineDetermines(ds[i], d);
    }
  }

  /** The text of a path: its names with a slash between them. */
  lemma JoinSpelled(p: Path, n: string)
    ensures Join([n]) == n
    ensures Resolved(p) && p != [] ==> Join(p + [n]) == Join(p) + "/" + n
  {
    var q := p + [n];
    assert q[..|q| - 1] == p && [n][..0] == [];
    if Resolved(p) && p != [] {
      JoinIsText(p);
      SplitPath(p);
    }
  }

  /** The lines of a report, word for word: a path is called missing when the recorded tree has something there and
    the other has nothing, unexpected when it is the other way round, and changed when both have
    something, not two directories, that a checkpoint can tell apart; in each case everything above it is
    a directory in both. */
  lemma LinesExact(e: Tree, a: Tree, p: Path)
    requires e.Dir? && a.Dir? && WellNamed(e) && WellNamed(a) && Resolved(p) && p != []
    ensures "missing: " + Join(p) in Render(DiffDirs(e, a, [])) <==> Lost(e, a, p)
    ensures "unexpected: " + Join(p) in Render(DiffDirs(e, a, [])) <==> Gained(e, a, p)
    ensures "changed: " + Join(p) in Render(DiffDirs(e, a, [])) <==> Altered(e, a, p)
  {
    DivergesIs(e, a, p);
    LineExact(e, a, Difference(Missing, p));
    LineExact(e, a, Difference(Unexpected, p));
    LineExact(e, a, Difference(Changed, p));
    hide WellNamed, Diverges, DiffDirs, Resolved, Join, Lost, Gained, Altered;
  }

  /** Every line is one of these. */
  lemma EveryLine(e: Tree, a: Tree, i: nat) returns (p: Path)
    requires e.Dir? && a.Dir? && WellNamed(e) && WellNamed(a) && i < |Render(DiffDirs(e, a, []))|
    ensures Resolved(p) && p != []
    ensures Render(DiffDirs(e, a, []))[i] in ["missing: " + Join(p), "unexpected: " + Join(p), "changed: " + Join(p)]
  {
    ListedNamed(e, a);
    var d := DiffDirs(e, a, [])[i];
    p := d.path;
    hide WellNamed, DiffDirs, Resolved, Join;
  }

  /** A report is clean exactly when the two directories agree at every path below them, in all that a
    checkpoint records. */
  lemma ReportExact(e: Tree, a: Tree, r: Result<Report>)
    requires e.Dir? && a.Dir? && Exact(e, a, r)
    ensures r.Ok? && (r.value.matches <==> AgreeBelow(e, a))
  {
    AlikeBelow(e, a);
    hide RecordedChildren, DiffDirs, AgreeBelow;
  }
}
