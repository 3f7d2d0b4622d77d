/** Two restores onto one disk do not disturb each other, or anything else, when neither destination
  lies inside the other. */
module Destinations {
  import opened Bytes
  import opened FileTree
  import opened Restore

  function ChildOrNew(t: Tree, a: string): Tree
    requires t.Dir?
  {
    if a in t.children then t.children[a] else Dir(NEW_DIR_MODE, map[])
  }

  lemma {:induction false} NewDirsMade(p: Path)
    ensures MkDirAll(Dir(NEW_DIR_MODE, map[]), p) == Some(NewDirs(p))
  {
  }

  /** One step down the path to a destination. */
  lemma ReadyStep(t: Tree, p: Path, children: map<string, Tree>)
    requires p != []
    ensures Ready(t, p) <==>
            t.Dir? && Searchable(t.mode) && (p[0] in t.children || Writable(t.mode)) && Ready(ChildOrNew(t, p[0]), p[1..])
    ensures Ready(t, p) ==>
              Filled(t, p, children) == t.(children := t.children[p[0] := Filled(ChildOrNew(t, p[0]), p[1..], children)])
  {
    if t.Dir? {
      NewDirsMade(p[1..]);
      var made := MkDirAll(t, p);
      if made.Some? && Ready(t, p) {
        var d := Dir(Walk(made.value, p).value.mode, children);
        if |p| == 1 {
          assert p[1..] == [];
        }
        assert Graft(made.value, p, d).children == t.children[p[0] := Graft(made.value.children[p[0]], p[1..], d)];
      }
    }
  }

  /** What a restore leaves alone: every path apart from its destination. */
  lemma {:induction false} WalkElsewhere(t: Tree, p: Path, children: map<string, Tree>, q: Path)
    requires Ready(t, p) && Apart(p, q) && Walk(t, q).Some?
    ensures Walk(Filled(t, p, children), q) == Walk(t, q)
  {
    ReadyStep(t, p, children);
    if p[0] == q[0] {
      WalkElsewhere(t.children[p[0]], p[1..], children, q[1..]);
    }
  }

  lemma {:induction false} ReadyElsewhere(t: Tree, p: Path, children: map<string, Tree>, q: Path)
    requires Ready(t, p) && Ready(t, q) && Apart(p, q)
    ensures Ready(Filled(t, p, children), q)
    decreases |p|
  {
    var after := Filled(t, p, children);
    ReadyStep(t, p, children);
    ReadyStep(t, q, children);
    ReadyStep(after, q, children);
    if p[0] == q[0] {
      ReadyElsewhere(ChildOrNew(t, p[0]), p[1..], children, q[1..]);
    }
  }

  /** A filled destination holds what it was filled with. */
  lemma FilledHolds(t: Tree, p: Path, children: map<string, Tree>)
    requires Ready(t, p)
    ensures Walk(Filled(t, p, children), p).Some?
    ensures var d := Walk(Filled(t, p, children), p).value; d.Dir? && d.children == children
  {
    var made := MkDirAll(t, p).value;
    WalkGraft(made, p, Dir(Walk(made, p).value.mode, children));
  }
}
