/** The indexer's read model, folded in place from events: `read-model.ts`. */
module ReadModels {
  import opened Bytes
  import opened Sorting
  import opened Utf8

  const MAX_SAFE_INTEGER: int := 9007199254740991

  datatype ReegEvent =
    | Created(machineId: string, owner: string, createdAtEpoch: int)
    | Checkpointed(machineId: string, checkpoint: CheckpointRecord)
    | Forked(childId: string, parentId: string)
  {
    function Subject(): string {
      if Forked? then childId else machineId
    }
  }

  datatype CheckpointRecord = CheckpointRecord(seqNo: int, blobId: int, timestampMs: int)

  datatype Environment = Environment(
    id: string, owner: Option<string>, createdAtEpoch: Option<int>, parentId: Option<string>,
    checkpoints: seq<CheckpointRecord>)

  type Projection = map<string, Environment>

  // ----- the fold -----

  function Ensured(m: Projection, id: string): Projection {
    if id in m then m else m[id := Environment(id, None, None, None, [])]
  }

  predicate BySeq(a: CheckpointRecord, b: CheckpointRecord) {
    a.seqNo <= b.seqNo
  }

  function WithCheckpoint(cs: seq<CheckpointRecord>, c: CheckpointRecord): seq<CheckpointRecord> {
    if exists i :: 0 <= i < |cs| && cs[i].seqNo == c.seqNo then cs else Sort(BySeq, cs + [c])
  }

  function Apply(m: Projection, e: ReegEvent): Projection {
    var id := e.Subject();
    var r := Ensured(m, id)[id];
    match e
    case Created(_, owner, epoch) => Ensured(m, id)[id := r.(owner := Some(owner), createdAtEpoch := Some(epoch))]
    case Forked(_, parentId) => Ensured(m, id)[id := r.(parentId := Some(parentId))]
    case Checkpointed(_, c) => Ensured(m, id)[id := r.(checkpoints := WithCheckpoint(r.checkpoints, c))]
  }

  function Build(es: seq<ReegEvent>): Projection {
    if es == [] then map[] else Apply(Build(es[..|es| - 1]), es[|es| - 1])
  }

  lemma OneMore(order: seq<string>, id: string)
    requires NoDuplicates(order) && id !in Elements(order)
    ensures NoDuplicates(order + [id]) && Elements(order + [id]) == Elements(order) + {id}
  {
  }

  lemma ValuesAfter(m: map<string, EnvironmentRecord>, id: string, r: EnvironmentRecord)
    requires id !in m
    ensures m[id := r].Values == m.Values + {r}
  {
    var n := m[id := r];
    assert n[id] == r;
    forall v | v in m.Values ensures v in n.Values {
      var k :| k in m && m[k] == v;
      assert n[k] == v;
    }
  }

  class EnvironmentRecord {
    const id: string
    var owner: Option<string>
    var createdAtEpoch: Option<int>
    var parentId: Option<string>
    var checkpoints: seq<CheckpointRecord>

    constructor (id: string)
      ensures this.id == id && Value() == Environment(id, None, None, None, [])
    {
      this.id := id;
      owner, createdAtEpoch, parentId, checkpoints := None, None, None, [];
    }

    function Value(): Environment
      reads this
    {
      Environment(id, owner, createdAtEpoch, parentId, checkpoints)
    }
  }

  /** A map that remembers the order its keys were first set in. */
  class ReadModel {
    var records: map<string, EnvironmentRecord>
    var order: seq<string>

    ghost predicate Valid()
      reads this
    {
      && NoDuplicates(order) && Elements(order) == records.Keys
      && forall id :: id in records ==> records[id].id == id
    }

    ghost function Contents(): Projection
      reads this, records.Values
    {
      map id | id in records :: records[id].Value()
    }

    constructor ()
      ensures Valid() && records == map[] && Contents() == map[]
    {
      records, order := map[], [];
    }

    /** `Map.set` with a key that is not there yet. */
    method Add(record: EnvironmentRecord)
      requires Valid() && record.id !in records
      modifies this
      ensures Valid() && records == old(records)[record.id := record] && order == old(order) + [record.id]
      ensures Contents() == old(Contents())[record.id := record.Value()]
    {
      hide NoDuplicates, Elements;
      ghost var before := Contents();
      OneMore(order, record.id);
      records := records[record.id := record];
      order := order + [record.id];
      assert forall k :: k in before ==> records[k].Value() == before[k];
    }

    /** `ensure`: the record under this id, added with nothing known if there was none. */
    method Ensure(id: string) returns (record: EnvironmentRecord)
      requires Valid()
      modifies this
      ensures Valid() && id in records && record == records[id]
      ensures fresh(records.Values - old(records.Values))
      ensures Contents() == Ensured(old(Contents()), id)
    {
      hide Valid;
      if id in records {
        record := records[id];
      } else {
        record := new EnvironmentRecord(id);
        Add(record);
        ValuesAfter(old(records), id, record);
      }
    }

    /** `applyEvent`. */
    method ApplyEvent(e: ReegEvent)
      requires Valid()
      modifies this, records.Values
      ensures Valid()
      ensures fresh(records.Values - old(records.Values))
      ensures Contents() == Apply(old(Contents()), e)
    {
      hide Sort, NoDuplicates, Elements, Ensured;
      var id := e.Subject();
      var record := Ensure(id);
      ghost var before := Contents();
      assert record in records.Values && before[id] == record.Value();
      label ensured:
      match e {
        case Created(_, owner, epoch) =>
          record.owner := Some(owner);
          record.createdAtEpoch := Some(epoch);
        case Forked(_, parentId) =>
          record.parentId := Some(parentId);
        case Checkpointed(_, c) =>
          if !exists i :: 0 <= i < |record.checkpoints| && record.checkpoints[i].seqNo == c.seqNo {
            record.checkpoints := Sort(BySeq, record.checkpoints + [c]);
          }
          assert record.checkpoints == WithCheckpoint(old@ensured(record.checkpoints), c);
      }
      assert forall k :: k in records && k != id ==> records[k] != record && records[k].Value() == before[k];
    }
  }

  /** `buildModel`. */
  method BuildModel(es: seq<ReegEvent>) returns (model: ReadModel)
    ensures fresh(model) && model.Valid() && model.Contents() == Build(es)
  {
    hide Apply;
    model := new ReadModel();
    for i := 0 to |es|
      invariant fresh(model) && fresh(model.records.Values) && model.Valid()
      invariant model.Contents() == Build(es[..i])
    {
      assert es[..i + 1][..i] == es[..i];
      model.ApplyEvent(es[i]);
    }
    assert es[..|es|] == es;
  }

  // ----- every reachable state -----

  ghost predicate Increasing(cs: seq<CheckpointRecord>) {
    forall i, j :: 0 <= i < j < |cs| ==> cs[i].seqNo < cs[j].seqNo
  }

  lemma SameSeqSameRecord(cs: seq<CheckpointRecord>, a: CheckpointRecord, b: CheckpointRecord)
    requires Increasing(cs) && a in cs && b in cs && a.seqNo == b.seqNo
    ensures a == b
  {
    var i :| 0 <= i < |cs| && cs[i] == a;
    var j :| 0 <= j < |cs| && cs[j] == b;
    assert i == j;
  }

  /** A new number is put in its place among strictly increasing ones; a number seen before changes
    nothing. */
  lemma CheckpointPlaced(cs: seq<CheckpointRecord>, c: CheckpointRecord)
    requires Increasing(cs)
    ensures Increasing(WithCheckpoint(cs, c))
    ensures forall x :: x in WithCheckpoint(cs, c) <==>
                        x in cs || (x == c && !exists i :: 0 <= i < |cs| && cs[i].seqNo == c.seqNo)
  {
    if !exists i :: 0 <= i < |cs| && cs[i].seqNo == c.seqNo {
      var all := cs + [c];
      var sorted := Sort(BySeq, all);
      SortSorts(BySeq, all);
      SameMembers(sorted, all);
      PermutationDistinct(all, sorted);
      hide Sort;
      forall i, j | 0 <= i < j < |sorted| ensures sorted[i].seqNo < sorted[j].seqNo {
        assert BySeq(sorted[i], sorted[j]) && sorted[i] != sorted[j];
        assert sorted[i] in all && sorted[j] in all;
        if sorted[i].seqNo == sorted[j].seqNo && sorted[i] in cs && sorted[j] in cs {
          SameSeqSameRecord(cs, sorted[i], sorted[j]);
        }
      }
    }
  }

  ghost predicate WellKept(m: Projection) {
    forall id :: id in m ==> m[id].id == id && Increasing(m[id].checkpoints)
  }

  /** Whatever is folded in, in any order, each record keeps its id and has strictly increasing
    checkpoint numbers. */
  lemma {:induction false} AlwaysWellKept(es: seq<ReegEvent>)
    ensures WellKept(Build(es))
  {
    if es != [] {
      AlwaysWellKept(es[..|es| - 1]);
      var e := es[|es| - 1];
      hide WithCheckpoint;
      if e.Checkpointed? {
        var r := Ensured(Build(es[..|es| - 1]), e.machineId)[e.machineId];
        CheckpointPlaced(r.checkpoints, e.checkpoint);
      }
    }
  }

  // ----- convergence -----

  /** Neither event contradicts the other. */
  ghost predicate Agree(x: ReegEvent, y: ReegEvent) {
    && (x.Created? && y.Created? && x.machineId == y.machineId ==> x == y)
    && (x.Forked? && y.Forked? && x.childId == y.childId ==> x == y)
    && (x.Checkpointed? && y.Checkpointed? && x.machineId == y.machineId ==>
          x.checkpoint.seqNo == y.checkpoint.seqNo ==> x == y)
  }

  ghost predicate AllAgree(es: seq<ReegEvent>) {
    forall x, y :: x in es && y in es ==> Agree(x, y)
  }

  ghost predicate SameEvents(a: seq<ReegEvent>, b: seq<ReegEvent>) {
    forall e :: e in a <==> e in b
  }

  /** What a record of a model says about the events it was folded from; their order is not in it. */
  ghost predicate RecordOf(es: seq<ReegEvent>, id: string, r: Environment) {
    && r.id == id
    && r.owner.Some? == r.createdAtEpoch.Some?
    && (r.owner.Some? ==> Created(id, r.owner.value, r.createdAtEpoch.value) in es)
    && (forall e :: e in es && e.Created? && e.machineId == id ==> r.owner.Some?)
    && (r.parentId.Some? ==> Forked(id, r.parentId.value) in es)
    && (forall e :: e in es && e.Forked? && e.childId == id ==> r.parentId.Some?)
    && Increasing(r.checkpoints)
    && (forall c :: c in r.checkpoints <==> Checkpointed(id, c) in es)
  }

  ghost predicate Describes(m: Projection, es: seq<ReegEvent>) {
    && (forall e :: e in es ==> e.Subject() in m)
    && (forall id :: id in m ==> (exists e :: e in es && e.Subject() == id) && RecordOf(es, id, m[id]))
  }

  lemma {:induction false} BuildDescribes(es: seq<ReegEvent>)
    requires AllAgree(es)
    ensures Describes(Build(es), es)
  {
    if es != [] {
      var front, e := es[..|es| - 1], es[|es| - 1];
      hide Agree, Describes, Apply;
      assert es == front + [e];
      BuildDescribes(front);
      FoldDescribes(Build(front), front, e);
    }
  }

  lemma FoldDescribes(m: Projection, es: seq<ReegEvent>, e: ReegEvent)
    requires AllAgree(es + [e]) && Describes(m, es)
    ensures Describes(Apply(m, e), es + [e])
  {
    hide Agree, AllAgree, RecordOf, WithCheckpoint;
    var next := Apply(m, e);
    forall id | id in next
      ensures (exists x :: x in es + [e] && x.Subject() == id) && RecordOf(es + [e], id, next[id])
    {
      if id == e.Subject() {
        assert e in es + [e];
        RecordFolded(m, es, e);
      } else {
        var x :| x in es && x.Subject() == id;
        assert x in es + [e];
        RecordUntouched(es, e, id, m[id]);
      }
    }
  }

  lemma RecordUntouched(es: seq<ReegEvent>, e: ReegEvent, id: string, r: Environment)
    requires RecordOf(es, id, r) && e.Subject() != id
    ensures RecordOf(es + [e], id, r)
  {
  }

  lemma NewRecord(es: seq<ReegEvent>, id: string)
    requires forall e :: e in es ==> e.Subject() != id
    ensures RecordOf(es, id, Environment(id, None, None, None, []))
  {
    forall c ensures Checkpointed(id, c) !in es {
      assert Checkpointed(id, c).Subject() == id;
    }
  }

  lemma RecordFolded(m: Projection, es: seq<ReegEvent>, e: ReegEvent)
    requires AllAgree(es + [e]) && Describes(m, es)
    ensures RecordOf(es + [e], e.Subject(), Apply(m, e)[e.Subject()])
  {
    hide WithCheckpoint;
    var id := e.Subject();
    var r := Ensured(m, id)[id];
    if id !in m {
      NewRecord(es, id);
    }
    assert RecordOf(es, id, r);
    assert forall x :: x in es ==> x in es + [e] && Agree(x, e);
    if e.Checkpointed? {
      CheckpointPlaced(r.checkpoints, e.checkpoint);
      var cs := r.checkpoints;
      if i :| 0 <= i < |cs| && cs[i].seqNo == e.checkpoint.seqNo {
        assert cs[i] in cs;
        assert Checkpointed(id, cs[i]) in es;
      }
    }
  }

  lemma SameRecord(a: seq<ReegEvent>, b: seq<ReegEvent>, id: string, r: Environment, s: Environment)
    requires AllAgree(a) && SameEvents(a, b) && RecordOf(a, id, r) && RecordOf(b, id, s)
    ensures r == s
  {
    if r.owner.Some? && s.owner.Some? {
      assert Agree(Created(id, r.owner.value, r.createdAtEpoch.value), Created(id, s.owner.value, s.createdAtEpoch.value));
    }
    if r.parentId.Some? && s.parentId.Some? {
      assert Agree(Forked(id, r.parentId.value), Forked(id, s.parentId.value));
    }
    forall c ensures c in r.checkpoints <==> c in s.checkpoints {
      assert Checkpointed(id, c) in a <==> Checkpointed(id, c) in b;
    }
    IncreasingUnique(r.checkpoints, s.checkpoints);
  }

  lemma IncreasingUnique(a: seq<CheckpointRecord>, b: seq<CheckpointRecord>)
    requires Increasing(a) && Increasing(b) && forall c :: c in a <==> c in b
    ensures a == b
  {
    assert Elements(a) == Elements(b);
    MultisetOfDistinct(a);
    MultisetOfDistinct(b);
    forall x, y | x in a && y in a && BySeq(x, y) && BySeq(y, x) ensures x == y {
      SameSeqSameRecord(a, x, y);
    }
    SortedUniqueOn(BySeq, a, b);
  }

  lemma SameModel(a: seq<ReegEvent>, b: seq<ReegEvent>)
    requires AllAgree(a) && SameEvents(a, b)
    ensures Build(a) == Build(b)
  {
    hide Agree, RecordOf;
    assert AllAgree(b);
    BuildDescribes(a);
    BuildDescribes(b);
    var m, n := Build(a), Build(b);
    hide Build;
    forall id ensures id in m <==> id in n {
    }
    forall id | id in m ensures m[id] == n[id] {
      SameRecord(a, b, id, m[id], n[id]);
    }
  }

  lemma CheckpointKept(m: Projection, e: ReegEvent, id: string, c: CheckpointRecord)
    requires WellKept(m) && id in m && c in m[id].checkpoints
    ensures id in Apply(m, e) && c in Apply(m, e)[id].checkpoints
  {
    hide WithCheckpoint;
    if e.Checkpointed? && e.machineId == id {
      CheckpointPlaced(m[id].checkpoints, e.checkpoint);
    }
  }

  lemma {:induction false} CheckpointStays(es: seq<ReegEvent>, more: seq<ReegEvent>, id: string, c: CheckpointRecord)
    requires id in Build(es) && c in Build(es)[id].checkpoints
    ensures id in Build(es + more) && c in Build(es + more)[id].checkpoints
  {
    if more == [] {
      assert es + more == es;
    } else {
      var front := es + more[..|more| - 1];
      CheckpointStays(es, more[..|more| - 1], id, c);
      assert (es + more)[..|es + more| - 1] == front;
      assert (es + more)[|es + more| - 1] == more[|more| - 1];
      AlwaysWellKept(front);
      hide Apply;
      CheckpointKept(Build(front), more[|more| - 1], id, c);
    }
  }

  /** Events that contradict each other can be told apart by their order: the last create or fork wins,
    and of two checkpoints with one number the first. */
  lemma OrderShows(es: seq<ReegEvent>, x: ReegEvent, y: ReegEvent)
    requires x in es && y in es && !Agree(x, y)
    ensures Build(es + [x]) != Build(es + [y]) || Build([x] + es) != Build([y] + es)
  {
    hide Build, WithCheckpoint;
    if x.Checkpointed? {
      var id := x.machineId;
      FirstHeld(x);
      FirstHeld(y);
      CheckpointStays([x], es, id, x.checkpoint);
      CheckpointStays([y], es, id, y.checkpoint);
      AlwaysWellKept([x] + es);
      if Build([x] + es) == Build([y] + es) {
        SameSeqSameRecord(Build([x] + es)[id].checkpoints, x.checkpoint, y.checkpoint);
      }
    } else {
      LastApplied(es, x);
      LastApplied(es, y);
    }
  }

  lemma FirstHeld(e: ReegEvent)
    requires e.Checkpointed?
    ensures e.machineId in Build([e]) && e.checkpoint in Build([e])[e.machineId].checkpoints
  {
    assert [e][..0] == [];
    CheckpointPlaced([], e.checkpoint);
  }

  lemma LastApplied(es: seq<ReegEvent>, e: ReegEvent)
    ensures Build(es + [e]) == Apply(Build(es), e)
    ensures var m := Build(es + [e]);
            && (e.Created? ==> e.machineId in m && m[e.machineId].owner == Some(e.owner)
                               && m[e.machineId].createdAtEpoch == Some(e.createdAtEpoch))
            && (e.Forked? ==> e.childId in m && m[e.childId].parentId == Some(e.parentId))
  {
    assert (es + [e])[..|es|] == es;
  }

  /** Order and repetition make no difference exactly when no event contradicts another. */
  lemma ConvergesExactly(es: seq<ReegEvent>)
    ensures AllAgree(es) <==> forall other :: SameEvents(es, other) ==> Build(other) == Build(es)
  {
    hide Build, Agree;
    if AllAgree(es) {
      forall other | SameEvents(es, other) ensures Build(other) == Build(es) {
        SameModel(es, other);
      }
    } else {
      var x, y :| x in es && y in es && !Agree(x, y);
      OrderShows(es, x, y);
      assert SameEvents(es, es + [x]) && SameEvents(es, es + [y]) && SameEvents(es, [x] + es) && SameEvents(es, [y] + es);
    }
  }

  // ----- the listing -----

  function DisplayEpoch(e: Environment): int {
    match e.createdAtEpoch case None => MAX_SAFE_INTEGER case Some(epoch) => epoch
  }

  /** Oldest first, then by id in the order of its UTF-16 code units. */
  predicate DisplayedBefore(a: Environment, b: Environment) {
    if DisplayEpoch(a) != DisplayEpoch(b) then DisplayEpoch(a) < DisplayEpoch(b) else LexLe(Utf16(a.id), Utf16(b.id))
  }

  function InOrder(m: Projection, order: seq<string>): (values: seq<Environment>)
    requires forall id :: id in order ==> id in m
  {
    seq(|order|, i requires 0 <= i < |order| => m[order[i]])
  }

  function Environments(m: Projection, order: seq<string>): seq<Environment>
    requires forall id :: id in order ==> id in m
  {
    Sort(DisplayedBefore, InOrder(m, order))
  }

  /** `listEnvironments`: a sorted copy of the map's values. */
  method ListEnvironments(model: ReadModel) returns (list: seq<Environment>)
    requires model.Valid()
    ensures forall id :: id in model.order ==> id in model.Contents()
    ensures list == Environments(model.Contents(), model.order)
  {
    hide Sort;
    assert forall id :: id in model.order ==> id in Elements(model.order);
    var values: seq<Environment> := [];
    for i := 0 to |model.order|
      invariant values == InOrder(model.Contents(), model.order)[..i]
    {
      values := values + [model.records[model.order[i]].Value()];
    }
    assert values == InOrder(model.Contents(), model.order);
    list := Sort(DisplayedBefore, values);
  }

  lemma DisplayPreorder()
    ensures TotalPreorder(DisplayedBefore)
  {
    hide LexLe, Utf16;
    forall a, b ensures DisplayedBefore(a, b) || DisplayedBefore(b, a) {
      LexTotal(Utf16(a.id), Utf16(b.id));
    }
    forall a, b, c | DisplayedBefore(a, b) && DisplayedBefore(b, c) ensures DisplayedBefore(a, c) {
      if DisplayEpoch(a) == DisplayEpoch(b) == DisplayEpoch(c) {
        LexTransitive(Utf16(a.id), Utf16(b.id), Utf16(c.id));
      }
    }
  }

  lemma LevelMeansSameId(a: Environment, b: Environment)
    requires DisplayedBefore(a, b) && DisplayedBefore(b, a)
    ensures a.id == b.id
  {
    LexAntisymmetric(Utf16(a.id), Utf16(b.id));
    ScalarsOfUtf16(a.id);
    ScalarsOfUtf16(b.id);
  }

  lemma ValuesDistinct(m: Projection, order: seq<string>)
    requires NoDuplicates(order) && Elements(order) == m.Keys && WellKept(m)
    ensures forall id :: id in order ==> id in m
    ensures NoDuplicates(InOrder(m, order)) && Elements(InOrder(m, order)) == m.Values
    ensures forall v :: v in InOrder(m, order) ==> v.id in m && m[v.id] == v
  {
    forall id | id in order ensures id in m {
      assert id in Elements(order);
    }
    forall v | v in m.Values ensures v in InOrder(m, order) {
      var id :| id in m && m[id] == v;
      assert id in Elements(order);
      var i :| 0 <= i < |order| && order[i] == id;
      assert InOrder(m, order)[i] == v;
    }
  }

  lemma ListingSorted(m: Projection, p: seq<string>)
    requires WellKept(m) && NoDuplicates(p) && Elements(p) == m.Keys
    ensures forall id :: id in p ==> id in m
    ensures SortedBy(DisplayedBefore, Environments(m, p)) && NoDuplicates(Environments(m, p))
    ensures Elements(Environments(m, p)) == m.Values
  {
    ValuesDistinct(m, p);
    hide DisplayedBefore, Sort, WellKept, InOrder;
    DisplayPreorder();
    SortSorts(DisplayedBefore, InOrder(m, p));
    PermutationDistinct(InOrder(m, p), Environments(m, p));
  }

  /** The listing is a function of the records alone: the order the map was filled in cannot show. */
  lemma ListingCanonical(m: Projection, p: seq<string>, q: seq<string>)
    requires WellKept(m) && NoDuplicates(p) && NoDuplicates(q) && Elements(p) == m.Keys && Elements(q) == m.Keys
    ensures (forall id :: id in p ==> id in m) && (forall id :: id in q ==> id in m)
    ensures Environments(m, p) == Environments(m, q)
  {
    ListingSorted(m, p);
    ListingSorted(m, q);
    hide DisplayedBefore, Environments, SortedBy, NoDuplicates;
    var s, t := Environments(m, p), Environments(m, q);
    MultisetOfDistinct(s);
    MultisetOfDistinct(t);
    forall x, y | x in s && y in s && DisplayedBefore(x, y) && DisplayedBefore(y, x) ensures x == y {
      LevelMeansSameId(x, y);
      assert x in Elements(s) && y in Elements(s);
    }
    SortedUniqueOn(DisplayedBefore, s, t);
  }

  /** Two rebuilds from the same events, whatever their order and repetition, list the same. */
  lemma RebuildsListAlike(a: seq<ReegEvent>, b: seq<ReegEvent>, p: seq<string>, q: seq<string>)
    requires AllAgree(a) && SameEvents(a, b)
    requires NoDuplicates(p) && Elements(p) == Build(a).Keys && NoDuplicates(q) && Elements(q) == Build(b).Keys
    ensures (forall id :: id in p ==> id in Build(a)) && (forall id :: id in q ==> id in Build(b))
    ensures Environments(Build(a), p) == Environments(Build(b), q)
  {
    hide Build, Environments, NoDuplicates, Elements, AllAgree, SameEvents;
    SameModel(a, b);
    AlwaysWellKept(a);
    ListingCanonical(Build(a), p, q);
  }
}
