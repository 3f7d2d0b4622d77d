/** What the indexer shows, said of the events and of the records themselves: `read-model.ts`, `events.ts`. */
module Displayed {
  import opened Bytes
  import opened Sorting
  import opened Utf8
  import opened Chain
  import opened ReadModels
  import opened IndexedChain

  // ----- any events, in the order they come -----

  predicate Creates(e: ReegEvent, id: string) {
    e.Created? && e.machineId == id
  }

  predicate Forks(e: ReegEvent, id: string) {
    e.Forked? && e.childId == id
  }

  predicate Checks(e: ReegEvent, id: string, seqNo: int) {
    e.Checkpointed? && e.machineId == id && e.checkpoint.seqNo == seqNo
  }

  ghost predicate LastCreate(es: seq<ReegEvent>, id: string, i: int) {
    0 <= i < |es| && Creates(es[i], id) && forall j :: i < j < |es| ==> !Creates(es[j], id)
  }

  ghost predicate LastFork(es: seq<ReegEvent>, id: string, i: int) {
    0 <= i < |es| && Forks(es[i], id) && forall j :: i < j < |es| ==> !Forks(es[j], id)
  }

  ghost predicate FirstCheck(es: seq<ReegEvent>, id: string, seqNo: int, i: int) {
    0 <= i < |es| && Checks(es[i], id, seqNo) && forall j :: 0 <= j < i ==> !Checks(es[j], id, seqNo)
  }

  /** Owner and epoch are those of the last creation, the parent that of the last fork, unknown where there is
    none; of checkpoints with one number the first is kept, and they stand in rising order. */
  ghost predicate OwnerIs(es: seq<ReegEvent>, id: string, r: Environment) {
    && (forall i :: LastCreate(es, id, i) ==> r.owner == Some(es[i].owner) && r.createdAtEpoch == Some(es[i].createdAtEpoch))
    && ((forall i :: 0 <= i < |es| ==> !Creates(es[i], id)) ==> r.owner == None && r.createdAtEpoch == None)
  }

  ghost predicate ParentIs(es: seq<ReegEvent>, id: string, r: Environment) {
    && (forall i :: LastFork(es, id, i) ==> r.parentId == Some(es[i].parentId))
    && ((forall i :: 0 <= i < |es| ==> !Forks(es[i], id)) ==> r.parentId == None)
  }

  ghost predicate CheckpointsAre(es: seq<ReegEvent>, id: string, cs: seq<CheckpointRecord>) {
    && (forall i, j :: 0 <= i < j < |cs| ==> cs[i].seqNo < cs[j].seqNo)
    && (forall c :: c in cs ==> exists i :: FirstCheck(es, id, c.seqNo, i) && es[i].checkpoint == c)
    && (forall i, seqNo :: FirstCheck(es, id, seqNo, i) ==> es[i].checkpoint in cs)
  }

  ghost predicate RecordIs(es: seq<ReegEvent>, id: string, r: Environment) {
    r.id == id && OwnerIs(es, id, r) && ParentIs(es, id, r) && CheckpointsAre(es, id, r.checkpoints)
  }

  ghost predicate ModelIs(es: seq<ReegEvent>, m: Projection) {
    && (forall id :: id in m <==> exists i :: 0 <= i < |es| && es[i].Subject() == id)
    && forall id :: id in m ==> RecordIs(es, id, m[id])
  }

  lemma OwnerSnoc(es: seq<ReegEvent>, e: ReegEvent, id: string, r: Environment, s: Environment)
    requires OwnerIs(es, id, r)
    requires if Creates(e, id) then s.owner == Some(e.owner) && s.createdAtEpoch == Some(e.createdAtEpoch)
             else s.owner == r.owner && s.createdAtEpoch == r.createdAtEpoch
    ensures OwnerIs(es + [e], id, s)
  {
    var fs := es + [e];
    assert fs[|es|] == e && forall i :: 0 <= i < |es| ==> fs[i] == es[i];
    forall i | LastCreate(fs, id, i) ensures s.owner == Some(fs[i].owner) && s.createdAtEpoch == Some(fs[i].createdAtEpoch) {
      if i < |es| {
        assert !Creates(fs[|es|], id);
        assert forall j :: i < j < |es| ==> !Creates(fs[j], id);
        assert LastCreate(es, id, i);
      }
    }
    if forall i :: 0 <= i < |fs| ==> !Creates(fs[i], id) {
      assert !Creates(fs[|es|], id);
      forall i | 0 <= i < |es| ensures !Creates(es[i], id) { assert !Creates(fs[i], id); }
    }
  }

  lemma ParentSnoc(es: seq<ReegEvent>, e: ReegEvent, id: string, r: Environment, s: Environment)
    requires ParentIs(es, id, r)
    requires s.parentId == if Forks(e, id) then Some(e.parentId) else r.parentId
    ensures ParentIs(es + [e], id, s)
  {
    var fs := es + [e];
    assert fs[|es|] == e && forall i :: 0 <= i < |es| ==> fs[i] == es[i];
    forall i | LastFork(fs, id, i) ensures s.parentId == Some(fs[i].parentId) {
      if i < |es| {
        assert !Forks(fs[|es|], id);
        assert forall j :: i < j < |es| ==> !Forks(fs[j], id);
        assert LastFork(es, id, i);
      }
    }
    if forall i :: 0 <= i < |fs| ==> !Forks(fs[i], id) {
      assert !Forks(fs[|es|], id);
      forall i | 0 <= i < |es| ensures !Forks(es[i], id) { assert !Forks(fs[i], id); }
    }
  }

  lemma FirstStays(es: seq<ReegEvent>, e: ReegEvent, id: string, seqNo: int, i: int)
    ensures 0 <= i < |es| ==> (FirstCheck(es + [e], id, seqNo, i) <==> FirstCheck(es, id, seqNo, i))
    ensures FirstCheck(es + [e], id, seqNo, |es|) <==>
            Checks(e, id, seqNo) && forall j :: 0 <= j < |es| ==> !Checks(es[j], id, seqNo)
  {
    hide Checks;
    var fs := es + [e];
    assert fs[|es|] == e && forall j :: 0 <= j < |es| ==> fs[j] == es[j];
  }

  lemma {:induction false} FirstExists(es: seq<ReegEvent>, id: string, seqNo: int, k: int) returns (i: int)
    requires 0 <= k < |es| && Checks(es[k], id, seqNo)
    ensures FirstCheck(es, id, seqNo, i)
  {
    i := 0;
    while !Checks(es[i], id, seqNo)
      invariant 0 <= i <= k && forall j :: 0 <= j < i ==> !Checks(es[j], id, seqNo)
      decreases k - i
    {
      i := i + 1;
    }
  }

  /** A number is known exactly when a checkpoint with it came. */
  lemma NumberKnown(es: seq<ReegEvent>, id: string, cs: seq<CheckpointRecord>, seqNo: int)
    requires CheckpointsAre(es, id, cs)
    ensures (exists i :: 0 <= i < |cs| && cs[i].seqNo == seqNo) <==> exists k :: 0 <= k < |es| && Checks(es[k], id, seqNo)
  {
    if i :| 0 <= i < |cs| && cs[i].seqNo == seqNo {
      assert cs[i] in cs;
      var k :| FirstCheck(es, id, cs[i].seqNo, k) && es[k].checkpoint == cs[i];
    }
    if k :| 0 <= k < |es| && Checks(es[k], id, seqNo) {
      var f := FirstExists(es, id, seqNo, k);
      assert es[f].checkpoint in cs;
    }
  }

  lemma NotNow(es: seq<ReegEvent>, e: ReegEvent, id: string, cs: seq<CheckpointRecord>)
    requires CheckpointsAre(es, id, cs)
    requires e.Checkpointed? && e.machineId == id ==> exists i :: 0 <= i < |cs| && cs[i].seqNo == e.checkpoint.seqNo
    ensures CheckpointsAre(es + [e], id, cs)
  {
    var fs := es + [e];
    if e.Checkpointed? && e.machineId == id {
      NumberKnown(es, id, cs, e.checkpoint.seqNo);
    }
    forall i, seqNo | FirstCheck(fs, id, seqNo, i) ensures fs[i].checkpoint in cs {
      FirstStays(es, e, id, seqNo, i);
      assert i < |es| ==> fs[i] == es[i];
    }
    forall c | c in cs ensures exists i :: FirstCheck(fs, id, c.seqNo, i) && fs[i].checkpoint == c {
      var i :| FirstCheck(es, id, c.seqNo, i) && es[i].checkpoint == c;
      FirstStays(es, e, id, c.seqNo, i);
      assert fs[i] == es[i];
    }
  }

  lemma NewNumber(es: seq<ReegEvent>, e: ReegEvent, id: string, cs: seq<CheckpointRecord>, ds: seq<CheckpointRecord>)
    requires CheckpointsAre(es, id, cs) && e.Checkpointed? && e.machineId == id
    requires !exists i :: 0 <= i < |cs| && cs[i].seqNo == e.checkpoint.seqNo
    requires Increasing(ds) && forall c :: c in ds <==> c in cs || c == e.checkpoint
    ensures CheckpointsAre(es + [e], id, ds)
  {
    var fs, n := es + [e], e.checkpoint.seqNo;
    NumberKnown(es, id, cs, n);
    FirstStays(es, e, id, n, 0);
    assert FirstCheck(fs, id, n, |es|) && fs[|es|] == e;
    forall i, seqNo | FirstCheck(fs, id, seqNo, i) ensures fs[i].checkpoint in ds {
      FirstStays(es, e, id, seqNo, i);
      assert i < |es| ==> fs[i] == es[i];
    }
    forall c | c in ds ensures exists i :: FirstCheck(fs, id, c.seqNo, i) && fs[i].checkpoint == c {
      if c in cs {
        var i :| FirstCheck(es, id, c.seqNo, i) && es[i].checkpoint == c;
        FirstStays(es, e, id, c.seqNo, i);
        assert fs[i] == es[i];
      }
    }
  }

  lemma CheckpointsSnoc(es: seq<ReegEvent>, e: ReegEvent, id: string, cs: seq<CheckpointRecord>)
    requires CheckpointsAre(es, id, cs)
    ensures CheckpointsAre(es + [e], id, if e.Checkpointed? && e.machineId == id then WithCheckpoint(cs, e.checkpoint) else cs)
  {
    assert Increasing(cs);
    if e.Checkpointed? && e.machineId == id && !exists i :: 0 <= i < |cs| && cs[i].seqNo == e.checkpoint.seqNo {
      CheckpointPlaced(cs, e.checkpoint);
      NewNumber(es, e, id, cs, WithCheckpoint(cs, e.checkpoint));
    } else {
      hide CheckpointsAre;
      NotNow(es, e, id, cs);
    }
  }

  lemma NothingKnown(es: seq<ReegEvent>, id: string)
    requires forall i :: 0 <= i < |es| ==> es[i].Subject() != id
    ensures RecordIs(es, id, Environment(id, None, None, None, []))
  {
  }

  lemma RecordSnoc(es: seq<ReegEvent>, e: ReegEvent, id: string, m: Projection)
    requires if id in m then RecordIs(es, id, m[id]) else forall i :: 0 <= i < |es| ==> es[i].Subject() != id
    requires id in Apply(m, e)
    ensures RecordIs(es + [e], id, Apply(m, e)[id])
  {
    if id !in m {
      NothingKnown(es, id);
    }
    var r := if id in m then m[id] else Environment(id, None, None, None, []);
    var s := Apply(m, e)[id];
    hide OwnerIs, ParentIs, CheckpointsAre, WithCheckpoint;
    OwnerSnoc(es, e, id, r, s);
    ParentSnoc(es, e, id, r, s);
    CheckpointsSnoc(es, e, id, r.checkpoints);
  }

  lemma ApplyKeys(m: Projection, e: ReegEvent)
    ensures Apply(m, e).Keys == m.Keys + {e.Subject()}
  {
  }

  lemma ModelSnoc(es: seq<ReegEvent>, e: ReegEvent, m: Projection)
    requires ModelIs(es, m)
    ensures ModelIs(es + [e], Apply(m, e))
  {
    hide Apply, RecordIs;
    ApplyKeys(m, e);
    var fs := es + [e];
    assert fs[|es|] == e;
    forall id ensures id in Apply(m, e) <==> exists i :: 0 <= i < |fs| && fs[i].Subject() == id {
      if id in m {
        var i :| 0 <= i < |es| && es[i].Subject() == id;
        assert fs[i].Subject() == id;
      }
      if i :| 0 <= i < |fs| && fs[i].Subject() == id {
        assert i < |es| ==> fs[i] == es[i];
      }
    }
    forall id | id in Apply(m, e) ensures RecordIs(fs, id, Apply(m, e)[id]) {
      RecordSnoc(es, e, id, m);
    }
  }

  /** The model of any events, contradicting ones included: what each record holds, by the order they came in. */
  lemma {:induction false} BuildIs(es: seq<ReegEvent>)
    ensures ModelIs(es, Build(es))
  {
    if es != [] {
      var n := |es| - 1;
      BuildIs(es[..n]);
      ModelSnoc(es[..n], es[n], Build(es[..n]));
      assert es == es[..n] + [es[n]];
      hide ModelIs, Apply;
    }
  }

  // ----- the listing -----

  /** The order of two ids by UTF-16 code units: at the first place they differ the smaller unit, or the end. */
  ghost predicate IdNotAfter(a: string, b: string) {
    a == b || exists k :: UnitsPart(Utf16(a), Utf16(b), k)
  }

  predicate UnitsPart(u: seq<unit>, v: seq<unit>, k: int) {
    0 <= k <= |u| && k < |v| && u[..k] == v[..k] && (k == |u| || u[k] < v[k])
  }

  /** An earlier epoch comes first; an unknown one counts as 2^53 - 1, so it comes after every epoch there can
    be on chain; where epochs are level the ids decide. */
  ghost predicate ShownBefore(a: Environment, b: Environment) {
    match (a.createdAtEpoch, b.createdAtEpoch)
    case (Some(x), Some(y)) => x < y || (x == y && IdNotAfter(a.id, b.id))
    case (Some(x), None) => x < 9007199254740991 || (x == 9007199254740991 && IdNotAfter(a.id, b.id))
    case (None, Some(y)) => 9007199254740991 < y || (y == 9007199254740991 && IdNotAfter(a.id, b.id))
    case (None, None) => IdNotAfter(a.id, b.id)
  }

  lemma IdOrder(a: string, b: string)
    requires LexLe(Utf16(a), Utf16(b))
    ensures IdNotAfter(a, b)
  {
    var u, v := Utf16(a), Utf16(b);
    var k := 0;
    while k < |u| && k < |v| && u[k] == v[k]
      invariant k <= |u| && k <= |v| && u[..k] == v[..k]
    {
      k := k + 1;
    }
    LexFirstDifference(u, v, k);
    if k < |v| {
      assert UnitsPart(u, v, k);
    } else {
      assert u == u[..k] && v == v[..k];
      ScalarsOfUtf16(a);
      ScalarsOfUtf16(b);
    }
  }

  /** The listing holds every record once, in that order. */
  lemma ListingOrder(m: Projection, p: seq<string>)
    requires WellKept(m) && NoDuplicates(p) && Elements(p) == m.Keys
    ensures forall id :: id in p ==> id in m
    ensures var list := Environments(m, p);
            && NoDuplicates(list) && Elements(list) == m.Values
            && forall i, j :: 0 <= i < j < |list| ==> ShownBefore(list[i], list[j])
  {
    ListingSorted(m, p);
    var list := Environments(m, p);
    hide Environments, NoDuplicates, Elements, LexLe, Utf16, WellKept;
    forall i, j | 0 <= i < j < |list| ensures ShownBefore(list[i], list[j]) {
      assert DisplayedBefore(list[i], list[j]);
      if LexLe(Utf16(list[i].id), Utf16(list[j].id)) {
        IdOrder(list[i].id, list[j].id);
      }
    }
  }

  // ----- events of the chain -----

  /** What the indexer makes of a chain event. */
  ghost predicate Shows(e: Event, x: ReegEvent) {
    match x
    case Created(id, owner, epoch) =>
      e.MachineCreated? && id == IdText(e.machineId) && owner == IdText(e.owner) && epoch == e.createdAtEpoch
    case Forked(child, parent) => e.MachineForked? && child == IdText(e.childId) && parent == IdText(e.parentId)
    case Checkpointed(id, c) =>
      && e.CheckpointRegistered? && id == IdText(e.machineId)
      && c.seqNo == e.fields.seqNo && c.blobId == e.fields.blobId && c.timestampMs == e.fields.timestampMs
  }

  lemma IndexedIs(log: seq<Event>, x: ReegEvent)
    ensures x in Indexed(log) <==> exists e :: e in log && Shows(e, x)
  {
    IndexedMembers(log, x);
    hide Indexed, IdText;
    forall e | e in log ensures x in IndexedEvent(e) <==> Shows(e, x) {
    }
  }
}
