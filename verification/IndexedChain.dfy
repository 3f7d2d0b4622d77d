/** What the indexer shows of a chain: `events.ts` feeding `read-model.ts`. */
module IndexedChain {
  import opened Bytes
  import opened Provenance
  import opened Linkage
  import opened Verifier
  import opened Chain
  import opened ChainVerifies
  import opened ReadModels

  /** The indexer's events of a log: creations, forks and checkpoints. */
  function Indexed(log: seq<Event>): seq<ReegEvent> {
    if log == [] then [] else Indexed(log[..|log| - 1]) + IndexedEvent(log[|log| - 1])
  }

  function RecordOfEntry(e: ProvenanceEntry): CheckpointRecord {
    CheckpointRecord(e.seqNo, e.blobId, e.timestampMs)
  }

  function IndexedEvent(e: Event): seq<ReegEvent> {
    match e
    case MachineCreated(id, owner, _, epoch) => [Created(IdText(id), IdText(owner), epoch)]
    case MachineForked(child, parent, _, _, _, _) => [ReegEvent.Forked(IdText(child), IdText(parent))]
    case CheckpointRegistered(id, f) => [Checkpointed(IdText(id), RecordOfEntry(EntryOf(f, EVENT_CHECKPOINT)))]
    case _ => []
  }

  lemma {:induction false} IndexedMembers(log: seq<Event>, x: ReegEvent)
    ensures x in Indexed(log) <==> exists e :: e in log && x in IndexedEvent(e)
  {
    hide IndexedEvent;
    if log != [] {
      var front, last := log[..|log| - 1], log[|log| - 1];
      IndexedMembers(front, x);
      assert log == front + [last];
    }
  }

  function RecordsOf(es: seq<ProvenanceEntry>): seq<CheckpointRecord> {
    seq(|es|, i requires 0 <= i < |es| => RecordOfEntry(es[i]))
  }

  /** How a machine should be shown. A forked machine has no creation event, so its owner and epoch stay
    unknown. */
  function ShownAs(log: seq<Event>, id: Id, m: MachineObject): Environment {
    Environment(
      IdText(id),
      if m.parent.None? then Some(IdText(m.owner)) else None,
      if m.parent.None? then Some(m.createdAtEpoch) else None,
      View(id, m).parent,
      RecordsOf(Checkpoints(History(log, id))))
  }

  // ----- births -----

  function Birth(id: Id, m: MachineObject): Event {
    MachineCreated(id, m.owner, m.policyId, m.createdAtEpoch)
  }

  /** Each machine is born once, by the event its object agrees with. */
  ghost predicate Births(w: World) {
    && (forall e :: e in w.log && e.MachineCreated? ==>
          e.machineId in w.machines && w.machines[e.machineId].parent.None? && e == Birth(e.machineId, w.machines[e.machineId]))
    && (forall e :: e in w.log && e.MachineForked? ==>
          e.childId in w.machines && w.machines[e.childId].parent == Some(e.parentId))
    && (forall id :: id in w.machines ==>
          match w.machines[id].parent
          case None => Birth(id, w.machines[id]) in w.log
          case Some(p) => exists e :: e in w.log && e.MachineForked? && e.childId == id && e.parentId == p)
  }

  /** A call touches one machine, and of one that exists already never the facts of its birth. */
  ghost predicate TouchesOne(w: World, next: World, e: Event) {
    && next.log == w.log + [e]
    && next.machines.Keys == w.machines.Keys + {e.Subject()}
    && (forall id :: id in w.machines ==>
          && next.machines[id].parent == w.machines[id].parent
          && Birth(id, next.machines[id]) == Birth(id, w.machines[id]))
    && (e.MachineCreated? || e.MachineForked? <==> e.Subject() !in w.machines)
    && (e.MachineCreated? ==> next.machines[e.machineId].parent.None? && e == Birth(e.machineId, next.machines[e.machineId]))
    && (e.MachineForked? ==> next.machines[e.childId].parent == Some(e.parentId))
  }

  lemma PutTouches(w: World, next: World, m: MachineObject, e: Event)
    requires next.machines == w.machines[e.Subject() := m] && next.log == w.log + [e]
    requires e.Linked() ==>
               && e.Subject() in w.machines
               && Birth(e.Subject(), m) == Birth(e.Subject(), w.machines[e.Subject()])
               && m.parent == w.machines[e.Subject()].parent
    requires !e.Linked() ==> e.Subject() !in w.machines
    requires e.MachineCreated? ==> m.parent.None? && e == Birth(e.machineId, m)
    requires e.MachineForked? ==> m.parent == Some(e.parentId)
    ensures |next.log| == |w.log| + 1 && TouchesOne(w, next, next.log[|w.log|])
  {
  }

  lemma StepSubject(h: Hash, w: World, c: Call)
    ensures var step := Step(h, w, c);
            step.Some? ==> |step.value.log| == |w.log| + 1 && TouchesOne(w, step.value, step.value.log[|w.log|])
  {
    hide NextFields, HeadOnly, AccessPayload, GenesisHead, ForkChildHead, TouchesOne;
    var step := Step(h, w, c);
    if step.Some? {
      var next := step.value;
      var e := next.log[|w.log|];
      PutTouches(w, next, next.machines[e.Subject()], e);
    }
  }

  lemma StepBirths(h: Hash, w: World, c: Call)
    requires Births(w)
    ensures Step(h, w, c).Some? ==> Births(Step(h, w, c).value)
  {
    hide NextFields, HeadOnly, AccessPayload, GenesisHead, ForkChildHead, Births;
    StepSubject(h, w, c);
    var step := Step(h, w, c);
    if step.Some? {
      var next := step.value;
      KeepBirths(w, next, next.log[|w.log|]);
    }
  }

  lemma KeepBirths(w: World, next: World, e: Event)
    requires Births(w) && TouchesOne(w, next, e)
    ensures Births(next)
  {
    assert forall x :: x in next.log <==> x in w.log || x == e;
    forall id | id in next.machines
      ensures match next.machines[id].parent
              case None => Birth(id, next.machines[id]) in next.log
              case Some(p) => exists x :: x in next.log && x.MachineForked? && x.childId == id && x.parentId == p
    {
      if id !in w.machines {
        assert id == e.Subject() && e in next.log;
      }
    }
  }

  lemma {:induction false} RunBirths(h: Hash, calls: seq<Call>)
    ensures Births(Run(h, calls)) && forall e :: e in Run(h, calls).log ==> e.Subject() in Run(h, calls).machines
  {
    RunConsistent(h, calls);
    if calls != [] {
      RunBirths(h, calls[..|calls| - 1]);
      hide Step, Births;
      StepBirths(h, Run(h, calls[..|calls| - 1]), calls[|calls| - 1]);
    }
  }

  // ----- the index of a run -----

  lemma RecordsSnoc(es: seq<ProvenanceEntry>, e: ProvenanceEntry)
    ensures RecordsOf(es + [e]) == RecordsOf(es) + [RecordOfEntry(e)]
  {
  }

  lemma HistorySnoc(log: seq<Event>, e: Event, id: Id)
    ensures var cs := Checkpoints(History(log, id));
            Checkpoints(History(log + [e], id)) ==
            if e.CheckpointRegistered? && e.machineId == id then cs + [EntryOf(e.fields, EVENT_CHECKPOINT)] else cs
  {
    hide Checkpoints, Links, ForkOf, InRange;
    Appended(log, e, id);
    if e.Linked() && e.machineId == id {
      assert History(log + [e], id) == History(log, id) + [LinkOf(e).entry];
      CheckpointsSnoc(History(log, id), LinkOf(e).entry);
    } else {
      assert Links(log + [e], id) == Links(log, id);
    }
  }

  lemma {:induction false} CheckpointsIndexed(log: seq<Event>, id: Id, c: CheckpointRecord)
    ensures c in RecordsOf(Checkpoints(History(log, id))) <==> Checkpointed(IdText(id), c) in Indexed(log)
  {
    hide IdText, Checkpoints, History, RecordsOf;
    if log == [] {
      NoCheckpoints(id);
    } else {
      var front, e := log[..|log| - 1], log[|log| - 1];
      CheckpointsIndexed(front, id, c);
      assert log == front + [e];
      HistorySnoc(front, e, id);
      if e.CheckpointRegistered? {
        IdTextInjective(e.machineId, id);
        RecordsSnoc(Checkpoints(History(front, id)), EntryOf(e.fields, EVENT_CHECKPOINT));
      }
    }
  }

  lemma NoCheckpoints(id: Id)
    ensures RecordsOf(Checkpoints(History([], id))) == []
  {
  }

  lemma SameNumberSameRecord(es: seq<ProvenanceEntry>, a: CheckpointRecord, b: CheckpointRecord)
    requires Contiguous(es)
    requires a in RecordsOf(es) && b in RecordsOf(es) && a.seqNo == b.seqNo
    ensures a == b
  {
    var i :| 0 <= i < |es| && RecordsOf(es)[i] == a;
    var j :| 0 <= j < |es| && RecordsOf(es)[j] == b;
    assert es[i].seqNo == i && es[j].seqNo == j;
  }

  lemma IndexedKind(e: Event, x: ReegEvent)
    requires x in IndexedEvent(e)
    ensures x.Subject() == IdText(e.Subject()) && IndexedEvent(e) == [x]
    ensures (x.Created? <==> e.MachineCreated?) && (x.Forked? <==> e.MachineForked?)
  {
    hide IdText;
  }

  lemma IndexedFrom(log: seq<Event>, x: ReegEvent) returns (e: Event)
    requires x in Indexed(log)
    ensures e in log && x.Subject() == IdText(e.Subject()) && IndexedEvent(e) == [x]
    ensures (x.Created? <==> e.MachineCreated?) && (x.Forked? <==> e.MachineForked?)
  {
    hide IdText, Indexed, IndexedEvent;
    IndexedMembers(log, x);
    e :| e in log && x in IndexedEvent(e);
    IndexedKind(e, x);
  }

  /** The events of a run never contradict each other. */
  lemma IndexedAgree(h: Hash, w: World, x: ReegEvent, y: ReegEvent)
    requires Consistent(h, w) && Births(w)
    requires x in Indexed(w.log) && y in Indexed(w.log)
    ensures Agree(x, y)
  {
    hide Indexed, IndexedEvent, Recorded, Descends, IdText;
    var e := IndexedFrom(w.log, x);
    var f := IndexedFrom(w.log, y);
    IdTextInjective(e.Subject(), f.Subject());
    if x.Forked? && y.Forked? && x.childId == y.childId {
      SameForked(e, f);
    }
    if x.Checkpointed? && y.Checkpointed? && x.machineId == y.machineId && x.checkpoint.seqNo == y.checkpoint.seqNo {
      CheckpointsAgree(h, w, e.Subject(), x, y);
    }
  }

  lemma SameForked(e: Event, f: Event)
    requires e.MachineForked? && f.MachineForked? && e.childId == f.childId && e.parentId == f.parentId
    ensures IndexedEvent(e) == IndexedEvent(f)
  {
  }

  lemma CheckpointsAgree(h: Hash, w: World, id: Id, x: ReegEvent, y: ReegEvent)
    requires Consistent(h, w) && id in w.machines && x in Indexed(w.log) && y in Indexed(w.log)
    requires x.Checkpointed? && y.Checkpointed? && x.machineId == IdText(id) && y.machineId == IdText(id)
    requires x.checkpoint.seqNo == y.checkpoint.seqNo
    ensures x == y
  {
    hide Indexed, Descends, IdText, LinksOf, Contiguous, Checkpoints;
    assert Recorded(h, w.log, id, w.machines[id]);
    CheckpointsIndexed(w.log, id, x.checkpoint);
    CheckpointsIndexed(w.log, id, y.checkpoint);
    SameNumberSameRecord(Checkpoints(History(w.log, id)), x.checkpoint, y.checkpoint);
  }

  lemma BirthIndexed(w: World, id: Id)
    requires Births(w) && id in w.machines
    ensures var m := w.machines[id];
            match m.parent
            case None => Created(IdText(id), IdText(m.owner), m.createdAtEpoch) in Indexed(w.log)
            case Some(p) => ReegEvent.Forked(IdText(id), IdText(p)) in Indexed(w.log)
  {
    hide IdText;
    var m := w.machines[id];
    match m.parent
    case None =>
      assert Birth(id, m) in w.log;
      IndexedMembers(w.log, Created(IdText(id), IdText(m.owner), m.createdAtEpoch));
    case Some(p) =>
      var e :| e in w.log && e.MachineForked? && e.childId == id && e.parentId == p;
      IndexedMembers(w.log, ReegEvent.Forked(IdText(id), IdText(p)));
  }

  lemma OnlyBirths(w: World, id: Id, x: ReegEvent)
    requires Births(w) && id in w.machines && x in Indexed(w.log) && x.Subject() == IdText(id)
    ensures x.Created? ==> w.machines[id].parent.None?
    ensures x.Forked? ==> w.machines[id].parent.Some?
  {
    hide IdText, IndexedEvent;
    var e := IndexedFrom(w.log, x);
    IdTextInjective(e.Subject(), id);
  }

  lemma ShownIsRecord(h: Hash, w: World, id: Id)
    requires Consistent(h, w) && Births(w) && id in w.machines
    ensures RecordOf(Indexed(w.log), IdText(id), ShownAs(w.log, id, w.machines[id]))
  {
    hide IdText, Checkpoints, Indexed, Descends, LinksOf, Births, History;
    BirthIndexed(w, id);
    forall x | x in Indexed(w.log) && x.Subject() == IdText(id)
      ensures (x.Created? ==> w.machines[id].parent.None?) && (x.Forked? ==> w.machines[id].parent.Some?)
    {
      OnlyBirths(w, id, x);
    }
    forall c ensures c in RecordsOf(Checkpoints(History(w.log, id))) <==> Checkpointed(IdText(id), c) in Indexed(w.log) {
      CheckpointsIndexed(w.log, id, c);
    }
    assert Recorded(h, w.log, id, w.machines[id]);
  }

  /** Whatever order the indexer receives a run's events in, and however often, each machine is shown
    with its true lineage and exactly its chain's checkpoints, in chain order, and nothing else is
    shown. */
  lemma IndexShowsTheChain(h: Hash, calls: seq<Call>, es: seq<ReegEvent>, id: Id)
    requires SameEvents(es, Indexed(Run(h, calls).log))
    ensures AllAgree(es)
    ensures IdText(id) in Build(es) <==> id in Run(h, calls).machines
    ensures id in Run(h, calls).machines ==>
              Build(es)[IdText(id)] == ShownAs(Run(h, calls).log, id, Run(h, calls).machines[id])
  {
    var w := Run(h, calls);
    hide Run, Build, IdText, Indexed, RecordOf, Agree, Births, Recorded, Descends;
    RunConsistent(h, calls);
    RunBirths(h, calls);
    forall x, y | x in es && y in es ensures Agree(x, y) {
      IndexedAgree(h, w, x, y);
    }
    BuildDescribes(es);
    if IdText(id) in Build(es) {
      var x :| x in es && x.Subject() == IdText(id);
      SubjectExists(h, w, x, id);
    }
    if id in w.machines {
      BirthIndexed(w, id);
      ShownIsRecord(h, w, id);
      SameRecord(es, Indexed(w.log), IdText(id), Build(es)[IdText(id)], ShownAs(w.log, id, w.machines[id]));
    }
  }

  lemma SubjectExists(h: Hash, w: World, x: ReegEvent, id: Id)
    requires Consistent(h, w) && x in Indexed(w.log) && x.Subject() == IdText(id)
    ensures id in w.machines
  {
    hide IdText, Recorded, Descends, IndexedEvent;
    var e := IndexedFrom(w.log, x);
    IdTextInjective(e.Subject(), id);
  }
}
