/** The step machine behind the events the verifier reads: `machine.move` and `access.move`. */
module Chain {
  import opened Bytes
  import opened Provenance
  import opened Linkage
  import opened Verifier

  type Id = b: Bytes | |b| == 32 witness seq(32, _ => 0)
  type U64 = n: int | 0 <= n < U64_END witness 0
  type U256 = n: int | 0 <= n < U256_END witness 0

  const U32_END: int := 0x1_0000_0000
  const FULL_RIGHTS: byte := 3

  datatype MachineObject = MachineObject(
    owner: Id, currentBlobId: U256, manifestHash: Bytes, provenanceHead: Digest,
    checkpointCount: U64, parent: Option<Id>, policyId: Id, createdAtEpoch: U64)

  datatype Grant = Grant(rights: byte, expiryMs: U64)

  datatype AccessPolicy = AccessPolicy(machineId: Id, owner: Id, grants: map<Id, Grant>)

  /** The part of an event that a chain entry is rebuilt from. */
  datatype ChainFields = ChainFields(
    seqNo: U64, blobId: U256, manifestHash: Bytes, payloadHash: Bytes,
    prevHead: Digest, newHead: Digest, timestampMs: U64)

  datatype Event =
    | MachineCreated(machineId: Id, owner: Id, policyId: Id, createdAtEpoch: U64)
    | CheckpointRegistered(machineId: Id, fields: ChainFields)
    | AccessGranted(machineId: Id, policyId: Id, grantee: Id, rights: byte, expiryMs: U64, fields: ChainFields)
    | AccessRevoked(machineId: Id, policyId: Id, grantee: Id, fields: ChainFields)
    | MachineRetired(machineId: Id, owner: Id, fields: ChainFields)
    | MachineForked(childId: Id, parentId: Id, owner: Id, blobId: U256, parentHead: Digest, childHead: Digest)
  {
    /** The machine whose history an event belongs to. */
    function Subject(): Id {
      if MachineForked? then childId else machineId
    }

    predicate Linked() {
      CheckpointRegistered? || AccessGranted? || AccessRevoked? || MachineRetired?
    }

    function EventType(): byte
      requires Linked()
    {
      if CheckpointRegistered? then EVENT_CHECKPOINT
      else if AccessGranted? then EVENT_GRANT
      else if AccessRevoked? then EVENT_REVOKE
      else EVENT_RETIRE
    }
  }

  datatype World = World(machines: map<Id, MachineObject>, policies: map<Id, AccessPolicy>, log: seq<Event>)

  const EMPTY: World := World(map[], map[], [])

  datatype Action =
    | Create(policy: Id)
    | CreateShared
    | Checkpoint(machine: Id, blobId: U256, manifestHash: Bytes, payloadHash: Bytes)
    | Fork(machine: Id, policy: Id)
    | GrantAccess(machine: Id, policy: Id, grantee: Id, rights: byte, expiryMs: U64)
    | RevokeAccess(machine: Id, policy: Id, grantee: Id)
    | Retire(machine: Id)

  /** One call, with what the chain supplies: sender, epoch, clock and new object ids. */
  datatype Call = Call(action: Action, sender: Id, epoch: U64, timestampMs: U64, newId: Id, newPolicyId: Id)

  // ----- the package's functions -----

  function EntryOf(fields: ChainFields, eventType: byte): (e: ProvenanceEntry)
    ensures InRange(e)
  {
    ProvenanceEntry(fields.seqNo, eventType, fields.blobId, fields.manifestHash, fields.payloadHash, fields.timestampMs)
  }

  /** `compute_entry_hash` applied to the machine's present head. */
  function NextFields(h: Hash, m: MachineObject, eventType: byte, blobId: U256, manifestHash: Bytes,
                   payloadHash: Bytes, now: U64): ChainFields
  {
    var e := ProvenanceEntry(m.checkpointCount, eventType, blobId, manifestHash, payloadHash, now);
    ChainFields(m.checkpointCount, blobId, manifestHash, payloadHash,
                m.provenanceHead, EntryHash(h, m.provenanceHead, e), now)
  }

  /** `append_head_entry`: blob id 0, an empty manifest hash, and the head is all that moves. */
  function HeadOnly(h: Hash, m: MachineObject, eventType: byte, payloadHash: Bytes, now: U64): ChainFields {
    NextFields(h, m, eventType, 0, [], payloadHash, now)
  }

  function AccessPayload(h: Hash, grantee: Id, rights: byte, expiryMs: U64): Digest {
    h(grantee + [rights] + LittleEndian(expiryMs, 8))
  }

  predicate Unused(w: World, id: Id) {
    id !in w.machines && id !in w.policies
  }

  predicate OwnerAndBinding(w: World, c: Call, machine: Id, policy: Id) {
    && machine in w.machines && policy in w.policies
    && w.policies[policy].owner == c.sender
    && w.policies[policy].machineId == machine
    && w.machines[machine].policyId == policy
    && w.machines[machine].owner == c.sender
  }

  function NewMachine(h: Hash, c: Call, policy: Id): MachineObject
    requires c.epoch < U32_END
  {
    MachineObject(c.sender, 0, [], GenesisHead(h, c.newId), 0, None, policy, c.epoch)
  }

  function Put(w: World, id: Id, m: MachineObject, e: Event): World {
    w.(machines := w.machines[id := m], log := w.log + [e])
  }

  /** One call's effect; nothing when it aborts. */
  function Step(h: Hash, w: World, c: Call): Option<World> {
    match c.action
    case Create(policy) =>
      if !Unused(w, c.newId) || c.epoch >= U32_END then None
      else Some(Put(w, c.newId, NewMachine(h, c, policy), MachineCreated(c.newId, c.sender, policy, c.epoch)))
    case CreateShared =>
      if !Unused(w, c.newId) || !Unused(w, c.newPolicyId) || c.newId == c.newPolicyId || c.epoch >= U32_END then None
      else
        var policy := AccessPolicy(c.newId, c.sender, map[c.sender := Grant(FULL_RIGHTS, 0)]);
        Some(Put(w, c.newId, NewMachine(h, c, c.newPolicyId), MachineCreated(c.newId, c.sender, c.newPolicyId, c.epoch))
             .(policies := w.policies[c.newPolicyId := policy]))
    case Checkpoint(id, blobId, manifestHash, payloadHash) =>
      if id !in w.machines || w.machines[id].owner != c.sender || w.machines[id].checkpointCount + 1 >= U64_END then None
      else
        var m := w.machines[id];
        var f := NextFields(h, m, EVENT_CHECKPOINT, blobId, manifestHash, payloadHash, c.timestampMs);
        Some(Put(w, id, m.(currentBlobId := blobId, provenanceHead := f.newHead, manifestHash := manifestHash,
                           checkpointCount := m.checkpointCount + 1), CheckpointRegistered(id, f)))
    case Fork(id, policy) =>
      if id !in w.machines || w.machines[id].owner != c.sender || !Unused(w, c.newId) || c.epoch >= U32_END then None
      else
        var m := w.machines[id];
        var childHead := ForkChildHead(h, m.provenanceHead, c.newId);
        var child := MachineObject(c.sender, m.currentBlobId, m.manifestHash, childHead, 0, Some(id), policy, c.epoch);
        Some(Put(w, c.newId, child, MachineForked(c.newId, id, c.sender, m.currentBlobId, m.provenanceHead, childHead)))
    case GrantAccess(id, policy, grantee, rights, expiryMs) =>
      if !OwnerAndBinding(w, c, id, policy) then None
      else
        var m := w.machines[id];
        var p := w.policies[policy];
        var f := HeadOnly(h, m, EVENT_GRANT, AccessPayload(h, grantee, rights, expiryMs), c.timestampMs);
        Some(Put(w, id, m.(provenanceHead := f.newHead), AccessGranted(id, policy, grantee, rights, expiryMs, f))
             .(policies := w.policies[policy := p.(grants := p.grants[grantee := Grant(rights, expiryMs)])]))
    case RevokeAccess(id, policy, grantee) =>
      if !OwnerAndBinding(w, c, id, policy) || grantee == w.policies[policy].owner then None
      else
        var m := w.machines[id];
        var p := w.policies[policy];
        var f := HeadOnly(h, m, EVENT_REVOKE, AccessPayload(h, grantee, 0, 0), c.timestampMs);
        Some(Put(w, id, m.(provenanceHead := f.newHead), AccessRevoked(id, policy, grantee, f))
             .(policies := w.policies[policy := p.(grants := p.grants - {grantee})]))
    case Retire(id) =>
      if id !in w.machines || w.machines[id].owner != c.sender then None
      else
        var m := w.machines[id];
        var f := HeadOnly(h, m, EVENT_RETIRE, h(m.owner), c.timestampMs);
        Some(Put(w, id, m.(provenanceHead := f.newHead), MachineRetired(id, m.owner, f)))
  }

  /** A whole run; a call that aborts leaves no trace. */
  function Run(h: Hash, calls: seq<Call>): World {
    if calls == [] then EMPTY
    else
      var w := Run(h, calls[..|calls| - 1]);
      match Step(h, w, calls[|calls| - 1])
      case None => w
      case Some(next) => next
  }

  // ----- what the log says about one machine -----

  function LinkOf(e: Event): LinkedEntry
    requires e.Linked()
  {
    LinkedEntry(EntryOf(e.fields, e.EventType()), e.fields.prevHead, e.fields.newHead)
  }

  function Links(log: seq<Event>, id: Id): seq<LinkedEntry> {
    if log == [] then []
    else
      var e := log[|log| - 1];
      var front := Links(log[..|log| - 1], id);
      if e.Linked() && e.machineId == id then front + [LinkOf(e)] else front
  }

  function History(log: seq<Event>, id: Id): seq<ProvenanceEntry> {
    Entries(Links(log, id))
  }

  lemma {:induction false} HistoryInRange(log: seq<Event>, id: Id)
    ensures AllInRange(History(log, id))
  {
    if log != [] {
      HistoryInRange(log[..|log| - 1], id);
      var e := log[|log| - 1];
      var front := History(log[..|log| - 1], id);
      if e.Linked() && e.machineId == id {
        assert History(log, id) == front + [LinkOf(e).entry];
      }
    }
  }

  datatype Lineage = Lineage(parentId: Id, parentHead: Digest, childHead: Digest)

  /** The first fork event that names this child. */
  function ForkOf(log: seq<Event>, id: Id): Option<Lineage> {
    if log == [] then None
    else
      var e := log[|log| - 1];
      var front := ForkOf(log[..|log| - 1], id);
      if front.None? && e.MachineForked? && e.childId == id then Some(Lineage(e.parentId, e.parentHead, e.childHead))
      else front
  }

  function OriginIn(log: seq<Event>, id: Id): (o: Origin)
    ensures WellSized(o)
  {
    match ForkOf(log, id)
    case None => Fresh(id)
    case Some(f) => Forked(f.parentHead, id)
  }

  function GenesisIn(h: Hash, log: seq<Event>, id: Id): Digest {
    h(OriginPreimage(OriginIn(log, id)))
  }

  /** A head the machine's chain has passed through. */
  ghost predicate PastHead(h: Hash, log: seq<Event>, id: Id, head: Bytes) {
    HistoryInRange(log, id);
    head in Heads(h, GenesisIn(h, log, id), History(log, id))
  }

  // ----- the invariant -----

  function IdText(id: Id): string {
    "0x" + ToHex(id)
  }

  /** A machine object as `readMachine` returns it. */
  function View(id: Id, m: MachineObject): Machine {
    Machine(IdText(id), IdText(m.owner), m.currentBlobId, m.manifestHash, m.provenanceHead, m.checkpointCount,
            match m.parent case None => None case Some(p) => Some(IdText(p)), IdText(m.policyId), m.createdAtEpoch)
  }

  /** The object's head, count and anchors are those of the history the log holds, and its events are
    linked head to head. */
  ghost predicate Recorded(h: Hash, log: seq<Event>, id: Id, m: MachineObject) {
    HistoryInRange(log, id);
    && Links(log, id) == LinksOf(h, OriginIn(log, id), History(log, id))
    && StateOf(h, View(id, m), OriginIn(log, id), History(log, id))
  }

  /** A forked machine's event names a machine that exists and a head that machine has really had. */
  ghost predicate Descends(h: Hash, w: World, id: Id, m: MachineObject) {
    match ForkOf(w.log, id)
    case None => m.parent == None
    case Some(f) =>
      && m.parent == Some(f.parentId) && f.parentId in w.machines
      && f.childHead == ForkChildHead(h, f.parentHead, id)
      && PastHead(h, w.log, f.parentId, f.parentHead)
  }

  ghost predicate Consistent(h: Hash, w: World) {
    && (forall id {:trigger Recorded(h, w.log, id, w.machines[id])} {:trigger Descends(h, w, id, w.machines[id])} ::
          id in w.machines ==> Recorded(h, w.log, id, w.machines[id]) && Descends(h, w, id, w.machines[id]))
    && (forall e :: e in w.log ==> e.Subject() in w.machines)
  }

  // ----- one more event -----

  lemma Appended(log: seq<Event>, e: Event, id: Id)
    ensures Links(log + [e], id) == Links(log, id) + if e.Linked() && e.machineId == id then [LinkOf(e)] else []
    ensures ForkOf(log, id).Some? || !(e.MachineForked? && e.childId == id) ==> ForkOf(log + [e], id) == ForkOf(log, id)
    ensures ForkOf(log, id).None? && e.MachineForked? && e.childId == id ==>
              ForkOf(log + [e], id) == Some(Lineage(e.parentId, e.parentHead, e.childHead))
  {
    assert (log + [e])[..|log|] == log;
  }

  lemma {:induction false} Silent(log: seq<Event>, id: Id)
    requires forall e :: e in log ==> e.Subject() != id
    ensures Links(log, id) == [] && ForkOf(log, id) == None
  {
    if log != [] {
      Silent(log[..|log| - 1], id);
      assert log[|log| - 1] in log;
    }
  }

  /** Past heads stay past heads, whatever comes next: this is why a fork that is genuine once is
    genuine for ever. */
  lemma HeadRemains(h: Hash, log: seq<Event>, e: Event, id: Id, head: Bytes)
    requires PastHead(h, log, id, head)
    requires e.MachineForked? ==> e.childId != id
    ensures PastHead(h, log + [e], id, head)
  {
    hide Replay, InRange, LinkOf, EntryHash;
    Appended(log, e, id);
    HistoryInRange(log, id);
    HistoryInRange(log + [e], id);
    var es, fs := History(log, id), History(log + [e], id);
    var genesis := GenesisIn(h, log, id);
    assert GenesisIn(h, log + [e], id) == genesis;
    assert |es| <= |fs| && fs[..|es|] == es;
    var k :| 0 <= k <= |es| && Heads(h, genesis, es)[k] == head;
    assert fs[..k] == es[..k];
    assert Heads(h, genesis, fs)[k] == head;
  }

  lemma PresentHead(h: Hash, log: seq<Event>, id: Id, m: MachineObject)
    requires Recorded(h, log, id, m)
    ensures PastHead(h, log, id, m.provenanceHead)
  {
    hide Replay;
    HistoryInRange(log, id);
    var es := History(log, id);
    assert es[..|es|] == es;
    assert Heads(h, GenesisIn(h, log, id), es)[|es|] == m.provenanceHead;
  }

  lemma LinksSnoc(h: Hash, o: Origin, es: seq<ProvenanceEntry>, e: ProvenanceEntry)
    requires AllInRange(es) && InRange(e)
    ensures AllInRange(es + [e])
    ensures ChainHead(h, o, es + [e]) == EntryHash(h, ChainHead(h, o, es), e)
    ensures LinksOf(h, o, es + [e]) == LinksOf(h, o, es) + [LinkedEntry(e, ChainHead(h, o, es), ChainHead(h, o, es + [e]))]
  {
    hide InRange, EntryHash;
    var fs := es + [e];
    var n := |es|;
    assert fs[..n] == es && fs[..n + 1] == fs;
    ReplaySnoc(h, h(OriginPreimage(o)), fs, n);
    hide Replay;
    forall i | 0 <= i < n ensures LinksOf(h, o, fs)[i] == LinksOf(h, o, es)[i] {
      assert fs[..i] == es[..i] && fs[..i + 1] == es[..i + 1];
    }
  }

  lemma EntryRecorded(h: Hash, log: seq<Event>, id: Id, m: MachineObject, e: Event, next: MachineObject)
    requires Recorded(h, log, id, m)
    requires e.Linked() && e.machineId == id
    requires e.fields == NextFields(h, m, e.EventType(), e.fields.blobId, e.fields.manifestHash, e.fields.payloadHash, e.fields.timestampMs)
    requires next.provenanceHead == e.fields.newHead
    requires e.CheckpointRegistered? ==>
               next.checkpointCount == m.checkpointCount + 1
               && next.currentBlobId == e.fields.blobId && next.manifestHash == e.fields.manifestHash
    requires !e.CheckpointRegistered? ==>
               next.checkpointCount == m.checkpointCount
               && next.currentBlobId == m.currentBlobId && next.manifestHash == m.manifestHash
    ensures Recorded(h, log + [e], id, next)
  {
    Appended(log, e, id);
    HistoryInRange(log, id);
    HistoryInRange(log + [e], id);
    var entry := LinkOf(e).entry;
    hide Replay, InRange, EntryHash, IdText, Checkpoints, Links, ForkOf;
    StateExtended(h, View(id, m), View(id, next), OriginIn(log, id), History(log, id), entry);
    hide StateOf;
    EntryLinked(h, log, id, m, e);
  }

  lemma EntryLinked(h: Hash, log: seq<Event>, id: Id, m: MachineObject, e: Event)
    requires Recorded(h, log, id, m)
    requires e.Linked() && e.machineId == id
    requires e.fields == NextFields(h, m, e.EventType(), e.fields.blobId, e.fields.manifestHash, e.fields.payloadHash, e.fields.timestampMs)
    ensures OriginIn(log + [e], id) == OriginIn(log, id)
    ensures History(log + [e], id) == History(log, id) + [LinkOf(e).entry]
    ensures AllInRange(History(log + [e], id))
    ensures Links(log + [e], id) == LinksOf(h, OriginIn(log, id), History(log + [e], id))
  {
    hide Replay, InRange, IdText, Checkpoints, Contiguous, Anchored;
    Appended(log, e, id);
    HistoryInRange(log, id);
    HistoryInRange(log + [e], id);
    assert History(log + [e], id) == History(log, id) + [LinkOf(e).entry];
    hide Links, ForkOf, EntryHash;
    LinksSnoc(h, OriginIn(log, id), History(log, id), LinkOf(e).entry);
  }

  lemma NewRecorded(h: Hash, log: seq<Event>, id: Id, e: Event, m: MachineObject)
    requires forall x :: x in log ==> x.Subject() != id
    requires e.Subject() == id && (e.MachineCreated? || e.MachineForked?)
    requires m.checkpointCount == 0
    requires m.provenanceHead == GenesisIn(h, log + [e], id)
    ensures Recorded(h, log + [e], id, m)
  {
    Silent(log, id);
    Appended(log, e, id);
  }

  // ----- every run -----

  ghost predicate Frame(w: World, next: World, e: Event) {
    && next.log == w.log + [e]
    && next.machines.Keys == w.machines.Keys + {e.Subject()}
    && (forall id :: id in w.machines && id != e.Subject() ==> next.machines[id] == w.machines[id])
  }

  /** Everything but the event's own machine keeps its record and its lineage. */
  lemma RestKept(h: Hash, w: World, next: World, e: Event, id: Id)
    requires Consistent(h, w) && Frame(w, next, e)
    requires e.MachineForked? ==> e.childId !in w.machines
    requires id in w.machines
    ensures id != e.Subject() ==> Recorded(h, next.log, id, next.machines[id])
    ensures (id == e.Subject() ==> next.machines[id].parent == w.machines[id].parent) ==>
              Descends(h, next, id, next.machines[id])
  {
    hide StateOf, LinksOf, PastHead;
    assert Recorded(h, w.log, id, w.machines[id]) && Descends(h, w, id, w.machines[id]);
    Appended(w.log, e, id);
    match ForkOf(w.log, id)
    case None =>
    case Some(f) => HeadRemains(h, w.log, e, f.parentId, f.parentHead);
  }

  lemma StepConsistent(h: Hash, w: World, next: World, e: Event)
    requires Consistent(h, w) && Frame(w, next, e)
    requires e.MachineForked? ==> e.childId !in w.machines
    requires e.Subject() in w.machines ==> next.machines[e.Subject()].parent == w.machines[e.Subject()].parent
    requires Recorded(h, next.log, e.Subject(), next.machines[e.Subject()])
    requires e.Subject() !in w.machines ==> Descends(h, next, e.Subject(), next.machines[e.Subject()])
    ensures Consistent(h, next)
  {
    hide Recorded, Descends;
    forall id | id in next.machines
      ensures Recorded(h, next.log, id, next.machines[id]) && Descends(h, next, id, next.machines[id])
    {
      if id in w.machines {
        RestKept(h, w, next, e, id);
      }
    }
  }

  ghost predicate Preserved(h: Hash, w: World, c: Call) {
    match Step(h, w, c)
    case None => true
    case Some(next) => Consistent(h, next)
  }

  lemma CreateKeeps(h: Hash, w: World, next: World, c: Call, policy: Id)
    requires Consistent(h, w) && c.newId !in w.machines && c.epoch < U32_END
    requires next.machines == w.machines[c.newId := NewMachine(h, c, policy)]
    requires next.log == w.log + [MachineCreated(c.newId, c.sender, policy, c.epoch)]
    ensures Consistent(h, next)
  {
    hide Recorded, PastHead, StateOf, LinksOf, LittleEndian;
    var e := MachineCreated(c.newId, c.sender, policy, c.epoch);
    Silent(w.log, c.newId);
    Appended(w.log, e, c.newId);
    NewRecorded(h, w.log, c.newId, e, NewMachine(h, c, policy));
    StepConsistent(h, w, next, e);
  }

  lemma ForkKeeps(h: Hash, w: World, c: Call)
    requires Consistent(h, w) && c.action.Fork?
    ensures Preserved(h, w, c)
  {
    hide Recorded;
    var step := Step(h, w, c);
    if step.Some? {
      var next := step.value;
      var m := w.machines[c.action.machine];
      var e := next.log[|w.log|];
      Silent(w.log, c.newId);
      Appended(w.log, e, c.newId);
      NewRecorded(h, w.log, c.newId, e, next.machines[c.newId]);
      PresentHead(h, w.log, c.action.machine, m);
      HeadRemains(h, w.log, e, c.action.machine, m.provenanceHead);
      StepConsistent(h, w, next, e);
    }
  }

  lemma EntryKeeps(h: Hash, w: World, c: Call)
    requires Consistent(h, w)
    requires c.action.Checkpoint? || c.action.GrantAccess? || c.action.RevokeAccess? || c.action.Retire?
    ensures Preserved(h, w, c)
  {
    hide Recorded, Descends, EntryHash, AccessPayload;
    var step := Step(h, w, c);
    if step.Some? {
      var next := step.value;
      var id := c.action.machine;
      var e := next.log[|w.log|];
      EntryRecorded(h, w.log, id, w.machines[id], e, next.machines[id]);
      StepConsistent(h, w, next, e);
    }
  }

  lemma StepKeeps(h: Hash, w: World, c: Call)
    requires Consistent(h, w)
    ensures Preserved(h, w, c)
  {
    hide Consistent;
    match c.action
    case Create(policy) =>
      var step := Step(h, w, c);
      if step.Some? {
        CreateKeeps(h, w, step.value, c, policy);
      }
    case CreateShared =>
      var step := Step(h, w, c);
      if step.Some? {
        CreateKeeps(h, w, step.value, c, c.newPolicyId);
      }
    case Fork(id, policy) => ForkKeeps(h, w, c);
    case _ => EntryKeeps(h, w, c);
  }

  /** Every reachable state is consistent: whatever is called, in any order, by anyone. */
  lemma {:induction false} RunConsistent(h: Hash, calls: seq<Call>)
    ensures Consistent(h, Run(h, calls))
  {
    if calls != [] {
      RunConsistent(h, calls[..|calls| - 1]);
      StepKeeps(h, Run(h, calls[..|calls| - 1]), calls[|calls| - 1]);
    }
  }
}
