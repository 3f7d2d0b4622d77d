/** Who can do what on the chain, and what each call leaves behind: `machine.move` and `access.move`, call by
  call and over whole runs. */
module Ownership {
  import opened Bytes
  import opened Provenance
  import opened Chain

  // ----- one call -----

  ghost predicate OwnedBy(w: World, machine: Id, who: Id) {
    machine in w.machines && w.machines[machine].owner == who
  }

  /** The policy governs the machine, and both belong to the same address. */
  ghost predicate Governs(w: World, policy: Id, machine: Id, who: Id) {
    && OwnedBy(w, machine, who) && w.machines[machine].policyId == policy
    && policy in w.policies && w.policies[policy].owner == who && w.policies[policy].machineId == machine
  }

  ghost predicate Fresh(w: World, id: Id) {
    id !in w.machines && id !in w.policies
  }

  /** When a call goes through; any other call aborts. */
  ghost predicate Allowed(w: World, c: Call) {
    match c.action
    case Create(_) => Fresh(w, c.newId) && c.epoch <= 0xFFFF_FFFF
    case CreateShared => Fresh(w, c.newId) && Fresh(w, c.newPolicyId) && c.newId != c.newPolicyId && c.epoch <= 0xFFFF_FFFF
    case Checkpoint(id, _, _, _) => OwnedBy(w, id, c.sender) && w.machines[id].checkpointCount < 0xFFFF_FFFF_FFFF_FFFF
    case Fork(id, _) => OwnedBy(w, id, c.sender) && Fresh(w, c.newId) && c.epoch <= 0xFFFF_FFFF
    case GrantAccess(id, policy, _, _, _) => Governs(w, policy, id, c.sender)
    case RevokeAccess(id, policy, grantee) => Governs(w, policy, id, c.sender) && grantee != c.sender
    case Retire(id) => OwnedBy(w, id, c.sender)
  }

  /** The chain part of an event: the machine's count and head before, and the head hashed from them. */
  ghost predicate Chains(h: Hash, m: MachineObject, eventType: int, f: ChainFields, now: U64) {
    && f.seqNo == m.checkpointCount && f.prevHead == m.provenanceHead && f.timestampMs == now
    && HashedFrom(h, m.provenanceHead,
                  ProvenanceEntry(m.checkpointCount, eventType, f.blobId, f.manifestHash, f.payloadHash, now), f.newHead)
  }

  /** A grant and a revoke commit to who, the rights in one byte, and the expiry in 8 bytes. */
  ghost predicate AccessHash(h: Hash, grantee: Id, rights: byte, expiryMs: U64, d: Bytes) {
    exists b: Bytes :: |b| == 8 && NumberOf(b) == expiryMs && d == h(grantee + [rights] + b)
  }

  /** The event a call emits. */
  ghost predicate Emits(h: Hash, w: World, c: Call, e: Event)
    requires Allowed(w, c)
  {
    match c.action
    case Create(policy) => e == MachineCreated(c.newId, c.sender, policy, c.epoch)
    case CreateShared => e == MachineCreated(c.newId, c.sender, c.newPolicyId, c.epoch)
    case Checkpoint(id, blobId, manifestHash, payloadHash) =>
      && e.CheckpointRegistered? && e.machineId == id
      && e.fields.blobId == blobId && e.fields.manifestHash == manifestHash && e.fields.payloadHash == payloadHash
      && Chains(h, w.machines[id], 0, e.fields, c.timestampMs)
    case Fork(id, policy) =>
      var m := w.machines[id];
      e == MachineForked(c.newId, id, c.sender, m.currentBlobId, m.provenanceHead, h(m.provenanceHead + [4] + c.newId))
    case GrantAccess(id, policy, grantee, rights, expiryMs) =>
      && e.AccessGranted? && e.machineId == id && e.policyId == policy && e.grantee == grantee
      && e.rights == rights && e.expiryMs == expiryMs
      && e.fields.blobId == 0 && e.fields.manifestHash == [] && AccessHash(h, grantee, rights, expiryMs, e.fields.payloadHash)
      && Chains(h, w.machines[id], 2, e.fields, c.timestampMs)
    case RevokeAccess(id, policy, grantee) =>
      && e.AccessRevoked? && e.machineId == id && e.policyId == policy && e.grantee == grantee
      && e.fields.blobId == 0 && e.fields.manifestHash == [] && AccessHash(h, grantee, 0, 0, e.fields.payloadHash)
      && Chains(h, w.machines[id], 3, e.fields, c.timestampMs)
    case Retire(id) =>
      && e.MachineRetired? && e.machineId == id && e.owner == c.sender
      && e.fields.blobId == 0 && e.fields.manifestHash == [] && e.fields.payloadHash == h(c.sender)
      && Chains(h, w.machines[id], 5, e.fields, c.timestampMs)
  }

  /** The machine a call leaves under the event's id. */
  ghost predicate Leaves(h: Hash, w: World, c: Call, e: Event, m: MachineObject)
    requires Allowed(w, c) && Emits(h, w, c, e)
  {
    match c.action
    case Create(policy) => m == MachineObject(c.sender, 0, [], h(c.newId), 0, None, policy, c.epoch)
    case CreateShared => m == MachineObject(c.sender, 0, [], h(c.newId), 0, None, c.newPolicyId, c.epoch)
    case Checkpoint(id, blobId, manifestHash, _) =>
      m == w.machines[id].(currentBlobId := blobId, manifestHash := manifestHash, provenanceHead := e.fields.newHead,
                           checkpointCount := w.machines[id].checkpointCount + 1)
    case Fork(id, policy) =>
      m == MachineObject(c.sender, w.machines[id].currentBlobId, w.machines[id].manifestHash, e.childHead, 0, Some(id), policy, c.epoch)
    case _ => e.Linked() && m == w.machines[e.machineId].(provenanceHead := e.fields.newHead)
  }

  ghost predicate Policies(w: World, c: Call, after: map<Id, AccessPolicy>)
    requires Allowed(w, c)
  {
    match c.action
    case CreateShared => after == w.policies[c.newPolicyId := AccessPolicy(c.newId, c.sender, map[c.sender := Grant(3, 0)])]
    case GrantAccess(_, policy, grantee, rights, expiryMs) =>
      after == w.policies[policy := w.policies[policy].(grants := w.policies[policy].grants[grantee := Grant(rights, expiryMs)])]
    case RevokeAccess(_, policy, grantee) =>
      after == w.policies[policy := w.policies[policy].(grants := w.policies[policy].grants - {grantee})]
    case _ => after == w.policies
  }

  ghost predicate Performs(h: Hash, w: World, c: Call, next: World, e: Event) {
    && Allowed(w, c) && Emits(h, w, c, e)
    && next.log == w.log + [e]
    && e.Subject() in next.machines && Leaves(h, w, c, e, next.machines[e.Subject()])
    && next.machines == w.machines[e.Subject() := next.machines[e.Subject()]]
    && Policies(w, c, next.policies)
  }

  lemma FieldsChain(h: Hash, m: MachineObject, eventType: byte, blobId: U256, manifestHash: Bytes, payloadHash: Bytes, now: U64)
    ensures Chains(h, m, eventType, NextFields(h, m, eventType, blobId, manifestHash, payloadHash, now), now)
  {
    HashDetermined(h, m.provenanceHead, ProvenanceEntry(m.checkpointCount, eventType, blobId, manifestHash, payloadHash, now),
                   NextFields(h, m, eventType, blobId, manifestHash, payloadHash, now).newHead);
    hide HashedFrom, EntryHash;
  }

  lemma PayloadHash(h: Hash, grantee: Id, rights: byte, expiryMs: U64)
    ensures AccessHash(h, grantee, rights, expiryMs, AccessPayload(h, grantee, rights, expiryMs))
  {
    WidthEnds();
    LittleEndianNumber(expiryMs, 8);
  }

  lemma AllowedExactly(h: Hash, w: World, c: Call)
    ensures Step(h, w, c).Some? <==> Allowed(w, c)
  {
    hide NextFields, HeadOnly, AccessPayload, NewMachine, Put, ForkChildHead;
  }

  lemma StepLogs(h: Hash, w: World, c: Call) returns (e: Event)
    requires Step(h, w, c).Some?
    ensures var next := Step(h, w, c).value;
            && next.log == w.log + [e]
            && e.Subject() in next.machines && next.machines == w.machines[e.Subject() := next.machines[e.Subject()]]
  {
    hide NextFields, HeadOnly, AccessPayload, NewMachine, ForkChildHead;
    var next := Step(h, w, c).value;
    e := next.log[|next.log| - 1];
  }

  lemma StepEmits(h: Hash, w: World, c: Call, e: Event)
    requires Allowed(w, c) && Step(h, w, c).Some? && Step(h, w, c).value.log == w.log + [e]
    ensures Emits(h, w, c, e)
  {
    assert (w.log + [e])[|w.log|] == e;
    if e.Linked() {
      var m := w.machines[e.machineId];
      FieldsChain(h, m, e.EventType(), e.fields.blobId, e.fields.manifestHash, e.fields.payloadHash, c.timestampMs);
    }
    if e.AccessGranted? {
      PayloadHash(h, e.grantee, e.rights, e.expiryMs);
    }
    if e.AccessRevoked? {
      PayloadHash(h, e.grantee, 0, 0);
    }
    hide Chains, AccessHash, AccessPayload, EntryHash, NewMachine, Governs, Fresh;
  }

  lemma StepLeaves(h: Hash, w: World, c: Call, e: Event)
    requires Allowed(w, c) && Step(h, w, c).Some? && Step(h, w, c).value.log == w.log + [e] && Emits(h, w, c, e)
    ensures e.Subject() in Step(h, w, c).value.machines && Leaves(h, w, c, e, Step(h, w, c).value.machines[e.Subject()])
  {
    assert (w.log + [e])[|w.log|] == e;
    hide Chains, AccessHash, AccessPayload, EntryHash, Governs, Fresh;
  }

  lemma StepPolicies(h: Hash, w: World, c: Call)
    requires Allowed(w, c) && Step(h, w, c).Some?
    ensures Policies(w, c, Step(h, w, c).value.policies)
  {
    hide NextFields, HeadOnly, AccessPayload, NewMachine, ForkChildHead;
  }

  /** A call goes through exactly when it is allowed, and then does exactly this. */
  lemma StepExact(h: Hash, w: World, c: Call)
    ensures Step(h, w, c).Some? <==> Allowed(w, c)
    ensures Step(h, w, c).Some? ==> exists e :: Performs(h, w, c, Step(h, w, c).value, e)
  {
    hide Step, Allowed, Emits, Leaves, Policies;
    AllowedExactly(h, w, c);
    if Step(h, w, c).Some? {
      var e := StepLogs(h, w, c);
      StepEmits(h, w, c, e);
      StepLeaves(h, w, c, e);
      StepPolicies(h, w, c);
      assert Performs(h, w, c, Step(h, w, c).value, e);
    }
  }

  // ----- whole runs -----

  lemma RunSnoc(h: Hash, calls: seq<Call>)
    requires calls != []
    ensures var front, c := Run(h, calls[..|calls| - 1]), calls[|calls| - 1];
            Run(h, calls) == if Step(h, front, c).Some? then Step(h, front, c).value else front
  {
    hide Step;
  }

  /** The i-th event was emitted by the k-th call, in the state the run had reached. */
  ghost predicate Called(h: Hash, calls: seq<Call>, log: seq<Event>, i: nat, k: nat)
    requires i < |log|
  {
    && k < |calls|
    && Run(h, calls[..k]).log == log[..i]
    && Allowed(Run(h, calls[..k]), calls[k]) && Emits(h, Run(h, calls[..k]), calls[k], log[i])
  }

  lemma CalledEarlier(h: Hash, calls: seq<Call>, log: seq<Event>, more: seq<Event>, i: nat, k: nat)
    requires calls != [] && i < |log| && i < |more| && log[..i] == more[..i] && log[i] == more[i]
    requires Called(h, calls[..|calls| - 1], log, i, k)
    ensures Called(h, calls, more, i, k)
  {
    hide Run, Allowed, Emits;
    var front := calls[..|calls| - 1];
    assert front[..k] == calls[..k] && front[k] == calls[k];
  }

  /** Every event of a run was emitted by one of its calls. */
  lemma {:induction false} EveryEventCalled(h: Hash, calls: seq<Call>, i: nat) returns (k: nat)
    requires i < |Run(h, calls).log|
    ensures Called(h, calls, Run(h, calls).log, i, k)
    decreases |calls|
  {
    k := 0;
    if calls != [] {
      var n := |calls| - 1;
      var front, c, next := Run(h, calls[..n]), calls[n], Run(h, calls);
      RunSnoc(h, calls);
      StepExact(h, front, c);
      hide *;
      LogKept(h, front, c, next, i);
      if i < |front.log| {
        k := EveryEventCalled(h, calls[..n], i);
        CalledEarlier(h, calls, front.log, next.log, i, k);
      } else {
        k := n;
        LastCalled(h, calls, next.log, i);
      }
    }
  }

  lemma LastCalled(h: Hash, calls: seq<Call>, log: seq<Event>, i: nat)
    requires calls != [] && i < |log|
    requires var w, c := Run(h, calls[..|calls| - 1]), calls[|calls| - 1];
             log[..i] == w.log && Allowed(w, c) && Emits(h, w, c, log[i])
    ensures Called(h, calls, log, i, |calls| - 1)
  {
    hide Run, Allowed, Emits;
  }

  lemma LogKept(h: Hash, w: World, c: Call, next: World, i: nat)
    requires next == w || exists e :: Performs(h, w, c, next, e)
    requires i < |next.log|
    ensures i < |w.log| ==> next.log[..i] == w.log[..i] && next.log[i] == w.log[i]
    ensures i >= |w.log| ==> next.log[..i] == w.log && Allowed(w, c) && Emits(h, w, c, next.log[i])
  {
    hide Emits, Leaves, Policies, Allowed;
  }

  ghost predicate SameOwners(w: World, later: World) {
    forall id :: id in w.machines ==> id in later.machines && later.machines[id].owner == w.machines[id].owner
  }

  lemma OwnerKept(h: Hash, w: World, c: Call)
    ensures Step(h, w, c).Some? ==> SameOwners(w, Step(h, w, c).value)
  {
    hide NextFields, HeadOnly, AccessPayload;
  }

  /** No machine ever changes hands. */
  lemma {:induction false} OwnersStay(h: Hash, calls: seq<Call>, k: nat)
    requires k <= |calls|
    ensures SameOwners(Run(h, calls[..k]), Run(h, calls))
    decreases |calls|
  {
    if k == |calls| {
      assert calls[..k] == calls;
    } else {
      var n := |calls| - 1;
      OwnersStay(h, calls[..n], k);
      assert calls[..n][..k] == calls[..k];
      RunSnoc(h, calls);
      OwnerKept(h, Run(h, calls[..n]), calls[n]);
      hide Run, Step;
    }
  }

  /** What was done to a machine, its owner called for: nobody else can add to its chain or fork it. */
  lemma OwnersOnly(h: Hash, calls: seq<Call>, e: Event)
    requires e in Run(h, calls).log
    ensures var id := if e.MachineForked? then e.parentId else e.machineId;
            && id in Run(h, calls).machines
            && exists c :: c in calls && c.sender == Run(h, calls).machines[id].owner
                           && (e.CheckpointRegistered? ==> c.action.Checkpoint? && c.action.machine == id)
                           && (e.AccessGranted? ==> c.action == GrantAccess(id, e.policyId, e.grantee, e.rights, e.expiryMs))
                           && (e.AccessRevoked? ==> c.action == RevokeAccess(id, e.policyId, e.grantee))
                           && (e.MachineRetired? ==> c.action == Retire(id))
                           && (e.MachineForked? ==> c.action.Fork? && c.action.machine == id)
  {
    var i :| 0 <= i < |Run(h, calls).log| && Run(h, calls).log[i] == e;
    var k := EveryEventCalled(h, calls, i);
    var w, c := Run(h, calls[..k]), calls[k];
    OwnersStay(h, calls, k);
    if e.MachineCreated? {
      CreatedOwned(h, calls, k, e);
    }
    hide Run, Step, Chains, AccessHash;
    assert c in calls;
  }

  lemma CreatedOwned(h: Hash, calls: seq<Call>, k: nat, e: Event)
    requires k < |calls| && e.MachineCreated? && Allowed(Run(h, calls[..k]), calls[k]) && Emits(h, Run(h, calls[..k]), calls[k], e)
    ensures e.machineId in Run(h, calls).machines && Run(h, calls).machines[e.machineId].owner == calls[k].sender
  {
    var w, c, next := Run(h, calls[..k]), calls[k], Run(h, calls[..k + 1]);
    RunSnoc(h, calls[..k + 1]);
    assert calls[..k + 1][..k] == calls[..k] && calls[..k + 1][k] == c;
    StepExact(h, w, c);
    OwnersStay(h, calls, k + 1);
    hide Run, Step;
    var x :| Performs(h, w, c, next, x);
    CreatedNow(h, w, c, next, x, e);
  }

  lemma CreatedNow(h: Hash, w: World, c: Call, next: World, x: Event, e: Event)
    requires Performs(h, w, c, next, x) && e.MachineCreated? && Emits(h, w, c, e)
    ensures e.machineId in next.machines && next.machines[e.machineId].owner == c.sender
  {
    hide Chains, AccessHash, Policies;
  }

  // ----- grants -----

  predicate About(e: Event, policy: Id, who: Id) {
    || (e.AccessGranted? && e.policyId == policy && e.grantee == who)
    || (e.AccessRevoked? && e.policyId == policy && e.grantee == who)
  }

  ghost predicate LastAbout(log: seq<Event>, policy: Id, who: Id, i: int) {
    0 <= i < |log| && About(log[i], policy, who) && forall j :: i < j < |log| ==> !About(log[j], policy, who)
  }

  /** What the events say of one grantee: the last grant or revoke counts; before any, the owner has full
    rights without end and nobody else has any. */
  ghost predicate GrantIs(log: seq<Event>, policy: Id, p: AccessPolicy, who: Id) {
    && (forall i :: LastAbout(log, policy, who, i) ==>
          && (log[i].AccessGranted? ==> who in p.grants && p.grants[who] == Grant(log[i].rights, log[i].expiryMs))
          && (log[i].AccessRevoked? ==> who !in p.grants))
    && ((forall i :: 0 <= i < |log| ==> !About(log[i], policy, who)) ==>
          if who == p.owner then who in p.grants && p.grants[who] == Grant(3, 0) else who !in p.grants)
  }

  ghost predicate GrantsFollow(w: World) {
    && (forall e :: e in w.log && (e.AccessGranted? || e.AccessRevoked?) ==> e.policyId in w.policies)
    && forall policy, who :: policy in w.policies ==> GrantIs(w.log, policy, w.policies[policy], who)
  }

  lemma GrantUntouched(log: seq<Event>, e: Event, policy: Id, p: AccessPolicy, who: Id)
    requires GrantIs(log, policy, p, who) && !About(e, policy, who)
    ensures GrantIs(log + [e], policy, p, who)
  {
    hide About;
    forall i | LastAbout(log + [e], policy, who, i) ensures LastAbout(log, policy, who, i) && (log + [e])[i] == log[i] {
      assert (log + [e])[|log|] == e;
      forall j | i < j < |log| ensures !About(log[j], policy, who) { assert (log + [e])[j] == log[j]; }
    }
    if forall i :: 0 <= i < |log + [e]| ==> !About((log + [e])[i], policy, who) {
      forall i | 0 <= i < |log| ensures !About(log[i], policy, who) { assert (log + [e])[i] == log[i]; }
    }
  }

  lemma GrantTouched(log: seq<Event>, e: Event, policy: Id, p: AccessPolicy, who: Id)
    requires About(e, policy, who)
    requires e.AccessGranted? ==> who in p.grants && p.grants[who] == Grant(e.rights, e.expiryMs)
    requires e.AccessRevoked? ==> who !in p.grants
    ensures GrantIs(log + [e], policy, p, who)
  {
    var after := log + [e];
    assert after[|log|] == e;
    assert forall i :: LastAbout(after, policy, who, i) ==> i == |log|;
  }

  lemma GrantSame(log: seq<Event>, policy: Id, p: AccessPolicy, q: AccessPolicy, who: Id)
    requires GrantIs(log, policy, p, who) && q.owner == p.owner
    requires who in p.grants <==> who in q.grants
    requires who in p.grants ==> p.grants[who] == q.grants[who]
    ensures GrantIs(log, policy, q, who)
  {
  }

  lemma StepGrants(h: Hash, w: World, c: Call, next: World, e: Event, policy: Id, who: Id)
    requires GrantsFollow(w) && Performs(h, w, c, next, e) && policy in next.policies
    ensures GrantIs(next.log, policy, next.policies[policy], who)
  {
    hide Chains, AccessHash, Leaves, LastAbout;
    var q := next.policies[policy];
    if policy !in w.policies {
      assert forall x :: x in w.log ==> !About(x, policy, who);
      assert !About(e, policy, who);
      NoneAbout(w.log, policy, q, who);
      GrantUntouched(w.log, e, policy, q, who);
    } else if About(e, policy, who) {
      GrantTouched(w.log, e, policy, q, who);
    } else {
      GrantSame(w.log, policy, w.policies[policy], q, who);
      GrantUntouched(w.log, e, policy, q, who);
    }
  }

  lemma NoneAbout(log: seq<Event>, policy: Id, p: AccessPolicy, who: Id)
    requires forall x :: x in log ==> !About(x, policy, who)
    requires if who == p.owner then who in p.grants && p.grants[who] == Grant(3, 0) else who !in p.grants
    ensures GrantIs(log, policy, p, who)
  {
  }

  lemma StepFollows(h: Hash, w: World, c: Call, next: World, e: Event)
    requires GrantsFollow(w) && Performs(h, w, c, next, e)
    ensures GrantsFollow(next)
  {
    forall policy, who | policy in next.policies ensures GrantIs(next.log, policy, next.policies[policy], who) {
      StepGrants(h, w, c, next, e, policy, who);
    }
    hide Chains, AccessHash, Leaves, GrantIs;
  }

  /** In every reachable state each policy grants what its events say. */
  lemma {:induction false} GrantsFollowEvents(h: Hash, calls: seq<Call>)
    ensures GrantsFollow(Run(h, calls))
  {
    if calls != [] {
      var n := |calls| - 1;
      GrantsFollowEvents(h, calls[..n]);
      RunSnoc(h, calls);
      StepExact(h, Run(h, calls[..n]), calls[n]);
      hide Run, Step, GrantsFollow;
      if Run(h, calls) != Run(h, calls[..n]) {
        var e :| Performs(h, Run(h, calls[..n]), calls[n], Run(h, calls), e);
        StepFollows(h, Run(h, calls[..n]), calls[n], Run(h, calls), e);
      }
    }
  }

  ghost predicate OwnersPresent(w: World) {
    forall policy :: policy in w.policies ==> w.policies[policy].owner in w.policies[policy].grants
  }

  /** The owner of a policy is always among those it grants access to. */
  lemma {:induction false} OwnerPresent(h: Hash, calls: seq<Call>)
    ensures OwnersPresent(Run(h, calls))
  {
    if calls != [] {
      var n := |calls| - 1;
      OwnerPresent(h, calls[..n]);
      RunSnoc(h, calls);
      StepExact(h, Run(h, calls[..n]), calls[n]);
      hide Run, Step, OwnersPresent;
      if Run(h, calls) != Run(h, calls[..n]) {
        var e :| Performs(h, Run(h, calls[..n]), calls[n], Run(h, calls), e);
        PresentKept(h, Run(h, calls[..n]), calls[n], Run(h, calls), e);
      }
    } else {
      hide OwnersPresent;
      NoPolicies();
    }
  }

  lemma NoPolicies()
    ensures OwnersPresent(EMPTY)
  {
  }

  lemma PresentKept(h: Hash, w: World, c: Call, next: World, e: Event)
    requires OwnersPresent(w) && Performs(h, w, c, next, e)
    ensures OwnersPresent(next)
  {
    hide Emits, Leaves;
  }

  /** The owner's rights are full and without end exactly when the last grant that names the owner, if there
    is one, says so: an owner can give that up. */
  lemma OwnerRights(h: Hash, calls: seq<Call>, policy: Id)
    requires policy in Run(h, calls).policies
    ensures var w := Run(h, calls);
            var p := w.policies[policy];
            && p.owner in p.grants
            && (p.grants[p.owner] == Grant(3, 0) <==>
                  forall i :: LastAbout(w.log, policy, p.owner, i) ==> w.log[i].AccessGranted? && w.log[i].rights == 3 && w.log[i].expiryMs == 0)
  {
    OwnerPresent(h, calls);
    GrantsFollowEvents(h, calls);
    var w := Run(h, calls);
    var p := w.policies[policy];
    assert GrantIs(w.log, policy, p, p.owner);
    if k :| 0 <= k < |w.log| && About(w.log[k], policy, p.owner) {
      var last := FindLast(w.log, policy, p.owner, k);
    }
    hide Run;
  }

  lemma FindLast(log: seq<Event>, policy: Id, who: Id, k: int) returns (i: int)
    requires 0 <= k < |log| && About(log[k], policy, who)
    ensures LastAbout(log, policy, who, i)
  {
    hide About;
    i := |log| - 1;
    while !About(log[i], policy, who)
      invariant k <= i < |log| && forall j :: i < j < |log| ==> !About(log[j], policy, who)
      decreases i
    {
      i := i - 1;
    }
  }

  /** Two calls after which an owner's own rights are none. */
  lemma OwnerDemoted(h: Hash, owner: Id, machine: Id, policy: Id) returns (calls: seq<Call>)
    requires machine != policy
    ensures policy in Run(h, calls).policies && Run(h, calls).policies[policy].owner == owner
    ensures owner in Run(h, calls).policies[policy].grants && Run(h, calls).policies[policy].grants[owner] == Grant(0, 0)
  {
    var create := Call(CreateShared, owner, 0, 0, machine, policy);
    var grant := Call(GrantAccess(machine, policy, owner, 0, 0), owner, 0, 0, machine, policy);
    calls := [create, grant];
    assert calls[..1] == [create] && [create][..0] == [];
    RunSnoc(h, [create]);
    RunSnoc(h, calls);
    var empty, w := Run(h, []), Run(h, [create]);
    StepExact(h, empty, create);
    var e :| Performs(h, empty, create, w, e);
    assert Allowed(w, grant);
    StepExact(h, w, grant);
    hide Step;
  }

  // ----- a machine's history, event by event -----

  /** The chain entry an event stands for: checkpoints are 0, grants 2, revokes 3, retirements 5. */
  ghost predicate StandsFor(e: Event, x: ProvenanceEntry)
    requires e.Linked()
  {
    && x.seqNo == e.fields.seqNo && x.blobId == e.fields.blobId && x.manifestHash == e.fields.manifestHash
    && x.payloadHash == e.fields.payloadHash && x.timestampMs == e.fields.timestampMs
    && x.eventType == if e.CheckpointRegistered? then 0 else if e.AccessGranted? then 2 else if e.AccessRevoked? then 3 else 5
  }

  /** The history is the machine's linked events, all of them, in the order they were emitted. */
  ghost predicate HistoryAt(log: seq<Event>, id: Id, entries: seq<ProvenanceEntry>, at: seq<nat>) {
    && |at| == |entries|
    && (forall k :: 0 <= k < |at| ==> at[k] < |log| && log[at[k]].Linked() && StandsFor(log[at[k]], entries[k]))
    && (forall j, k :: 0 <= j < k < |at| ==> at[j] < at[k])
    && (forall i: nat :: i < |log| ==> (log[i].Linked() && log[i].machineId == id <==> i in at))
  }

  lemma {:induction false} HistoryIs(log: seq<Event>, id: Id) returns (at: seq<nat>)
    ensures HistoryAt(log, id, History(log, id), at)
  {
    at := [];
    if log != [] {
      var n := |log| - 1;
      var front, e := log[..n], log[n];
      at := HistoryIs(front, id);
      HistoryStep(log, id);
      hide StandsFor, History;
      assert forall i :: 0 <= i < n ==> front[i] == log[i];
      if e.Linked() && e.machineId == id {
        ghost var more := at + [n];
        forall k | 0 <= k < |more| ensures more[k] < |log| && log[more[k]].Linked() && StandsFor(log[more[k]], History(log, id)[k]) {
        }
        at := more;
      }
    }
  }

  lemma HistoryStep(log: seq<Event>, id: Id)
    requires log != []
    ensures var e, front := log[|log| - 1], History(log[..|log| - 1], id);
            if e.Linked() && e.machineId == id then
              StandsFor(e, LinkOf(e).entry) && History(log, id) == front + [LinkOf(e).entry]
            else History(log, id) == front
  {
  }

  /** A machine as a reader is shown it. */
  lemma ViewIs(id: Id, m: MachineObject)
    ensures var v := View(id, m);
            && v.id == "0x" + ToHex(id) && v.owner == "0x" + ToHex(m.owner) && v.policyId == "0x" + ToHex(m.policyId)
            && v.currentBlobId == m.currentBlobId && v.manifestHash == m.manifestHash && v.provenanceHead == m.provenanceHead
            && v.checkpointCount == m.checkpointCount && v.createdAtEpoch == m.createdAtEpoch
            && (m.parent.None? ==> v.parent == None) && (m.parent.Some? ==> v.parent == Some("0x" + ToHex(m.parent.value)))
  {
    hide ToHex;
  }
}
