/** Checking a machine's history from public data alone: `verifier.ts`. */
module Verifier {
  import opened Bytes
  import opened Provenance
  import opened Linkage

  /** A machine as its object on chain shows it. */
  datatype Machine = Machine(
    id: string, owner: string, currentBlobId: int, manifestHash: Bytes, provenanceHead: Bytes,
    checkpointCount: int, parent: Option<string>, policyId: string, createdAtEpoch: int)

  datatype ForkProof = ForkProof(childHead: Bytes, parentHead: Bytes, parentHeads: seq<Bytes>)

  datatype VerifyInput = VerifyInput(
    machine: Machine, machineIdBytes: Bytes, entries: seq<ProvenanceEntry>, fork: Option<ForkProof>)

  datatype Check = Check(name: string, passed: bool)

  datatype Report = Report(ok: bool, checks: seq<Check>)

  // ----- what is checked -----

  function Checkpoints(es: seq<ProvenanceEntry>): (cs: seq<ProvenanceEntry>)
    ensures |cs| <= |es|
  {
    if es == [] then []
    else
      var front := Checkpoints(es[..|es| - 1]);
      if es[|es| - 1].eventType == EVENT_CHECKPOINT then front + [es[|es| - 1]] else front
  }

  /** Where the replay starts: for a fork, the head its event names, whether or not that is bound. */
  function StartOf(h: Hash, input: VerifyInput): Bytes {
    match input.fork
    case None => GenesisHead(h, input.machineIdBytes)
    case Some(fork) => fork.childHead
  }

  predicate ForkBound(h: Hash, input: VerifyInput) {
    input.fork.Some? ==>
      input.fork.value.childHead == ForkChildHead(h, input.fork.value.parentHead, input.machineIdBytes)
  }

  predicate ParentHeadKnown(input: VerifyInput) {
    input.fork.Some? ==> input.fork.value.parentHead in input.fork.value.parentHeads
  }

  predicate HeadReached(h: Hash, input: VerifyInput)
    requires AllInRange(input.entries)
  {
    Replay(h, StartOf(h, input), input.entries) == input.machine.provenanceHead
  }

  predicate Contiguous(cs: seq<ProvenanceEntry>) {
    forall i :: 0 <= i < |cs| ==> cs[i].seqNo == i
  }

  predicate Anchored(m: Machine, cs: seq<ProvenanceEntry>) {
    cs != [] ==> cs[|cs| - 1].blobId == m.currentBlobId && cs[|cs| - 1].manifestHash == m.manifestHash
  }

  /** What an accepting report means. */
  predicate Accepts(h: Hash, input: VerifyInput)
    requires AllInRange(input.entries)
  {
    var cs := Checkpoints(input.entries);
    && ForkBound(h, input)
    && ParentHeadKnown(input)
    && HeadReached(h, input)
    && |cs| == input.machine.checkpointCount
    && Contiguous(cs)
    && Anchored(input.machine, cs)
  }

  function ForkChecks(h: Hash, input: VerifyInput): seq<Check> {
    if input.fork.None? then []
    else [Check("fork-binding", ForkBound(h, input)), Check("fork-parent-head", ParentHeadKnown(input))]
  }

  function AnchorChecks(m: Machine, cs: seq<ProvenanceEntry>): seq<Check> {
    if cs == [] then []
    else
      var last := cs[|cs| - 1];
      [Check("current-blob-id", last.blobId == m.currentBlobId), Check("manifest-hash", last.manifestHash == m.manifestHash)]
  }

  function ChecksOf(h: Hash, input: VerifyInput): seq<Check>
    requires AllInRange(input.entries)
  {
    var cs := Checkpoints(input.entries);
    ForkChecks(h, input)
    + [Check("provenance-head", HeadReached(h, input)),
       Check("checkpoint-count", |cs| == input.machine.checkpointCount),
       Check("sequence-contiguous", Contiguous(cs))]
    + AnchorChecks(input.machine, cs)
  }

  predicate AllPassed(checks: seq<Check>) {
    forall i :: 0 <= i < |checks| ==> checks[i].passed
  }

  lemma AllPassedSum(a: seq<Check>, b: seq<Check>)
    ensures AllPassed(a + b) <==> AllPassed(a) && AllPassed(b)
  {
    if AllPassed(a + b) {
      forall i | 0 <= i < |a| ensures a[i].passed { assert (a + b)[i] == a[i]; }
      forall i | 0 <= i < |b| ensures b[i].passed { assert (a + b)[|a| + i] == b[i]; }
    }
  }

  lemma AcceptsAll(h: Hash, input: VerifyInput)
    requires AllInRange(input.entries)
    ensures AllPassed(ChecksOf(h, input)) <==> Accepts(h, input)
  {
    hide Checkpoints, HeadReached, Contiguous;
    var cs := Checkpoints(input.entries);
    var core := [Check("provenance-head", HeadReached(h, input)),
                 Check("checkpoint-count", |cs| == input.machine.checkpointCount),
                 Check("sequence-contiguous", Contiguous(cs))];
    AllPassedSum(ForkChecks(h, input) + core, AnchorChecks(input.machine, cs));
    AllPassedSum(ForkChecks(h, input), core);
    assert AllPassed(core) <==> core[0].passed && core[1].passed && core[2].passed;
    PairPassed(ForkChecks(h, input));
    PairPassed(AnchorChecks(input.machine, cs));
  }

  lemma PairPassed(cs: seq<Check>)
    ensures |cs| == 0 ==> AllPassed(cs)
    ensures |cs| == 2 ==> (AllPassed(cs) <==> cs[0].passed && cs[1].passed)
  {
  }

  // ----- what a report says, check by check -----

  function CheckpointsAt(es: seq<ProvenanceEntry>, end: nat): set<nat> {
    set i: nat | i < end && i < |es| && es[i].eventType == 0
  }

  ghost predicate LatestCheckpoint(es: seq<ProvenanceEntry>, i: int) {
    0 <= i < |es| && es[i].eventType == 0 && forall j :: i < j < |es| ==> es[j].eventType != 0
  }

  /** Each checkpoint carries the number of checkpoints before it. */
  ghost predicate Numbered(es: seq<ProvenanceEntry>) {
    forall i :: 0 <= i < |es| && es[i].eventType == 0 ==> es[i].seqNo == |CheckpointsAt(es, i)|
  }

  /** The names of the checks, in the order of the report. */
  function CheckNames(input: VerifyInput): seq<string> {
    (if input.fork.Some? then ["fork-binding", "fork-parent-head"] else [])
    + ["provenance-head", "checkpoint-count", "sequence-contiguous"]
    + (if exists i :: 0 <= i < |input.entries| && input.entries[i].eventType == 0 then ["current-blob-id", "manifest-hash"] else [])
  }

  /** What each check is about. A fork replays from the head its event names, any other machine from the
    hash of its id. */
  ghost predicate Holds(h: Hash, input: VerifyInput, name: string) {
    var es, m := input.entries, input.machine;
    && (name == "fork-binding" ==>
          && input.fork.Some?
          && input.fork.value.childHead == h(input.fork.value.parentHead + [4] + input.machineIdBytes))
    && (name == "fork-parent-head" ==>
          && input.fork.Some?
          && exists i :: 0 <= i < |input.fork.value.parentHeads| && input.fork.value.parentHeads[i] == input.fork.value.parentHead)
    && (name == "provenance-head" ==>
          Leads(h, if input.fork.Some? then input.fork.value.childHead else h(input.machineIdBytes), es, m.provenanceHead))
    && (name == "checkpoint-count" ==> |CheckpointsAt(es, |es|)| == m.checkpointCount)
    && (name == "sequence-contiguous" ==> Numbered(es))
    && (name == "current-blob-id" ==> exists i :: LatestCheckpoint(es, i) && es[i].blobId == m.currentBlobId)
    && (name == "manifest-hash" ==> exists i :: LatestCheckpoint(es, i) && es[i].manifestHash == m.manifestHash)
  }

  /** The report names each check that applies, in order, tells of each whether it holds, and is favourable
    exactly when all of them do. */
  ghost predicate Tells(h: Hash, input: VerifyInput, r: Report) {
    && Told(h, input, r.checks, CheckNames(input))
    && (r.ok <==> forall i :: 0 <= i < |CheckNames(input)| ==> Holds(h, input, CheckNames(input)[i]))
  }

  ghost predicate Told(h: Hash, input: VerifyInput, checks: seq<Check>, names: seq<string>) {
    && |checks| == |names|
    && forall i :: 0 <= i < |names| ==> checks[i].name == names[i] && (checks[i].passed <==> Holds(h, input, names[i]))
  }

  lemma CheckpointsAtSnoc(es: seq<ProvenanceEntry>, end: nat)
    requires end < |es|
    ensures CheckpointsAt(es, end + 1) == CheckpointsAt(es, end) + if es[end].eventType == 0 then {end} else {}
  {
  }

  lemma CheckpointsAtFront(es: seq<ProvenanceEntry>, k: nat, end: nat)
    requires end <= k <= |es|
    ensures CheckpointsAt(es[..k], end) == CheckpointsAt(es, end)
  {
  }

  lemma NumberedSnoc(es: seq<ProvenanceEntry>)
    requires es != []
    ensures var n := |es| - 1;
            Numbered(es) <==> Numbered(es[..n]) && (es[n].eventType == 0 ==> es[n].seqNo == |CheckpointsAt(es[..n], n)|)
  {
    var n := |es| - 1;
    forall k | 0 <= k <= n ensures CheckpointsAt(es[..n], k) == CheckpointsAt(es, k) {
      CheckpointsAtFront(es, n, k);
    }
    if Numbered(es) {
      forall i | 0 <= i < n && es[..n][i].eventType == 0 ensures es[..n][i].seqNo == |CheckpointsAt(es[..n], i)| {
        assert es[..n][i] == es[i];
      }
    }
    if Numbered(es[..n]) && (es[n].eventType == 0 ==> es[n].seqNo == |CheckpointsAt(es[..n], n)|) {
      forall i | 0 <= i < |es| && es[i].eventType == 0 ensures es[i].seqNo == |CheckpointsAt(es, i)| {
        assert i < n ==> es[..n][i] == es[i];
      }
    }
  }

  /** The checkpoints, by position: as many, and numbered as their positions say. */
  lemma {:induction false} CheckpointsPlaced(es: seq<ProvenanceEntry>)
    ensures |Checkpoints(es)| == |CheckpointsAt(es, |es|)|
    ensures Contiguous(Checkpoints(es)) <==> Numbered(es)
  {
    if es == [] {
      assert CheckpointsAt(es, 0) == {};
    } else {
      var n := |es| - 1;
      CheckpointsPlaced(es[..n]);
      CheckpointsAtSnoc(es, n);
      CheckpointsAtFront(es, n, n);
      NumberedSnoc(es);
      LastNumbered(Checkpoints(es[..n]), es[n]);
      hide Numbered, Contiguous;
    }
  }

  lemma LatestStep(es: seq<ProvenanceEntry>)
    requires es != []
    ensures var n := |es| - 1;
            && (es[n].eventType == 0 ==> LatestCheckpoint(es, n))
            && (es[n].eventType != 0 ==> forall i :: LatestCheckpoint(es[..n], i) ==> LatestCheckpoint(es, i) && es[..n][i] == es[i])
  {
  }

  lemma {:induction false} LatestPlaced(es: seq<ProvenanceEntry>)
    ensures Checkpoints(es) == [] ==> forall i :: 0 <= i < |es| ==> es[i].eventType != 0
    ensures Checkpoints(es) != [] ==>
              exists i :: LatestCheckpoint(es, i) && es[i] == Checkpoints(es)[|Checkpoints(es)| - 1]
  {
    if es != [] {
      var n := |es| - 1;
      LatestPlaced(es[..n]);
      LatestStep(es);
      assert forall i :: 0 <= i < n ==> es[..n][i] == es[i];
      if es[n].eventType != 0 && Checkpoints(es[..n]) != [] {
        var i :| LatestCheckpoint(es[..n], i) && es[..n][i] == Checkpoints(es[..n])[|Checkpoints(es[..n])| - 1];
        assert LatestCheckpoint(es, i);
        hide LatestCheckpoint;
      }
    }
  }

  lemma NamesDiffer(name: string)
    ensures name == "fork-binding" ==> |name| == 12
    ensures name == "fork-parent-head" ==> |name| == 16 && name[0] == 'f'
    ensures name == "provenance-head" ==> |name| == 15 && name[0] == 'p'
    ensures name == "checkpoint-count" ==> |name| == 16 && name[0] == 'c'
    ensures name == "sequence-contiguous" ==> |name| == 19
    ensures name == "current-blob-id" ==> |name| == 15 && name[0] == 'c'
    ensures name == "manifest-hash" ==> |name| == 13
  {
  }

  lemma ForkTold(h: Hash, input: VerifyInput)
    requires input.fork.Some?
    ensures Holds(h, input, "fork-binding") <==> ForkBound(h, input)
    ensures Holds(h, input, "fork-parent-head") <==> ParentHeadKnown(input)
  {
    NamesDiffer("fork-binding");
    NamesDiffer("fork-parent-head");
    hide Leads, LatestCheckpoint, Numbered, CheckpointsAt;
  }

  lemma CoreTold(h: Hash, input: VerifyInput)
    requires AllInRange(input.entries)
    ensures var cs := Checkpoints(input.entries);
            && (Holds(h, input, "provenance-head") <==> HeadReached(h, input))
            && (Holds(h, input, "checkpoint-count") <==> |cs| == input.machine.checkpointCount)
            && (Holds(h, input, "sequence-contiguous") <==> Contiguous(cs))
  {
    NamesDiffer("provenance-head");
    NamesDiffer("checkpoint-count");
    NamesDiffer("sequence-contiguous");
    ReplayLeads(h, StartOf(h, input), input.entries, input.machine.provenanceHead);
    CheckpointsPlaced(input.entries);
    hide Leads, LatestCheckpoint, Numbered, CheckpointsAt, Checkpoints, Contiguous, Replay, InRange;
  }

  lemma AnchorTold(h: Hash, input: VerifyInput)
    requires Checkpoints(input.entries) != []
    ensures var cs := Checkpoints(input.entries);
            && (Holds(h, input, "current-blob-id") <==> cs[|cs| - 1].blobId == input.machine.currentBlobId)
            && (Holds(h, input, "manifest-hash") <==> cs[|cs| - 1].manifestHash == input.machine.manifestHash)
  {
    var es := input.entries;
    NamesDiffer("current-blob-id");
    NamesDiffer("manifest-hash");
    LatestPlaced(es);
    var i :| LatestCheckpoint(es, i) && es[i] == Checkpoints(es)[|Checkpoints(es)| - 1];
    assert forall j :: LatestCheckpoint(es, j) ==> j == i;
    hide Leads, LatestCheckpoint, Numbered, CheckpointsAt, Checkpoints;
  }

  /** The two lineage checks of a fork, and none of another machine, were added at the end. */
  ghost predicate LineageAdded(h: Hash, input: VerifyInput, before: seq<Check>, after: seq<Check>) {
    && before <= after
    && Told(h, input, after[|before|..], if input.fork.Some? then ["fork-binding", "fork-parent-head"] else [])
  }

  lemma ToldSum(h: Hash, input: VerifyInput, a: seq<Check>, x: seq<string>, b: seq<Check>, y: seq<string>)
    requires Told(h, input, a, x) && Told(h, input, b, y)
    ensures Told(h, input, a + b, x + y)
  {
    hide Holds;
    forall i | 0 <= i < |x + y|
      ensures (a + b)[i].name == (x + y)[i] && ((a + b)[i].passed <==> Holds(h, input, (x + y)[i]))
    {
      if i < |x| {
        assert (a + b)[i] == a[i] && (x + y)[i] == x[i];
      } else {
        assert (a + b)[i] == b[i - |x|] && (x + y)[i] == y[i - |x|];
      }
    }
  }

  lemma ForkChecksTold(h: Hash, input: VerifyInput)
    ensures Told(h, input, ForkChecks(h, input), if input.fork.Some? then ["fork-binding", "fork-parent-head"] else [])
  {
    if input.fork.Some? {
      ForkTold(h, input);
    }
    hide Holds, ForkBound, ParentHeadKnown;
  }

  lemma CoreChecksTold(h: Hash, input: VerifyInput)
    requires AllInRange(input.entries)
    ensures var cs := Checkpoints(input.entries);
            Told(h, input, [Check("provenance-head", HeadReached(h, input)),
                            Check("checkpoint-count", |cs| == input.machine.checkpointCount),
                            Check("sequence-contiguous", Contiguous(cs))],
                 ["provenance-head", "checkpoint-count", "sequence-contiguous"])
  {
    CoreTold(h, input);
    hide Holds, HeadReached, Contiguous, Checkpoints, InRange;
  }

  lemma AnchorChecksTold(h: Hash, input: VerifyInput)
    ensures Told(h, input, AnchorChecks(input.machine, Checkpoints(input.entries)),
                 if Checkpoints(input.entries) != [] then ["current-blob-id", "manifest-hash"] else [])
  {
    if Checkpoints(input.entries) != [] {
      AnchorTold(h, input);
    }
    hide Holds, Checkpoints;
  }

  lemma ReportTells(h: Hash, input: VerifyInput)
    requires AllInRange(input.entries)
    ensures Tells(h, input, ReportOf(h, input).value)
  {
    var es, cs := input.entries, Checkpoints(input.entries);
    var core := [Check("provenance-head", HeadReached(h, input)),
                 Check("checkpoint-count", |cs| == input.machine.checkpointCount),
                 Check("sequence-contiguous", Contiguous(cs))];
    var x := if input.fork.Some? then ["fork-binding", "fork-parent-head"] else [];
    var y := ["provenance-head", "checkpoint-count", "sequence-contiguous"];
    var z := if cs != [] then ["current-blob-id", "manifest-hash"] else [];
    assert ChecksOf(h, input) == ForkChecks(h, input) + core + AnchorChecks(input.machine, cs);
    assert CheckNames(input) == x + y + z by { LatestPlaced(es); }
    hide Holds, Told, ForkChecks, AnchorChecks, HeadReached, Contiguous, Checkpoints, LatestCheckpoint, InRange, Accepts, CheckNames,
         ChecksOf;
    AcceptsAll(h, input);
    ForkChecksTold(h, input);
    CoreChecksTold(h, input);
    AnchorChecksTold(h, input);
    ToldSum(h, input, ForkChecks(h, input), x, core, y);
    ToldSum(h, input, ForkChecks(h, input) + core, x + y, AnchorChecks(input.machine, cs), z);
    AllTold(h, input, ChecksOf(h, input), CheckNames(input));
  }

  lemma AllTold(h: Hash, input: VerifyInput, checks: seq<Check>, names: seq<string>)
    requires Told(h, input, checks, names)
    ensures AllPassed(checks) <==> forall i :: 0 <= i < |names| ==> Holds(h, input, names[i])
  {
    hide Holds;
  }

  lemma LastNumbered(cs: seq<ProvenanceEntry>, e: ProvenanceEntry)
    ensures Contiguous(cs + [e]) <==> Contiguous(cs) && e.seqNo == |cs|
  {
    if Contiguous(cs + [e]) {
      assert (cs + [e])[|cs|] == e;
      forall i | 0 <= i < |cs| ensures cs[i].seqNo == i { assert (cs + [e])[i] == cs[i]; }
    }
  }

  // ----- the procedure -----

  /** The array `verifyMachine` and `resolveGenesis` push to. */
  class CheckList {
    var checks: seq<Check>

    constructor ()
      ensures checks == []
    {
      checks := [];
    }

    method Push(name: string, passed: bool)
      modifies this
      ensures checks == old(checks) + [Check(name, passed)]
    {
      checks := checks + [Check(name, passed)];
    }
  }

  /** `resolveGenesis`: adds the lineage checks of a fork and tells where to replay from. */
  method ResolveGenesis(h: Hash, input: VerifyInput, list: CheckList) returns (start: Bytes)
    modifies list
    ensures start == StartOf(h, input)
    ensures start == if input.fork.None? then h(input.machineIdBytes) else input.fork.value.childHead
    ensures list.checks == old(list.checks) + ForkChecks(h, input)
    ensures LineageAdded(h, input, old(list.checks), list.checks)
  {
    ForkChecksTold(h, input);
    hide Told;
    if input.fork.None? {
      return GenesisHead(h, input.machineIdBytes);
    }
    var fork := input.fork.value;
    var expected := ForkChildHead(h, fork.parentHead, input.machineIdBytes);
    var bound := BytesEqual(fork.childHead, expected);
    list.Push("fork-binding", bound);
    list.Push("fork-parent-head", exists i | 0 <= i < |fork.parentHeads| :: fork.parentHeads[i] == fork.parentHead);
    return fork.childHead;
  }

  /** No report when an entry does not fit its encoding (the replay throws), else one that accepts
    exactly when everything holds. */
  function ReportOf(h: Hash, input: VerifyInput): Option<Report> {
    if AllInRange(input.entries) then Some(Report(Accepts(h, input), ChecksOf(h, input))) else None
  }

  /** `verifyMachine`. */
  method VerifyMachine(h: Hash, input: VerifyInput) returns (r: Option<Report>)
    ensures r.Some? <==> forall i :: 0 <= i < |input.entries| ==> Encodable(input.entries[i])
    ensures r.Some? ==> Tells(h, input, r.value)
    ensures r == ReportOf(h, input)
  {
    hide Checkpoints, Replay, Contiguous, Accepts, ForkChecks, StartOf, LineageAdded, Encodable, Leads, Tells;
    var list := new CheckList();
    var genesis := ResolveGenesis(h, input, list);
    var replayed := ReplayChain(h, genesis, input.entries);
    if replayed.None? {
      return None;
    }
    var reached := BytesEqual(replayed.value, input.machine.provenanceHead);
    list.Push("provenance-head", reached);
    var checkpoints := Checkpoints(input.entries);
    list.Push("checkpoint-count", |checkpoints| == input.machine.checkpointCount);
    list.Push("sequence-contiguous", Contiguous(checkpoints));
    ghost var core := ForkChecks(h, input)
      + [Check("provenance-head", HeadReached(h, input)),
         Check("checkpoint-count", |checkpoints| == input.machine.checkpointCount),
         Check("sequence-contiguous", Contiguous(checkpoints))];
    assert list.checks == core;
    if checkpoints != [] {
      var last := checkpoints[|checkpoints| - 1];
      list.Push("current-blob-id", last.blobId == input.machine.currentBlobId);
      var same := BytesEqual(last.manifestHash, input.machine.manifestHash);
      list.Push("manifest-hash", same);
    }
    assert list.checks == core + AnchorChecks(input.machine, checkpoints);
    AcceptsAll(h, input);
    ReportTells(h, input);
    return Some(Report(AllPassed(list.checks), list.checks));
  }

  // ----- soundness -----

  function OriginOf(input: VerifyInput): Origin {
    match input.fork
    case None => Fresh(input.machineIdBytes)
    case Some(fork) => Forked(fork.parentHead, input.machineIdBytes)
  }

  lemma StartsAtOrigin(h: Hash, input: VerifyInput)
    requires ForkBound(h, input)
    ensures StartOf(h, input) == h(OriginPreimage(OriginOf(input)))
  {
  }

  /** Everything an input's replay hashes, with its binding checked. */
  ghost function InputPreimages(h: Hash, input: VerifyInput): set<Bytes>
    requires AllInRange(input.entries)
  {
    ChainPreimages(h, OriginOf(input), input.entries)
  }

  /** One head binds the whole history: inputs that reach the same head have histories that agree entry
    by entry up to the boundary, from origins hashed alike, unless one's origin is misread as an entry
    of the other. With ids and parent heads of 32 bytes there is no misreading, and they agree on being
    fresh or forked, on the machine id and on the parent head. */
  lemma OneHeadOneHistory(h: Hash, a: VerifyInput, b: VerifyInput)
    requires AllInRange(a.entries) && AllInRange(b.entries)
    requires ForkBound(h, a) && HeadReached(h, a) && ForkBound(h, b) && HeadReached(h, b)
    requires a.machine.provenanceHead == b.machine.provenanceHead
    ensures Bound(h, OriginOf(a), a.entries, OriginOf(b), b.entries) || Collides(h, InputPreimages(h, a) + InputPreimages(h, b))
    ensures WellSized(OriginOf(a)) && WellSized(OriginOf(b)) ==>
            || (&& a.fork.Some? == b.fork.Some? && a.machineIdBytes == b.machineIdBytes
                && (a.fork.Some? ==> a.fork.value.parentHead == b.fork.value.parentHead)
                && SameHistory(a.entries, b.entries))
            || Collides(h, InputPreimages(h, a) + InputPreimages(h, b))
  {
    hide Bound, SameHistory, OriginPreimage, ChainPreimages, Collides, Replay;
    StartsAtOrigin(h, a);
    StartsAtOrigin(h, b);
    HeadsMeet(h, OriginOf(a), a.entries, OriginOf(b), b.entries);
    if WellSized(OriginOf(a)) && WellSized(OriginOf(b)) {
      HeadBinds(h, OriginOf(a), a.entries, OriginOf(b), b.entries);
    }
  }

  lemma {:induction false} SameCheckpoints(es: seq<ProvenanceEntry>, fs: seq<ProvenanceEntry>)
    requires SameHistory(es, fs)
    ensures SameHistory(Checkpoints(es), Checkpoints(fs))
  {
    if es != [] {
      var n := |es| - 1;
      assert SameHistory(es[..n], fs[..n]);
      SameCheckpoints(es[..n], fs[..n]);
      assert SameUpToBoundary(es[n], fs[n]);
    }
  }

  /** The machine object of a run: its head is the run's head, and its anchors are those of the last
    checkpoint. */
  ghost predicate StateOf(h: Hash, m: Machine, o: Origin, es: seq<ProvenanceEntry>)
    requires AllInRange(es)
  {
    && m.provenanceHead == ChainHead(h, o, es)
    && |Checkpoints(es)| == m.checkpointCount
    && Contiguous(Checkpoints(es))
    && Anchored(m, Checkpoints(es))
  }

  lemma CheckpointsSnoc(es: seq<ProvenanceEntry>, e: ProvenanceEntry)
    ensures Checkpoints(es + [e]) == if e.eventType == EVENT_CHECKPOINT then Checkpoints(es) + [e] else Checkpoints(es)
  {
    assert (es + [e])[..|es|] == es;
  }

  /** One more entry and a machine object moved accordingly: a checkpoint carries the old count as its
    number and becomes the anchor, any other entry moves the head and nothing else. */
  lemma StateExtended(h: Hash, m: Machine, next: Machine, o: Origin, es: seq<ProvenanceEntry>, e: ProvenanceEntry)
    requires AllInRange(es) && InRange(e) && StateOf(h, m, o, es)
    requires next.provenanceHead == EntryHash(h, m.provenanceHead, e)
    requires if e.eventType == EVENT_CHECKPOINT
             then e.seqNo == m.checkpointCount && next.checkpointCount == m.checkpointCount + 1
                  && next.currentBlobId == e.blobId && next.manifestHash == e.manifestHash
             else next.checkpointCount == m.checkpointCount
                  && next.currentBlobId == m.currentBlobId && next.manifestHash == m.manifestHash
    ensures AllInRange(es + [e]) && StateOf(h, next, o, es + [e])
  {
    hide Checkpoints, EntryHash, InRange, Replay;
    CheckpointsSnoc(es, e);
    var fs := es + [e];
    assert fs[..|es|] == es && fs[..|es| + 1] == fs;
    ExtendReplay(h, h(OriginPreimage(o)), fs, |es|);
  }

  function LastCheckpoint(es: seq<ProvenanceEntry>): Option<ProvenanceEntry> {
    var cs := Checkpoints(es);
    if cs == [] then None else Some(cs[|cs| - 1])
  }

  lemma {:induction false} CheckpointsConcat(a: seq<ProvenanceEntry>, b: seq<ProvenanceEntry>)
    ensures Checkpoints(a + b) == Checkpoints(a) + Checkpoints(b)
  {
    if b == [] {
      assert a + b == a;
    } else {
      hide Checkpoints;
      var front, e := b[..|b| - 1], b[|b| - 1];
      CheckpointsConcat(a, front);
      CheckpointsSnoc(a + front, e);
      CheckpointsSnoc(front, e);
      assert b == front + [e];
      Assoc(a, front, [e]);
      Assoc(Checkpoints(a), Checkpoints(front), [e]);
    }
  }

  /** Accepted entries that have the checkpoints of a run, up to the boundary, have its last checkpoint
    exactly: the machine's manifest hash closes the boundary. */
  lemma SameLastCheckpoint(m: Machine, es: seq<ProvenanceEntry>, fs: seq<ProvenanceEntry>)
    requires SameHistory(Checkpoints(es), Checkpoints(fs))
    requires Anchored(m, Checkpoints(es)) && Anchored(m, Checkpoints(fs))
    ensures LastCheckpoint(es) == LastCheckpoint(fs)
  {
    var n := |Checkpoints(es)|;
    if n > 0 {
      var a, b := Checkpoints(es)[n - 1], Checkpoints(fs)[n - 1];
      assert SameUpToBoundary(a, b);
      assert Middle(a)[|a.manifestHash|..] == a.payloadHash && Middle(b)[|a.manifestHash|..] == b.payloadHash;
    }
  }

  /** The entries are what a run did after its entry `k`, which the fork's origin is misread as; up to
    there the run had no checkpoint. */
  ghost predicate IsTail(h: Hash, input: VerifyInput, o: Origin, es: seq<ProvenanceEntry>)
    requires AllInRange(es)
  {
    exists k: nat :: k < |es| && MisreadAt(h, o, es, OriginOf(input), input.entries, k) && Checkpoints(es[..k + 1]) == []
  }

  lemma TailCheckpoints(h: Hash, input: VerifyInput, o: Origin, es: seq<ProvenanceEntry>, k: nat)
    requires AllInRange(es) && k < |es| && MisreadAt(h, o, es, OriginOf(input), input.entries, k)
    requires |Checkpoints(input.entries)| == |Checkpoints(es)|
    ensures Checkpoints(es[..k + 1]) == [] && SameHistory(Checkpoints(input.entries), Checkpoints(es))
  {
    hide OriginPreimage, EntryPreimage, InRange, SameUpToBoundary, Checkpoints;
    SameCheckpoints(input.entries, es[k + 1..]);
    CheckpointsConcat(es[..k + 1], es[k + 1..]);
    assert es == es[..k + 1] + es[k + 1..];
    assert Checkpoints(es) == Checkpoints(es[k + 1..]);
  }

  /** Soundness against any entries at all: what is accepted for a run's machine is the run, or a tail of
    it behind a misread origin, which a parent head of 32 bytes rules out. The latest checkpoint is
    pinned exactly in every case, boundary included. */
  lemma AcceptedIsTheRun(h: Hash, input: VerifyInput, o: Origin, es: seq<ProvenanceEntry>)
    requires AllInRange(input.entries) && AllInRange(es) && WellSized(o)
    requires StateOf(h, input.machine, o, es)
    requires Accepts(h, input)
    ensures || (&& OriginPreimage(OriginOf(input)) == OriginPreimage(o)
                && (|input.machineIdBytes| == 32 ==> OriginOf(input) == o)
                && SameHistory(input.entries, es))
            || IsTail(h, input, o, es)
            || Collides(h, InputPreimages(h, input) + ChainPreimages(h, o, es))
    ensures LastCheckpoint(input.entries) == LastCheckpoint(es)
            || Collides(h, InputPreimages(h, input) + ChainPreimages(h, o, es))
    ensures WellSized(OriginOf(input)) ==>
              || (OriginOf(input) == o && SameHistory(input.entries, es))
              || Collides(h, InputPreimages(h, input) + ChainPreimages(h, o, es))
  {
    hide Replay, InRange, Checkpoints, Collides, ChainPreimages, SameHistory, OriginPreimage, MisreadAt, Anchored, LastCheckpoint;
    StartsAtOrigin(h, input);
    var q := OriginOf(input);
    HeadsMeet(h, o, es, q, input.entries);
    SetsSwap(ChainPreimages(h, o, es), InputPreimages(h, input));
    SizedNotMisread(h, q, input.entries, o, es);
    if SameHistory(es, input.entries) && OriginPreimage(o) == OriginPreimage(q) {
      SameHistorySymmetric(es, input.entries);
      SameCheckpoints(input.entries, es);
      SameLastCheckpoint(input.machine, input.entries, es);
      if |q.id| == 32 {
        OriginAgree(q, o);
      }
    } else if Misread(h, o, es, q, input.entries) {
      var k: nat :| k < |es| && MisreadAt(h, o, es, q, input.entries, k);
      TailCheckpoints(h, input, o, es, k);
      SameLastCheckpoint(input.machine, input.entries, es);
    }
    if WellSized(q) {
      SizedNotMisread(h, o, es, q, input.entries);
      TailIsMisread(h, input, o, es);
    }
  }

  lemma SetsSwap(a: set<Bytes>, b: set<Bytes>)
    ensures a + b == b + a
  {
  }

  lemma SameHistorySymmetric(es: seq<ProvenanceEntry>, fs: seq<ProvenanceEntry>)
    requires SameHistory(es, fs)
    ensures SameHistory(fs, es)
  {
    forall i | 0 <= i < |fs| ensures SameUpToBoundary(fs[i], es[i]) {
      assert SameUpToBoundary(es[i], fs[i]);
    }
  }

  lemma TailIsMisread(h: Hash, input: VerifyInput, o: Origin, es: seq<ProvenanceEntry>)
    requires AllInRange(es)
    ensures IsTail(h, input, o, es) ==> Misread(h, o, es, OriginOf(input), input.entries)
  {
    hide MisreadAt, Checkpoints;
  }

  /** The tail is not an idle case: a run of one grant, and an accepted input without entries whose
    recorded parent head is 80 bytes long. */
  lemma TailAccepted(h: Hash, m: Machine) returns (input: VerifyInput, o: Origin, es: seq<ProvenanceEntry>)
    ensures AllInRange(es) && WellSized(o) && AllInRange(input.entries)
    ensures StateOf(h, input.machine, o, es) && Accepts(h, input)
    ensures IsTail(h, input, o, es) && !SameHistory(input.entries, es)
  {
    var id: Bytes := seq(32, _ => 0);
    var payload: Bytes := [EVENT_FORK] + seq(24, _ => 0);
    o := Fresh(id);
    es := [ProvenanceEntry(0, EVENT_GRANT, 0, [], payload, 0)];
    var p := EntryPreimage(ChainHead(h, o, es[..0]), es[0]);
    var parentHead := p[..|p| - 33];
    GrantPreimage(ChainHead(h, o, es[..0]), payload, id);
    input := VerifyInput(m.(provenanceHead := h(p), checkpointCount := 0), id, [],
                         Some(ForkProof(h(p), parentHead, [parentHead])));
    assert Checkpoints(es[..0]) == [] && es[..0 + 1] == es && Checkpoints(es) == [];
    assert MisreadAt(h, o, es, OriginOf(input), input.entries, 0);
  }

  lemma GrantPreimage(prev: Digest, payload: Bytes, id: Bytes)
    requires id == seq(32, _ => 0) && payload == [EVENT_FORK] + seq(24, _ => 0)
    ensures var e := ProvenanceEntry(0, EVENT_GRANT, 0, [], payload, 0);
            InRange(e) && |EntryPreimage(prev, e)| >= 33
            && EntryPreimage(prev, e) == EntryPreimage(prev, e)[..|EntryPreimage(prev, e)| - 33] + [EVENT_FORK] + id
  {
    var e := ProvenanceEntry(0, EVENT_GRANT, 0, [], payload, 0);
    var p := EntryPreimage(prev, e);
    PreimageParts(prev, e);
    ZerosLittleEndian(8);
    assert Middle(e) == payload;
    var n := |p| - 33;
    forall i | n <= i < |p| ensures p[i] == ([EVENT_FORK] + id)[i - n] {
      assert i < 73 + |payload| ==> p[i] == p[73..73 + |payload|][i - 73];
      assert i >= 73 + |payload| ==> p[i] == p[73 + |payload|..][i - 73 - |payload|];
    }
    assert p[n..] == [EVENT_FORK] + id;
  }

  lemma {:induction false} ZerosLittleEndian(width: nat)
    ensures LittleEndian(0, width) == seq(width, _ => 0)
  {
    if width > 0 {
      ZerosLittleEndian(width - 1);
    }
  }

  /** And a run's own entries are accepted, if the fork proof is genuine. */
  lemma RunIsAccepted(h: Hash, input: VerifyInput, o: Origin, es: seq<ProvenanceEntry>)
    requires AllInRange(es) && input.entries == es && OriginOf(input) == o
    requires StateOf(h, input.machine, o, es)
    requires ForkBound(h, input) && ParentHeadKnown(input)
    ensures Accepts(h, input)
  {
    StartsAtOrigin(h, input);
  }

  /** Leaving out any one link of a run is rejected, whatever is done with the others, unless what is left
    is a tail behind a misread origin; with a parent head of 32 bytes it is always rejected. */
  lemma DroppedLinkRejected(h: Hash, input: VerifyInput, o: Origin, es: seq<ProvenanceEntry>,
                            items: seq<LinkedEntry>, k: nat)
    requires AllInRange(es) && k < |es| && AllInRange(input.entries) && WellSized(o)
    requires StateOf(h, input.machine, o, es)
    requires input.entries == Ordered(StartOf(h, input), items)
    requires forall l :: l in items ==> exists i: nat :: i < |es| && i != k && l == LinksOf(h, o, es)[i]
    ensures || !Accepts(h, input)
            || (IsTail(h, input, o, es) && !WellSized(OriginOf(input)))
            || Collides(h, InputPreimages(h, input) + ChainPreimages(h, o, es))
  {
    if Accepts(h, input) {
      hide Ordered, LinksOf, Checkpoints, Replay, Collides, ChainPreimages, OriginPreimage, InRange, IsTail, StateOf, Accepts, EntryHash;
      AcceptedIsTheRun(h, input, o, es);
      StartsAtOrigin(h, input);
      MissingLinkShortens(h, o, es, items, k);
    }
  }

  // ----- lineage -----

  /** `fork-parent-head` passes exactly when the recorded head is the replay of some prefix of the
    parent's history, and the lengthening of that history cannot make it fail. */
  lemma ParentHeadExact(h: Hash, input: VerifyInput, start: Bytes, es: seq<ProvenanceEntry>, fs: seq<ProvenanceEntry>)
    requires AllInRange(es + fs) && input.fork.Some?
    requires AllInRange(es) && input.fork.value.parentHeads == Heads(h, start, es)
    ensures ParentHeadKnown(input) <==>
            exists k: nat :: k <= |es| && input.fork.value.parentHead == Replay(h, start, es[..k])
    ensures ParentHeadKnown(input) ==>
            ParentHeadKnown(input.(fork := Some(input.fork.value.(parentHeads := Heads(h, start, es + fs)))))
  {
    hide Replay;
    var p := input.fork.value.parentHead;
    if p in Heads(h, start, es) {
      var k: nat :| k <= |es| && Heads(h, start, es)[k] == p;
      assert (es + fs)[..k] == es[..k];
      assert Heads(h, start, es + fs)[k] == p;
    }
    if k: nat :| k <= |es| && p == Replay(h, start, es[..k]) {
      assert Heads(h, start, es)[k] == p;
    }
  }
}
