/** Anchoring an evidence file against the chain: `exportEvidence` and `anchorEvidence` in `readers.ts`. */
module Anchoring {
  import opened Bytes
  import opened Provenance
  import opened Verifier
  import opened Chain
  import opened Readers
  import opened ChainVerifies
  import opened Evidences

  /** `exportEvidence`; nothing when gathering or rehashing throws. */
  method ExportEvidence(h: Hash, client: Client, machineId: string, meta: Meta) returns (r: Option<Evidence>)
    ensures var g := Gather(h, client, machineId);
            && (r.Some? <==> g.Gathered? && forall i :: 0 <= i < |g.input.entries| ==> Encodable(g.input.entries[i]))
            && (r.Some? ==> RecordIs(h, g.input, meta, r.value))
    ensures r == Exported(h, client, machineId, meta)
  {
    ghost var g := Gather(h, client, machineId);
    if g.Gathered? {
      ToEvidenceIs(h, g.input, meta);
    }
    hide Gather, ToEvidence, RecordIs, Encodable, GatheredIs;
    var gathered := GatherVerifyInput(h, client, machineId);
    match gathered {
      case Gathered(input) => return ToEvidence(h, input, meta);
      case _ => return None;
    }
  }

  function Exported(h: Hash, client: Client, machineId: string, meta: Meta): Option<Evidence> {
    match Gather(h, client, machineId)
    case Gathered(input) => ToEvidence(h, input, meta)
    case _ => None
  }

  function AnchorMeta(ev: Evidence, packageId: string): Meta {
    Meta(ev.network, packageId, 0)
  }

  function ComparisonChecks(compared: Comparison): seq<Check> {
    [Check("anchor-machine", compared.machine), Check("anchor-provenance", compared.entries), Check("anchor-lineage", compared.fork)]
  }

  /** `anchorEvidence`: reads the file's machine again from the node and compares, part by part. */
  method AnchorEvidence(h: Hash, client: Client, ev: Evidence, packageId: string, reader: Option<BlobReader>)
    returns (r: Option<seq<Check>>)
    ensures match Gather(h, client, ev.machine.id)
            case Failed => r == None
            case ForkEventMissing => r == Some([Check("anchor-lineage", false)])
            case Gathered(input) =>
              var onChain := ToEvidence(h, input, AnchorMeta(ev, packageId));
              r == match onChain
                   case None => None
                   case Some(record) =>
                     var checked := reader.Some? && input.machine.currentBlobId != 0;
                     var blob := if checked then reader.value(input.machine.currentBlobId) else None;
                     var available := blob.Some? && |blob.value| > 0;
                     Some([Check("anchor-machine", record.machine == ev.machine), Check("anchor-provenance", record.entries == ev.entries),
                           Check("anchor-lineage", record.fork == ev.fork)]
                          + if checked then [Check("blob-available", available)] else [])
  {
    hide Gather, ToEvidence, GatheredIs;
    var gathered := GatherVerifyInput(h, client, ev.machine.id);
    match gathered {
      case Failed => return None;
      case ForkEventMissing => return Some([Check("anchor-lineage", false)]);
      case Gathered(input) =>
        var onChain := ToEvidence(h, input, Meta(ev.network, packageId, 0));
        if onChain.None? {
          return None;
        }
        var compared := CompareEvidence(onChain.value, ev);
        var checks := [Check("anchor-machine", compared.machine), Check("anchor-provenance", compared.entries),
                       Check("anchor-lineage", compared.fork)];
        assert checks == ComparisonChecks(compared) + [];
        if reader.Some? && input.machine.currentBlobId != 0 {
          var available := BlobAvailable(reader.value, input.machine.currentBlobId);
          checks := checks + [Check("blob-available", available)];
        }
        return Some(checks);
    }
  }

  /** What the three anchor checks passing means. */
  ghost predicate AnchorsTo(h: Hash, client: Client, ev: Evidence, packageId: string) {
    var g := Gather(h, client, ev.machine.id);
    && g.Gathered? && AllInRange(g.input.entries)
    && AllPassed(ComparisonChecks(CompareEvidence(ToEvidence(h, g.input, AnchorMeta(ev, packageId)).value, ev)))
  }

  lemma GatheredId(h: Hash, client: Client, machineId: string)
    requires Gather(h, client, machineId).Gathered?
    ensures var input := Gather(h, client, machineId).input;
            input.machine.id == machineId && FromHexText(machineId) == Some(input.machineIdBytes)
  {
  }

  /** Offline verification of an anchored file of this schema says what verifying the chain itself says. */
  lemma AnchoredVerdict(h: Hash, client: Client, ev: Evidence, packageId: string)
    requires ev.schemaVersion == SCHEMA_VERSION && AnchorsTo(h, client, ev, packageId)
    ensures FromEvidence(ev) == Some(Gather(h, client, ev.machine.id).input)
  {
    hide Gather, FromEvidence;
    var input := Gather(h, client, ev.machine.id).input;
    GatheredId(h, client, ev.machine.id);
    var c := CompareEvidence(ToEvidence(h, input, AnchorMeta(ev, packageId)).value, ev);
    var checks := ComparisonChecks(c);
    assert checks[0].passed && checks[1].passed && checks[2].passed;
    MatchingFileSameVerdict(h, input, AnchorMeta(ev, packageId), ev);
  }

  /** An anchored file is the machine's true history, and it verifies. */
  lemma AnchoredIsTrue(h: Hash, calls: seq<Call>, client: Client, id: Id, ev: Evidence, packageId: string)
    requires Serves(client, Run(h, calls)) && id in Run(h, calls).machines
    requires ev.schemaVersion == SCHEMA_VERSION && ev.machine.id == IdText(id) && AnchorsTo(h, client, ev, packageId)
    ensures var input := FromEvidence(ev);
            || (&& input.Some? && Genuine(h, Run(h, calls), id, input.value)
                && AllInRange(input.value.entries) && Accepts(h, input.value))
            || Collides(h, HashedFor(h, Run(h, calls).log, id))
  {
    hide Run, Gather, Genuine, Accepts, HashedFor, FromEvidence, Serves, AnchorsTo;
    AnchoredVerdict(h, client, ev, packageId);
    EveryMachineVerifies(h, calls, client, id);
  }

  /** An anchored file that verifies, on a node that is honest about one object only: the file is the real
    history, or its tail behind a misread parent head, with the real latest checkpoint in any case. */
  lemma AnchoredLiesCaught(h: Hash, calls: seq<Call>, client: Client, id: Id, ev: Evidence, packageId: string)
    requires id in Run(h, calls).machines && ServesObject(client, Run(h, calls), id)
    requires ev.schemaVersion == SCHEMA_VERSION && ev.machine.id == IdText(id) && AnchorsTo(h, client, ev, packageId)
    ensures FromEvidence(ev).Some? && AllInRange(FromEvidence(ev).value.entries) && AllInRange(History(Run(h, calls).log, id))
    ensures var log, input := Run(h, calls).log, FromEvidence(ev).value;
            Accepts(h, input) ==>
            || (&& LastCheckpoint(input.entries) == LastCheckpoint(History(log, id))
                && (|| (OriginOf(input) == OriginIn(log, id) && SameHistory(input.entries, History(log, id)))
                    || (&& IsTail(h, input, OriginIn(log, id), History(log, id))
                        && input.fork.Some? && |input.fork.value.parentHead| != 32)))
            || Collides(h, InputPreimages(h, input) + ChainPreimages(h, OriginIn(log, id), History(log, id)))
  {
    hide Run, Gather, Accepts, FromEvidence, History, ServesObject, AnchorsTo, SameHistory, LastCheckpoint, IsTail, ChainPreimages,
         InputPreimages, Collides, OriginOf, OriginIn, IdText;
    AnchoredVerdict(h, client, ev, packageId);
    AnchoredRange(h, client, ev, packageId);
    HistoryInRange(Run(h, calls).log, id);
    if Accepts(h, FromEvidence(ev).value) {
      LyingEventsCaught(h, calls, client, id);
    }
  }

  lemma AnchoredRange(h: Hash, client: Client, ev: Evidence, packageId: string)
    requires AnchorsTo(h, client, ev, packageId)
    ensures Gather(h, client, ev.machine.id).Gathered? && AllInRange(Gather(h, client, ev.machine.id).input.entries)
  {
  }

  /** An export anchors against the node it was made from; its metadata plays no part. */
  lemma ExportAnchors(h: Hash, client: Client, machineId: string, meta: Meta, packageId: string)
    requires Exported(h, client, machineId, meta).Some?
    ensures var ev := Exported(h, client, machineId, meta).value;
            ev.schemaVersion == SCHEMA_VERSION && ev.machine.id == machineId && AnchorsTo(h, client, ev, packageId)
  {
    hide Gather;
    GatheredId(h, client, machineId);
    var input := Gather(h, client, machineId).input;
    var ev := Exported(h, client, machineId, meta).value;
    assert AllInRange(input.entries);
    assert CompareEvidence(ToEvidence(h, input, AnchorMeta(ev, packageId)).value, ev) == Comparison(true, true, true);
  }
}
