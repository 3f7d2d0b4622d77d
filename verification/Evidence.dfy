/** The portable record of a machine's history: `evidence.ts`. */
module Evidences {
  import opened Bytes
  import opened Decimal
  import opened Provenance
  import opened Verifier

  const SCHEMA_VERSION: int := 1

  datatype EvidenceEntry = EvidenceEntry(
    seqNo: string, eventType: int, blobId: string, manifestHash: string, payloadHash: string,
    timestampMs: string, entryHash: string)

  datatype EvidenceMachine = EvidenceMachine(
    id: string, owner: string, currentBlobId: string, manifestHash: string, provenanceHead: string,
    checkpointCount: string, parent: Option<string>, policyId: string, createdAtEpoch: int)

  datatype EvidenceFork = EvidenceFork(parentId: string, parentHead: string, childHead: string, parentHeads: seq<string>)

  datatype Evidence = Evidence(
    schemaVersion: int, network: string, packageId: string, exportedAtMs: string,
    machine: EvidenceMachine, entries: seq<EvidenceEntry>, fork: Option<EvidenceFork>)

  datatype Meta = Meta(network: string, packageId: string, exportedAtMs: int)

  // ----- numbers as text -----

  predicate IsSpace(c: char) {
    || '\t' <= c <= '\r' || c == ' ' || c == '\U{A0}' || c == '\U{1680}' || '\U{2000}' <= c <= '\U{200A}'
    || c == '\U{2028}' || c == '\U{2029}' || c == '\U{202F}' || c == '\U{205F}' || c == '\U{3000}' || c == '\U{FEFF}'
  }

  function Trim(s: string): string {
    if s == "" then s
    else if IsSpace(s[0]) then Trim(s[1..])
    else if IsSpace(s[|s| - 1]) then Trim(s[..|s| - 1])
    else s
  }

  function RadixValue(s: string, base: nat): Option<nat> {
    if s == "" then Some(0)
    else
      match (RadixValue(s[..|s| - 1], base), HexValue(s[|s| - 1]))
      case (Some(high), Some(low)) => if low < base then Some(high * base + low) else None
      case _ => None
  }

  /** `BigInt(text)`: spaces around it are dropped, nothing is zero, `0x`, `0o` and `0b` change the base
    and take no sign; any other text throws. */
  function BigIntOf(s: string): Option<int> {
    var t := Trim(s);
    if t == "" then Some(0)
    else if |t| > 2 && t[0] == '0' && t[1] in "xX" then RadixValue(t[2..], 16)
    else if |t| > 2 && t[0] == '0' && t[1] in "oO" then RadixValue(t[2..], 8)
    else if |t| > 2 && t[0] == '0' && t[1] in "bB" then RadixValue(t[2..], 2)
    else if |t| > 1 && t[0] == '+' then (if IsDigit(t[1]) then ParseInt(t[1..]) else None)
    else ParseInt(t)
  }

  lemma BigIntRoundTrip(x: int)
    ensures BigIntOf(ShowInt(x)) == Some(x)
  {
    IntRoundTrip(x);
    var t := ShowInt(x);
    assert t[|t| - 1] != '-' && !IsSpace(t[0]) && !IsSpace(t[|t| - 1]) by {
      var d := Digits(if x < 0 then -x else x);
      assert IsDigit(d[|d| - 1]) && IsDigit(d[0]);
    }
    assert Trim(t) == t;
  }

  lemma TrimPlain(s: string)
    requires s != "" && !IsSpace(s[0]) && !IsSpace(s[|s| - 1])
    ensures Trim(s) == s
  {
  }

  /** What decimal text reads as, with either sign or none. */
  lemma BigIntForms(d: string)
    requires d != "" && AllDigits(d)
    ensures BigIntOf(d) == Some(PlaceValue(d)) && BigIntOf("+" + d) == Some(PlaceValue(d))
    ensures BigIntOf("-" + d) == Some(-(PlaceValue(d) as int))
  {
    DigitsValueIs(d);
    assert IsDigit(d[0]) && IsDigit(d[|d| - 1]) && (|d| > 1 ==> IsDigit(d[1]));
    TrimPlain(d);
    TrimPlain("-" + d);
    TrimPlain("+" + d);
    hide DigitsValue, PlaceValue, Trim, RadixValue;
    assert ("-" + d)[1..] == d && ("+" + d)[1..] == d;
  }

  /** No text is zero, and spaces in front do not count. */
  lemma BigIntSpaces(c: char, s: string)
    requires c in [' ', '\t', '\n', '\r']
    ensures BigIntOf("") == Some(0) && BigIntOf([c] + s) == BigIntOf(s)
  {
    assert ([c] + s)[1..] == s && IsSpace(c);
    assert Trim([c] + s) == Trim(s);
  }

  // ----- to and from a record -----

  function EntryText(e: ProvenanceEntry, head: Bytes): EvidenceEntry {
    EvidenceEntry(ShowInt(e.seqNo), e.eventType, ShowInt(e.blobId), ToHex(e.manifestHash), ToHex(e.payloadHash),
                  ShowInt(e.timestampMs), ToHex(head))
  }

  function MachineText(m: Machine): EvidenceMachine {
    EvidenceMachine(m.id, m.owner, ShowInt(m.currentBlobId), ToHex(m.manifestHash), ToHex(m.provenanceHead),
                    ShowInt(m.checkpointCount), m.parent, m.policyId, m.createdAtEpoch)
  }

  function ForkText(parent: Option<string>, f: ForkProof): EvidenceFork {
    EvidenceFork(match parent case None => "" case Some(p) => p, ToHex(f.parentHead), ToHex(f.childHead),
                 seq(|f.parentHeads|, i requires 0 <= i < |f.parentHeads| => ToHex(f.parentHeads[i])))
  }

  /** `toEvidence`: nothing when an entry does not fit its encoding, since its head cannot be computed. */
  function ToEvidence(h: Hash, input: VerifyInput, meta: Meta): Option<Evidence> {
    if !AllInRange(input.entries) then None
    else
      var heads := Heads(h, StartOf(h, input), input.entries);
      Some(Evidence(
             SCHEMA_VERSION, meta.network, meta.packageId, ShowInt(meta.exportedAtMs),
             MachineText(input.machine),
             seq(|input.entries|, i requires 0 <= i < |input.entries| => EntryText(input.entries[i], heads[i + 1])),
             match input.fork case None => None case Some(f) => Some(ForkText(input.machine.parent, f))))
  }

  function MachineOf(m: EvidenceMachine): Option<Machine> {
    match (BigIntOf(m.currentBlobId), FromHexText(m.manifestHash), FromHexText(m.provenanceHead), BigIntOf(m.checkpointCount))
    case (Some(blobId), Some(manifestHash), Some(head), Some(count)) =>
      Some(Machine(m.id, m.owner, blobId, manifestHash, head, count, m.parent, m.policyId, m.createdAtEpoch))
    case _ => None
  }

  /** The recorded entry hash is not read back: it is always computed again. */
  function EntryOf(e: EvidenceEntry): Option<ProvenanceEntry> {
    match (BigIntOf(e.seqNo), BigIntOf(e.blobId), FromHexText(e.manifestHash), FromHexText(e.payloadHash), BigIntOf(e.timestampMs))
    case (Some(seqNo), Some(blobId), Some(manifestHash), Some(payloadHash), Some(timestampMs)) =>
      Some(ProvenanceEntry(seqNo, e.eventType, blobId, manifestHash, payloadHash, timestampMs))
    case _ => None
  }

  function EntriesOf(es: seq<EvidenceEntry>): Option<seq<ProvenanceEntry>> {
    if es == [] then Some([])
    else
      match (EntryOf(es[0]), EntriesOf(es[1..]))
      case (Some(e), Some(rest)) => Some([e] + rest)
      case _ => None
  }

  function HeadsOf(texts: seq<string>): Option<seq<Bytes>> {
    if texts == [] then Some([])
    else
      match (FromHexText(texts[0]), HeadsOf(texts[1..]))
      case (Some(b), Some(rest)) => Some([b] + rest)
      case _ => None
  }

  function ForkOfText(f: Option<EvidenceFork>): Option<Option<ForkProof>> {
    match f
    case None => Some(None)
    case Some(fork) =>
      match (FromHexText(fork.childHead), FromHexText(fork.parentHead), HeadsOf(fork.parentHeads))
      case (Some(childHead), Some(parentHead), Some(parentHeads)) => Some(Some(ForkProof(childHead, parentHead, parentHeads)))
      case _ => None
  }

  /** `fromEvidence`: another schema version or text that does not parse is an error. */
  function FromEvidence(ev: Evidence): Option<VerifyInput> {
    if ev.schemaVersion != SCHEMA_VERSION then None
    else
      match (MachineOf(ev.machine), FromHexText(ev.machine.id), EntriesOf(ev.entries), ForkOfText(ev.fork))
      case (Some(machine), Some(id), Some(entries), Some(fork)) => Some(VerifyInput(machine, id, entries, fork))
      case _ => None
  }

  // ----- a record, field by field -----

  /** What a record holds of an input: each number in decimal, each byte string in hex, and for each entry the
    head after it. */
  ghost predicate RecordIs(h: Hash, input: VerifyInput, meta: Meta, ev: Evidence) {
    && ev.schemaVersion == 1 && ev.network == meta.network && ev.packageId == meta.packageId
    && ev.exportedAtMs == ShowInt(meta.exportedAtMs)
    && MachineIs(input.machine, ev.machine)
    && (ev.fork.Some? <==> input.fork.Some?)
    && (input.fork.Some? ==> ForkRecordIs(input.machine.parent, input.fork.value, ev.fork.value))
    && |ev.entries| == |input.entries|
    && (forall i :: 0 <= i < |input.entries| ==> EntryIs(input.entries[i], ev.entries[i]))
    && HashesAre(h, if input.fork.Some? then input.fork.value.childHead else h(input.machineIdBytes), input.entries, ev.entries)
  }

  ghost predicate HashesAre(h: Hash, start: Bytes, es: seq<ProvenanceEntry>, rs: seq<EvidenceEntry>)
    requires |rs| == |es|
  {
    exists heads :: ChainOfHeads(h, start, es, heads) && forall i :: 0 <= i < |es| ==> rs[i].entryHash == ToHex(heads[i + 1])
  }

  ghost predicate MachineIs(m: Machine, r: EvidenceMachine) {
    && r.id == m.id && r.owner == m.owner && r.currentBlobId == ShowInt(m.currentBlobId)
    && r.manifestHash == ToHex(m.manifestHash) && r.provenanceHead == ToHex(m.provenanceHead)
    && r.checkpointCount == ShowInt(m.checkpointCount) && r.parent == m.parent && r.policyId == m.policyId
    && r.createdAtEpoch == m.createdAtEpoch
  }

  ghost predicate EntryIs(e: ProvenanceEntry, r: EvidenceEntry) {
    && r.seqNo == ShowInt(e.seqNo) && r.eventType == e.eventType && r.blobId == ShowInt(e.blobId)
    && r.manifestHash == ToHex(e.manifestHash) && r.payloadHash == ToHex(e.payloadHash)
    && r.timestampMs == ShowInt(e.timestampMs)
  }

  ghost predicate ForkRecordIs(parent: Option<string>, f: ForkProof, r: EvidenceFork) {
    && (parent.Some? ==> r.parentId == parent.value) && (parent.None? ==> r.parentId == "")
    && r.parentHead == ToHex(f.parentHead) && r.childHead == ToHex(f.childHead)
    && |r.parentHeads| == |f.parentHeads|
    && forall i :: 0 <= i < |f.parentHeads| ==> r.parentHeads[i] == ToHex(f.parentHeads[i])
  }

  lemma ToEvidenceIs(h: Hash, input: VerifyInput, meta: Meta)
    ensures ToEvidence(h, input, meta).Some? <==> forall i :: 0 <= i < |input.entries| ==> Encodable(input.entries[i])
    ensures ToEvidence(h, input, meta).Some? ==> RecordIs(h, input, meta, ToEvidence(h, input, meta).value)
  {
    AllEncodable(input.entries);
    hide Encodable, ShowInt, ToHex, Replay, InRange;
    if AllInRange(input.entries) {
      var heads := Heads(h, StartOf(h, input), input.entries);
      HeadsAreTheChain(h, StartOf(h, input), input.entries, heads);
      hide ChainOfHeads, Heads;
      var ev := ToEvidence(h, input, meta).value;
      assert forall i :: 0 <= i < |input.entries| ==> ev.entries[i].entryHash == ToHex(heads[i + 1]);
    }
  }

  /** The last entry hash of a record that verifies is the machine's own head. */
  lemma LastHashIsHead(h: Hash, input: VerifyInput, meta: Meta, ev: Evidence)
    requires RecordIs(h, input, meta, ev) && input.entries != []
    requires Holds(h, input, "provenance-head")
    ensures ev.entries[|ev.entries| - 1].entryHash == ev.machine.provenanceHead == ToHex(input.machine.provenanceHead)
  {
    NamesDiffer("provenance-head");
    var es, start := input.entries, if input.fork.Some? then input.fork.value.childHead else h(input.machineIdBytes);
    var heads :| ChainOfHeads(h, start, es, heads) && forall i :: 0 <= i < |es| ==> ev.entries[i].entryHash == ToHex(heads[i + 1]);
    assert Leads(h, start, es, input.machine.provenanceHead);
    hide Holds, ToHex, ShowInt, HashedFrom;
    OneChain(h, start, es, heads, input.machine.provenanceHead);
  }

  /** What a record reads as: exactly the input whose fields its texts spell, if it has the one known
    schema. */
  ghost predicate ReadsAs(ev: Evidence, input: VerifyInput) {
    && ev.schemaVersion == 1
    && FromHexText(ev.machine.id) == Some(input.machineIdBytes)
    && MachineReads(ev.machine, input.machine)
    && |input.entries| == |ev.entries|
    && (forall i :: 0 <= i < |ev.entries| ==> EntryReads(ev.entries[i], input.entries[i]))
    && (input.fork.Some? <==> ev.fork.Some?)
    && (ev.fork.Some? ==> ForkReads(ev.fork.value, input.fork.value))
  }

  ghost predicate MachineReads(r: EvidenceMachine, m: Machine) {
    && m.id == r.id && m.owner == r.owner && BigIntOf(r.currentBlobId) == Some(m.currentBlobId)
    && FromHexText(r.manifestHash) == Some(m.manifestHash) && FromHexText(r.provenanceHead) == Some(m.provenanceHead)
    && BigIntOf(r.checkpointCount) == Some(m.checkpointCount) && m.parent == r.parent && m.policyId == r.policyId
    && m.createdAtEpoch == r.createdAtEpoch
  }

  ghost predicate EntryReads(r: EvidenceEntry, e: ProvenanceEntry) {
    && BigIntOf(r.seqNo) == Some(e.seqNo) && e.eventType == r.eventType && BigIntOf(r.blobId) == Some(e.blobId)
    && FromHexText(r.manifestHash) == Some(e.manifestHash) && FromHexText(r.payloadHash) == Some(e.payloadHash)
    && BigIntOf(r.timestampMs) == Some(e.timestampMs)
  }

  ghost predicate ForkReads(r: EvidenceFork, f: ForkProof) {
    && FromHexText(r.childHead) == Some(f.childHead) && FromHexText(r.parentHead) == Some(f.parentHead)
    && HeadsRead(r.parentHeads, f.parentHeads)
  }

  ghost predicate HeadsRead(texts: seq<string>, heads: seq<Bytes>) {
    |heads| == |texts| && forall i :: 0 <= i < |texts| ==> FromHexText(texts[i]) == Some(heads[i])
  }

  lemma {:induction false} HeadsOfReads(texts: seq<string>, heads: seq<Bytes>)
    ensures HeadsOf(texts) == Some(heads) <==> HeadsRead(texts, heads)
  {
    hide FromHexText;
    if texts != [] && heads != [] {
      HeadsOfReads(texts[1..], heads[1..]);
      assert heads == [heads[0]] + heads[1..];
      HeadsReadStep(texts, heads);
    }
  }

  lemma HeadsReadStep(texts: seq<string>, heads: seq<Bytes>)
    requires texts != [] && heads != []
    ensures HeadsRead(texts, heads) <==> FromHexText(texts[0]) == Some(heads[0]) && HeadsRead(texts[1..], heads[1..])
  {
    hide FromHexText;
    if HeadsRead(texts[1..], heads[1..]) && FromHexText(texts[0]) == Some(heads[0]) {
      forall i | 0 <= i < |texts| ensures FromHexText(texts[i]) == Some(heads[i]) {
        assert i > 0 ==> texts[1..][i - 1] == texts[i] && heads[1..][i - 1] == heads[i];
      }
    }
  }

  ghost predicate EntriesRead(rs: seq<EvidenceEntry>, es: seq<ProvenanceEntry>) {
    |es| == |rs| && forall i :: 0 <= i < |rs| ==> EntryReads(rs[i], es[i])
  }

  lemma {:induction false} EntriesOfReads(rs: seq<EvidenceEntry>, es: seq<ProvenanceEntry>)
    ensures EntriesOf(rs) == Some(es) <==> EntriesRead(rs, es)
  {
    if rs != [] && es != [] {
      EntriesOfReads(rs[1..], es[1..]);
      assert es == [es[0]] + es[1..];
      EntryOfReads(rs[0], es[0]);
      EntriesReadStep(rs, es);
      hide EntryOf, EntryReads, EntriesRead;
    }
  }

  lemma EntryOfReads(r: EvidenceEntry, e: ProvenanceEntry)
    ensures EntryOf(r) == Some(e) <==> EntryReads(r, e)
  {
    hide FromHexText, BigIntOf;
  }

  lemma EntriesReadStep(rs: seq<EvidenceEntry>, es: seq<ProvenanceEntry>)
    requires rs != [] && es != []
    ensures EntriesRead(rs, es) <==> EntryReads(rs[0], es[0]) && EntriesRead(rs[1..], es[1..])
  {
    hide EntryReads;
    if EntriesRead(rs[1..], es[1..]) && EntryReads(rs[0], es[0]) {
      forall i | 0 <= i < |rs| ensures EntryReads(rs[i], es[i]) {
        assert i > 0 ==> rs[1..][i - 1] == rs[i] && es[1..][i - 1] == es[i];
      }
    }
  }

  lemma MachineOfReads(r: EvidenceMachine, m: Machine)
    ensures MachineOf(r) == Some(m) <==> MachineReads(r, m)
  {
    hide FromHexText, BigIntOf;
  }

  lemma ForkOfReads(r: EvidenceFork, f: ForkProof)
    ensures ForkOfText(Some(r)) == Some(Some(f)) <==> ForkReads(r, f)
  {
    HeadsOfReads(r.parentHeads, f.parentHeads);
    hide FromHexText, HeadsOf, HeadsRead;
  }

  lemma FromEvidenceReads(ev: Evidence, input: VerifyInput)
    ensures FromEvidence(ev) == Some(input) <==> ReadsAs(ev, input)
  {
    MachineOfReads(ev.machine, input.machine);
    EntriesOfReads(ev.entries, input.entries);
    if ev.fork.Some? && input.fork.Some? {
      ForkOfReads(ev.fork.value, input.fork.value);
    }
    ForkOfSome(ev.fork);
    hide FromHexText, MachineOf, MachineReads, EntriesOf, EntryReads, ForkOfText, ForkReads;
  }

  lemma ForkOfSome(f: Option<EvidenceFork>)
    ensures ForkOfText(f).Some? ==> (ForkOfText(f).value.Some? <==> f.Some?)
    ensures f.None? ==> ForkOfText(f) == Some(None)
  {
    hide FromHexText, HeadsOf;
  }

  /** `verifyEvidence`. */
  method VerifyEvidence(h: Hash, ev: Evidence) returns (r: Option<Report>)
    ensures r.Some? <==> exists input :: ReadsAs(ev, input) && forall i :: 0 <= i < |input.entries| ==> Encodable(input.entries[i])
    ensures r.Some? ==> forall input :: ReadsAs(ev, input) ==> Tells(h, input, r.value)
    ensures r == match FromEvidence(ev) case None => None case Some(input) => ReportOf(h, input)
  {
    forall input ensures FromEvidence(ev) == Some(input) <==> ReadsAs(ev, input) {
      FromEvidenceReads(ev, input);
    }
    hide FromEvidence, ReadsAs, Encodable, Tells;
    var input := FromEvidence(ev);
    if input.None? {
      return None;
    }
    r := VerifyMachine(h, input.value);
  }

  // ----- the round trip -----

  lemma {:induction false} EntriesRoundTrip(es: seq<ProvenanceEntry>, texts: seq<EvidenceEntry>, heads: seq<Bytes>)
    requires |texts| == |es| == |heads|
    requires forall i :: 0 <= i < |es| ==> texts[i] == EntryText(es[i], heads[i])
    ensures EntriesOf(texts) == Some(es)
  {
    hide BigIntOf, FromHexText, ShowInt, ToHex;
    if es != [] {
      EntryRoundTrip(es[0], heads[0]);
      EntriesRoundTrip(es[1..], texts[1..], heads[1..]);
      assert es == [es[0]] + es[1..];
    }
  }

  lemma EntryRoundTrip(e: ProvenanceEntry, head: Bytes)
    ensures EntryOf(EntryText(e, head)) == Some(e)
  {
    hide BigIntOf, FromHexText, ShowInt, ToHex;
    BigIntRoundTrip(e.seqNo);
    BigIntRoundTrip(e.blobId);
    BigIntRoundTrip(e.timestampMs);
    HexTextRoundTrip(e.manifestHash);
    HexTextRoundTrip(e.payloadHash);
  }

  lemma MachineRoundTrip(m: Machine)
    ensures MachineOf(MachineText(m)) == Some(m)
  {
    hide BigIntOf, FromHexText, ShowInt, ToHex;
    BigIntRoundTrip(m.currentBlobId);
    BigIntRoundTrip(m.checkpointCount);
    HexTextRoundTrip(m.manifestHash);
    HexTextRoundTrip(m.provenanceHead);
  }

  lemma {:induction false} HeadsRoundTrip(heads: seq<Bytes>, texts: seq<string>)
    requires |texts| == |heads| && forall i :: 0 <= i < |heads| ==> texts[i] == ToHex(heads[i])
    ensures HeadsOf(texts) == Some(heads)
  {
    hide FromHexText, ToHex;
    if heads != [] {
      HexTextRoundTrip(heads[0]);
      HeadsRoundTrip(heads[1..], texts[1..]);
      assert heads == [heads[0]] + heads[1..];
    }
  }

  lemma ForkRoundTrip(parent: Option<string>, f: ForkProof)
    ensures ForkOfText(Some(ForkText(parent, f))) == Some(Some(f))
  {
    hide FromHexText, ToHex, HeadsOf;
    HexTextRoundTrip(f.childHead);
    HexTextRoundTrip(f.parentHead);
    HeadsRoundTrip(f.parentHeads, ForkText(parent, f).parentHeads);
  }

  lemma EntriesKept(h: Hash, input: VerifyInput, meta: Meta)
    requires AllInRange(input.entries)
    ensures EntriesOf(ToEvidence(h, input, meta).value.entries) == Some(input.entries)
  {
    hide EntryText, EntriesOf, StartOf, InRange, Replay;
    var heads := Heads(h, StartOf(h, input), input.entries);
    EntriesRoundTrip(input.entries, ToEvidence(h, input, meta).value.entries, heads[1..]);
  }

  lemma ForkKept(h: Hash, input: VerifyInput, meta: Meta)
    requires AllInRange(input.entries)
    ensures ForkOfText(ToEvidence(h, input, meta).value.fork) == Some(input.fork)
  {
    hide ForkText, ForkOfText, Heads, StartOf, InRange, EntryText;
    NoForkText();
    if input.fork.Some? {
      ForkRoundTrip(input.machine.parent, input.fork.value);
    }
  }

  /** A record reads back as the input it was made from exactly when the input's id bytes are those its
    machine id spells; a record made offline is then verified as the input would be. */
  lemma EvidenceRoundTrip(h: Hash, input: VerifyInput, meta: Meta)
    requires AllInRange(input.entries)
    ensures ToEvidence(h, input, meta).Some?
    ensures FromEvidence(ToEvidence(h, input, meta).value) == Some(input) <==>
            FromHexText(input.machine.id) == Some(input.machineIdBytes)
  {
    hide FromHexText, EntriesOf, ForkOfText, MachineOf, Heads, StartOf, InRange, EntryText, ForkText, ShowInt, ToHex;
    EntriesKept(h, input, meta);
    ForkKept(h, input, meta);
    MachineRoundTrip(input.machine);
  }

  lemma NoForkText()
    ensures ForkOfText(None) == Some(None)
  {
  }

  // ----- comparing records -----

  datatype Comparison = Comparison(machine: bool, entries: bool, fork: bool)

  function MachineEqual(a: EvidenceMachine, b: EvidenceMachine): (r: bool)
    ensures r <==> a == b
  {
    && a.id == b.id && a.owner == b.owner && a.currentBlobId == b.currentBlobId
    && a.manifestHash == b.manifestHash && a.provenanceHead == b.provenanceHead
    && a.checkpointCount == b.checkpointCount && a.parent == b.parent && a.policyId == b.policyId
    && a.createdAtEpoch == b.createdAtEpoch
  }

  function EntryEqual(a: EvidenceEntry, b: EvidenceEntry): (r: bool)
    ensures r <==> a == b
  {
    && a.seqNo == b.seqNo && a.eventType == b.eventType && a.blobId == b.blobId
    && a.manifestHash == b.manifestHash && a.payloadHash == b.payloadHash
    && a.timestampMs == b.timestampMs && a.entryHash == b.entryHash
  }

  function EntriesEqual(a: seq<EvidenceEntry>, b: seq<EvidenceEntry>): (r: bool)
    ensures r <==> a == b
  {
    |a| == |b| && forall i :: 0 <= i < |a| ==> EntryEqual(a[i], b[i])
  }

  function TextsEqual(a: seq<string>, b: seq<string>): (r: bool)
    ensures r <==> a == b
  {
    |a| == |b| && forall i :: 0 <= i < |a| ==> a[i] == b[i]
  }

  function ForkEqual(a: Option<EvidenceFork>, b: Option<EvidenceFork>): (r: bool)
    ensures r <==> a == b
  {
    match (a, b)
    case (Some(x), Some(y)) =>
      && x.parentId == y.parentId && x.parentHead == y.parentHead && x.childHead == y.childHead
      && TextsEqual(x.parentHeads, y.parentHeads)
    case _ => a.None? && b.None?
  }

  function CompareEvidence(a: Evidence, b: Evidence): (c: Comparison)
    ensures c == Comparison(a.machine == b.machine, a.entries == b.entries, a.fork == b.fork)
  {
    Comparison(MachineEqual(a.machine, b.machine), EntriesEqual(a.entries, b.entries), ForkEqual(a.fork, b.fork))
  }

  /** A file of this schema that matches, in all three parts, the record made from an input gets that
    input's verdict, whatever its metadata says. */
  lemma MatchingFileSameVerdict(h: Hash, input: VerifyInput, meta: Meta, ev: Evidence)
    requires AllInRange(input.entries) && FromHexText(input.machine.id) == Some(input.machineIdBytes)
    requires ev.schemaVersion == SCHEMA_VERSION
    requires CompareEvidence(ToEvidence(h, input, meta).value, ev) == Comparison(true, true, true)
    ensures FromEvidence(ev) == Some(input)
  {
    hide MachineOf, EntriesOf, ForkOfText, FromHexText;
    EvidenceRoundTrip(h, input, meta);
  }
}
