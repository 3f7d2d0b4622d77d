/** The hash-chained provenance log: `provenance.ts`. */
module Provenance {
  import opened Bytes

  const EVENT_CHECKPOINT: int := 0
  const EVENT_COMMAND: int := 1
  const EVENT_GRANT: int := 2
  const EVENT_REVOKE: int := 3
  const EVENT_FORK: int := 4
  const EVENT_RETIRE: int := 5

  /** Numbers are read from text, so nothing bounds them until they are encoded. */
  datatype ProvenanceEntry = ProvenanceEntry(
    seqNo: int, eventType: int, blobId: int, manifestHash: Bytes, payloadHash: Bytes, timestampMs: int)

  /** What the fixed-width encoders accept; anything else throws a range error. */
  predicate InRange(e: ProvenanceEntry) {
    && 0 <= e.eventType < 256
    && 0 <= e.seqNo < U64_END
    && 0 <= e.blobId < U256_END
    && 0 <= e.timestampMs < U64_END
  }

  predicate AllInRange(es: seq<ProvenanceEntry>) {
    forall i :: 0 <= i < |es| ==> InRange(es[i])
  }

  // ----- preimages -----

  function EntryPreimage(prev: Bytes, e: ProvenanceEntry): Bytes
    requires InRange(e)
  {
    prev + [e.eventType] + LittleEndian(e.seqNo, 8) + LittleEndian(e.blobId, 32)
    + e.manifestHash + e.payloadHash + LittleEndian(e.timestampMs, 8)
  }

  /** Where a chain starts: at its machine's id, or bound to a head of the machine it was forked
    from. */
  datatype Origin = Fresh(id: Bytes) | Forked(parentHead: Bytes, id: Bytes)

  function OriginPreimage(o: Origin): Bytes {
    match o
    case Fresh(id) => id
    case Forked(parentHead, id) => parentHead + [EVENT_FORK] + id
  }

  predicate WellSized(o: Origin) {
    |o.id| == 32 && (o.Forked? ==> |o.parentHead| == 32)
  }

  function GenesisHead(h: Hash, id: Bytes): Digest {
    h(id)
  }

  function ForkChildHead(h: Hash, parentHead: Bytes, id: Bytes): Digest {
    h(parentHead + [EVENT_FORK] + id)
  }

  function EntryHash(h: Hash, prev: Bytes, e: ProvenanceEntry): Digest
    requires InRange(e)
  {
    h(EntryPreimage(prev, e))
  }

  /** Two entries agree on everything the preimage separates: where the manifest hash ends and the
    payload hash begins is not among it. */
  predicate SameUpToBoundary(a: ProvenanceEntry, b: ProvenanceEntry) {
    && a.seqNo == b.seqNo && a.eventType == b.eventType && a.blobId == b.blobId && a.timestampMs == b.timestampMs
    && a.manifestHash + a.payloadHash == b.manifestHash + b.payloadHash
  }

  function Middle(e: ProvenanceEntry): Bytes {
    e.manifestHash + e.payloadHash
  }

  lemma PreimageParts(prev: Bytes, e: ProvenanceEntry)
    requires InRange(e) && |prev| == 32
    ensures var p, n := EntryPreimage(prev, e), |Middle(e)|;
            && |p| == 81 + n
            && p[..32] == prev && p[32] == e.eventType && p[33..41] == LittleEndian(e.seqNo, 8)
            && p[41..73] == LittleEndian(e.blobId, 32) && p[73..73 + n] == Middle(e)
            && p[73 + n..] == LittleEndian(e.timestampMs, 8)
  {
    hide LittleEndian;
    var p := EntryPreimage(prev, e);
    var head := prev + [e.eventType] + LittleEndian(e.seqNo, 8) + LittleEndian(e.blobId, 32);
    assert |head| == 73;
    assert p == head + Middle(e) + LittleEndian(e.timestampMs, 8);
  }

  /** Equal preimages mean equal previous heads and entries equal up to that boundary, and nothing
    more: the condition is exact. */
  lemma PreimageAgree(p: Bytes, a: ProvenanceEntry, q: Bytes, b: ProvenanceEntry)
    requires InRange(a) && InRange(b) && |p| == 32 && |q| == 32
    ensures EntryPreimage(p, a) == EntryPreimage(q, b) <==> p == q && SameUpToBoundary(a, b)
  {
    PreimageParts(p, a);
    PreimageParts(q, b);
    if EntryPreimage(p, a) == EntryPreimage(q, b) {
      assert |Middle(a)| == |Middle(b)|;
      WidthEnds();
      LittleEndianInjective(a.seqNo, b.seqNo, 8);
      LittleEndianInjective(a.blobId, b.blobId, 32);
      LittleEndianInjective(a.timestampMs, b.timestampMs, 8);
    } else if p == q && SameUpToBoundary(a, b) {
      SamePreimage(p, a, b);
    }
  }

  lemma SamePreimage(p: Bytes, a: ProvenanceEntry, b: ProvenanceEntry)
    requires InRange(a) && InRange(b) && SameUpToBoundary(a, b)
    ensures EntryPreimage(p, a) == EntryPreimage(p, b)
  {
    hide LittleEndian;
    var head := p + [a.eventType] + LittleEndian(a.seqNo, 8) + LittleEndian(a.blobId, 32);
    assert EntryPreimage(p, a) == head + Middle(a) + LittleEndian(a.timestampMs, 8);
    assert EntryPreimage(p, b) == head + Middle(b) + LittleEndian(b.timestampMs, 8);
  }

  /** Two different entries with one hash under every hash function: the byte `[1]` moves from the
    manifest hash to the payload hash. */
  lemma BoundaryNotBound(h: Hash, prev: Bytes)
    ensures var a := ProvenanceEntry(0, EVENT_CHECKPOINT, 0, [1], [2], 0);
            var b := ProvenanceEntry(0, EVENT_CHECKPOINT, 0, [], [1, 2], 0);
            a != b && InRange(a) && InRange(b) && EntryHash(h, prev, a) == EntryHash(h, prev, b)
  {
    var a := ProvenanceEntry(0, EVENT_CHECKPOINT, 0, [1], [2], 0);
    var b := ProvenanceEntry(0, EVENT_CHECKPOINT, 0, [], [1, 2], 0);
    assert a.manifestHash != b.manifestHash;
    SamePreimage(prev, a, b);
  }

  // ----- replay -----

  function Replay(h: Hash, genesis: Bytes, es: seq<ProvenanceEntry>): Bytes
    requires AllInRange(es)
  {
    if es == [] then genesis
    else
      assert AllInRange(es[..|es| - 1]);
      EntryHash(h, Replay(h, genesis, es[..|es| - 1]), es[|es| - 1])
  }

  lemma ReplaySnoc(h: Hash, genesis: Bytes, es: seq<ProvenanceEntry>, i: nat)
    requires AllInRange(es) && i < |es|
    ensures AllInRange(es[..i]) && AllInRange(es[..i + 1])
    ensures Replay(h, genesis, es[..i + 1]) == EntryHash(h, Replay(h, genesis, es[..i]), es[i])
  {
    assert es[..i + 1][..i] == es[..i];
  }

  lemma ExtendReplay(h: Hash, genesis: Bytes, es: seq<ProvenanceEntry>, i: nat)
    requires i < |es| && AllInRange(es[..i]) && InRange(es[i])
    ensures AllInRange(es[..i + 1])
    ensures Replay(h, genesis, es[..i + 1]) == EntryHash(h, Replay(h, genesis, es[..i]), es[i])
  {
    assert es[..i + 1][..i] == es[..i];
  }

  // ----- the bytes, one by one -----

  /** The contract frozen with the chain: the head before, one byte of event type, the sequence number in
    8 bytes, the blob id in 32, the manifest hash, the payload hash, the time in 8 bytes; numbers least
    significant byte first. */
  ghost predicate LaidOut(p: Bytes, prev: Bytes, e: ProvenanceEntry) {
    var n := |prev|;
    var m := n + 41 + |e.manifestHash|;
    var q := m + |e.payloadHash|;
    && |p| == q + 8
    && p[..n] == prev
    && p[n] == e.eventType
    && NumberOf(p[n + 1..n + 9]) == e.seqNo
    && NumberOf(p[n + 9..n + 41]) == e.blobId
    && p[n + 41..m] == e.manifestHash
    && p[m..q] == e.payloadHash
    && NumberOf(p[q..]) == e.timestampMs
  }

  ghost predicate Encodable(e: ProvenanceEntry) {
    && 0 <= e.eventType <= 255
    && 0 <= e.seqNo <= 0xFFFF_FFFF_FFFF_FFFF
    && 0 <= e.blobId <= 0xFFFFFFFF_FFFFFFFF_FFFFFFFF_FFFFFFFF_FFFFFFFF_FFFFFFFF_FFFFFFFF_FFFFFFFF
    && 0 <= e.timestampMs <= 0xFFFF_FFFF_FFFF_FFFF
  }

  ghost predicate HashedFrom(h: Hash, prev: Bytes, e: ProvenanceEntry, next: Bytes) {
    exists p :: LaidOut(p, prev, e) && next == h(p)
  }

  lemma InRangeEncodable(e: ProvenanceEntry)
    ensures InRange(e) <==> Encodable(e)
  {
  }

  lemma AllEncodable(es: seq<ProvenanceEntry>)
    ensures AllInRange(es) <==> forall i :: 0 <= i < |es| ==> Encodable(es[i])
  {
    hide InRange, Encodable;
    forall i | 0 <= i < |es| ensures InRange(es[i]) <==> Encodable(es[i]) {
      InRangeEncodable(es[i]);
    }
  }

  lemma PreimageLaidOut(prev: Bytes, e: ProvenanceEntry)
    requires InRange(e)
    ensures LaidOut(EntryPreimage(prev, e), prev, e)
  {
    var p, n := EntryPreimage(prev, e), |prev|;
    var a, b, c := LittleEndian(e.seqNo, 8), LittleEndian(e.blobId, 32), LittleEndian(e.timestampMs, 8);
    WidthEnds();
    LittleEndianNumber(e.seqNo, 8);
    LittleEndianNumber(e.blobId, 32);
    LittleEndianNumber(e.timestampMs, 8);
    hide LittleEndian, NumberOf;
    PartsOf(prev, e.eventType, a, b, e.manifestHash, e.payloadHash, c);
  }

  lemma PartsOf(prev: Bytes, x: byte, a: Bytes, b: Bytes, m: Bytes, q: Bytes, c: Bytes)
    requires |a| == 8 && |b| == 32 && |c| == 8
    ensures var p, n := prev + [x] + a + b + m + q + c, |prev|;
            && p[..n] == prev && p[n] == x && p[n + 1..n + 9] == a && p[n + 9..n + 41] == b
            && p[n + 41..n + 41 + |m|] == m && p[n + 41 + |m|..n + 41 + |m| + |q|] == q && p[n + 41 + |m| + |q|..] == c
  {
    var front := prev + [x] + a + b;
    assert front[|prev|] == x && front[..|prev|] == prev && front[|prev| + 1..|prev| + 9] == a && front[|prev| + 9..] == b;
  }

  /** One layout for one entry. */
  lemma OneLayout(p: Bytes, q: Bytes, prev: Bytes, e: ProvenanceEntry)
    requires LaidOut(p, prev, e) && LaidOut(q, prev, e)
    ensures p == q
  {
    var n := |prev|;
    var m := n + 41 + |e.manifestHash|;
    var k := m + |e.payloadHash|;
    NumberDetermines(p[n + 1..n + 9], q[n + 1..n + 9]);
    NumberDetermines(p[n + 9..n + 41], q[n + 9..n + 41]);
    NumberDetermines(p[k..], q[k..]);
    hide NumberOf;
    SplitAt(p, n, m, k);
    SplitAt(q, n, m, k);
  }

  lemma SplitAt(p: Bytes, n: nat, m: nat, k: nat)
    requires n + 41 <= m <= k <= |p|
    ensures p == p[..n] + [p[n]] + p[n + 1..n + 9] + p[n + 9..n + 41] + p[n + 41..m] + p[m..k] + p[k..]
  {
  }

  lemma HashDetermined(h: Hash, prev: Bytes, e: ProvenanceEntry, next: Bytes)
    requires InRange(e)
    ensures HashedFrom(h, prev, e, next) <==> next == EntryHash(h, prev, e)
  {
    hide LaidOut;
    PreimageLaidOut(prev, e);
    if HashedFrom(h, prev, e, next) {
      var p :| LaidOut(p, prev, e) && next == h(p);
      OneLayout(p, EntryPreimage(prev, e), prev, e);
    }
  }

  /** The heads along a chain, each hashed from the one before. */
  ghost predicate ChainOfHeads(h: Hash, genesis: Bytes, es: seq<ProvenanceEntry>, heads: seq<Bytes>) {
    && |heads| == |es| + 1 && heads[0] == genesis
    && forall i :: 0 <= i < |es| ==> HashedFrom(h, heads[i], es[i], heads[i + 1])
  }

  ghost predicate Leads(h: Hash, genesis: Bytes, es: seq<ProvenanceEntry>, head: Bytes) {
    exists heads :: ChainOfHeads(h, genesis, es, heads) && heads[|es|] == head
  }

  /** There is one such chain, and a replay walks it. */
  lemma HeadsAreTheChain(h: Hash, genesis: Bytes, es: seq<ProvenanceEntry>, heads: seq<Bytes>)
    requires AllInRange(es)
    ensures ChainOfHeads(h, genesis, es, heads) <==> heads == Heads(h, genesis, es)
  {
    hide InRange, HashedFrom, EntryHash;
    var walk := Heads(h, genesis, es);
    forall i: nat | i < |es| ensures walk[i + 1] == EntryHash(h, walk[i], es[i]) && HashedFrom(h, walk[i], es[i], walk[i + 1]) {
      ReplaySnoc(h, genesis, es, i);
      HashDetermined(h, walk[i], es[i], walk[i + 1]);
    }
    if ChainOfHeads(h, genesis, es, heads) {
      for i := 0 to |es|
        invariant heads[..i + 1] == walk[..i + 1]
      {
        assert heads[i] == walk[i];
        HashDetermined(h, heads[i], es[i], heads[i + 1]);
      }
      assert heads == heads[..|es| + 1] && walk == walk[..|es| + 1];
    }
  }

  lemma ReplayLeads(h: Hash, genesis: Bytes, es: seq<ProvenanceEntry>, head: Bytes)
    requires AllInRange(es)
    ensures Leads(h, genesis, es, head) <==> head == Replay(h, genesis, es)
  {
    hide HashedFrom, Replay, InRange;
    HeadsAreTheChain(h, genesis, es, Heads(h, genesis, es));
    assert es[..|es|] == es;
    if Leads(h, genesis, es, head) {
      var heads :| ChainOfHeads(h, genesis, es, heads) && heads[|es|] == head;
      HeadsAreTheChain(h, genesis, es, heads);
    }
  }

  lemma OneChain(h: Hash, genesis: Bytes, es: seq<ProvenanceEntry>, heads: seq<Bytes>, head: Bytes)
    requires ChainOfHeads(h, genesis, es, heads) && Leads(h, genesis, es, head)
    ensures heads[|es|] == head
  {
    var others :| ChainOfHeads(h, genesis, es, others) && others[|es|] == head;
    for i := 0 to |es|
      invariant heads[i] == others[i]
    {
      var p :| LaidOut(p, heads[i], es[i]) && heads[i + 1] == h(p);
      var q :| LaidOut(q, heads[i], es[i]) && others[i + 1] == h(q);
      OneLayout(p, q, heads[i], es[i]);
    }
  }

  /** `computeEntryHash`: the parts joined in a fixed order, or a range error. */
  method ComputeEntryHash(h: Hash, prev: Bytes, e: ProvenanceEntry) returns (r: Option<Digest>)
    ensures r.Some? <==> Encodable(e)
    ensures r.Some? ==> HashedFrom(h, prev, e, r.value)
    ensures r == if InRange(e) then Some(EntryHash(h, prev, e)) else None
  {
    InRangeEncodable(e);
    if InRange(e) {
      HashDetermined(h, prev, e, EntryHash(h, prev, e));
    }
    hide HashedFrom, Encodable;
    if !InRange(e) {
      return None;
    }
    var parts := [prev, [e.eventType], LittleEndian(e.seqNo, 8), LittleEndian(e.blobId, 32),
                  e.manifestHash, e.payloadHash, LittleEndian(e.timestampMs, 8)];
    var preimage := ConcatBytes(parts);
    FlattenSeven(parts);
    return Some(h(preimage[..]));
  }

  lemma FlattenSeven(p: seq<Bytes>)
    requires |p| == 7
    ensures Flatten(p) == p[0] + p[1] + p[2] + p[3] + p[4] + p[5] + p[6]
  {
    hide Flatten;
    assert Flatten(p[..0]) == [] by {
      FlattenNone<byte>();
      assert p[..0] == [];
    }
    FlattenSnoc(p, 0);
    FlattenSnoc(p, 1);
    FlattenSnoc(p, 2);
    assert Flatten(p[..3]) == p[0] + p[1] + p[2];
    FlattenSnoc(p, 3);
    FlattenSnoc(p, 4);
    assert Flatten(p[..5]) == p[0] + p[1] + p[2] + p[3] + p[4];
    FlattenSnoc(p, 5);
    FlattenSnoc(p, 6);
    assert p[..7] == p;
  }

  /** `replayChain`. */
  method ReplayChain(h: Hash, genesis: Bytes, es: seq<ProvenanceEntry>) returns (r: Option<Bytes>)
    ensures r.Some? <==> forall i :: 0 <= i < |es| ==> Encodable(es[i])
    ensures r.Some? ==> Leads(h, genesis, es, r.value)
    ensures r == if AllInRange(es) then Some(Replay(h, genesis, es)) else None
  {
    hide InRange, Encodable, HashedFrom, Leads, EntryHash;
    AllEncodable(es);
    if AllInRange(es) {
      ReplayLeads(h, genesis, es, Replay(h, genesis, es));
    }
    var head := genesis;
    for i := 0 to |es|
      invariant AllInRange(es[..i]) && head == Replay(h, genesis, es[..i])
    {
      var next := ComputeEntryHash(h, head, es[i]);
      if next.None? {
        return None;
      }
      ExtendReplay(h, genesis, es, i);
      head := next.value;
    }
    assert es[..|es|] == es;
    return Some(head);
  }

  function Heads(h: Hash, genesis: Bytes, es: seq<ProvenanceEntry>): (heads: seq<Bytes>)
    requires AllInRange(es)
  {
    seq(|es| + 1, i requires 0 <= i <= |es| => Replay(h, genesis, es[..i]))
  }

  lemma HeadsSnoc(h: Hash, genesis: Bytes, es: seq<ProvenanceEntry>, i: nat)
    requires i < |es| && AllInRange(es[..i]) && AllInRange(es[..i + 1])
    ensures Heads(h, genesis, es[..i + 1]) == Heads(h, genesis, es[..i]) + [Replay(h, genesis, es[..i + 1])]
  {
    hide Replay, InRange;
    forall k | 0 <= k <= i ensures es[..i + 1][..k] == es[..i][..k] {
    }
    assert es[..i + 1][..i + 1] == es[..i + 1];
  }

  lemma HeadsNone(h: Hash, genesis: Bytes, es: seq<ProvenanceEntry>)
    ensures AllInRange(es[..0]) && Replay(h, genesis, es[..0]) == genesis && Heads(h, genesis, es[..0]) == [genesis]
  {
  }

  /** `collectHeads`: the genesis, then the head after each entry. */
  method CollectHeads(h: Hash, genesis: Bytes, es: seq<ProvenanceEntry>) returns (r: Option<seq<Bytes>>)
    ensures r.Some? <==> forall i :: 0 <= i < |es| ==> Encodable(es[i])
    ensures r.Some? ==> ChainOfHeads(h, genesis, es, r.value)
    ensures r == if AllInRange(es) then Some(Heads(h, genesis, es)) else None
  {
    hide Replay, EntryHash, InRange, Heads, Encodable, HashedFrom, ChainOfHeads;
    AllEncodable(es);
    if AllInRange(es) {
      HeadsAreTheChain(h, genesis, es, Heads(h, genesis, es));
    }
    var heads := [genesis];
    var head := genesis;
    HeadsNone(h, genesis, es);
    for i := 0 to |es|
      invariant AllInRange(es[..i]) && head == Replay(h, genesis, es[..i])
      invariant heads == Heads(h, genesis, es[..i])
    {
      var next := ComputeEntryHash(h, head, es[i]);
      if next.None? {
        return None;
      }
      ExtendReplay(h, genesis, es, i);
      HeadsSnoc(h, genesis, es, i);
      head := next.value;
      heads := heads + [head];
    }
    assert es[..|es|] == es;
    return Some(heads);
  }

  // ----- one head binds the whole history -----

  /** Everything hashed along a chain. */
  ghost function ChainPreimages(h: Hash, o: Origin, es: seq<ProvenanceEntry>): set<Bytes>
    requires AllInRange(es)
  {
    {OriginPreimage(o)} + set i | 0 <= i < |es| :: EntryPreimage(Replay(h, h(OriginPreimage(o)), es[..i]), es[i])
  }

  ghost function ChainHead(h: Hash, o: Origin, es: seq<ProvenanceEntry>): (d: Digest)
    requires AllInRange(es)
  {
    Replay(h, h(OriginPreimage(o)), es)
  }

  /** The last thing hashed for a head. */
  ghost function LastPreimage(h: Hash, o: Origin, es: seq<ProvenanceEntry>): (p: Bytes)
    requires AllInRange(es)
    ensures p in ChainPreimages(h, o, es) && h(p) == ChainHead(h, o, es)
  {
    if es == [] then OriginPreimage(o)
    else
      var i := |es| - 1;
      ReplaySnoc(h, h(OriginPreimage(o)), es, i);
      assert es[..i + 1] == es;
      EntryPreimage(Replay(h, h(OriginPreimage(o)), es[..i]), es[i])
  }

  lemma PrefixPreimages(h: Hash, o: Origin, es: seq<ProvenanceEntry>, i: nat)
    requires AllInRange(es) && i <= |es|
    ensures AllInRange(es[..i]) && ChainPreimages(h, o, es[..i]) <= ChainPreimages(h, o, es)
  {
    hide EntryPreimage, Replay, OriginPreimage, InRange;
    forall x | x in ChainPreimages(h, o, es[..i]) ensures x in ChainPreimages(h, o, es) {
      if x != OriginPreimage(o) {
        var k :| 0 <= k < i && x == EntryPreimage(Replay(h, h(OriginPreimage(o)), es[..i][..k]), es[..i][k]);
        assert es[..i][..k] == es[..k];
      }
    }
  }

  ghost predicate SameHistory(es: seq<ProvenanceEntry>, fs: seq<ProvenanceEntry>) {
    |es| == |fs| && forall i :: 0 <= i < |es| ==> SameUpToBoundary(es[i], fs[i])
  }

  lemma LastEntriesAgree(h: Hash, o: Origin, es: seq<ProvenanceEntry>, q: Origin, fs: seq<ProvenanceEntry>)
    requires AllInRange(es) && AllInRange(fs) && es != [] && fs != []
    requires LastPreimage(h, o, es) == LastPreimage(h, q, fs)
    ensures AllInRange(es[..|es| - 1]) && AllInRange(fs[..|fs| - 1])
    ensures ChainHead(h, o, es[..|es| - 1]) == ChainHead(h, q, fs[..|fs| - 1])
    ensures SameUpToBoundary(es[|es| - 1], fs[|fs| - 1])
  {
    PreimageAgree(ChainHead(h, o, es[..|es| - 1]), es[|es| - 1], ChainHead(h, q, fs[..|fs| - 1]), fs[|fs| - 1]);
  }

  lemma ExtendHistory(es: seq<ProvenanceEntry>, fs: seq<ProvenanceEntry>)
    requires es != [] && fs != [] && SameHistory(es[..|es| - 1], fs[..|fs| - 1])
    requires SameUpToBoundary(es[|es| - 1], fs[|fs| - 1])
    ensures SameHistory(es, fs)
  {
    forall i | 0 <= i < |es| ensures SameUpToBoundary(es[i], fs[i]) {
      assert i < |es| - 1 ==> es[..|es| - 1][i] == es[i] && fs[..|fs| - 1][i] == fs[i];
    }
  }

  lemma PrefixCollision(h: Hash, o: Origin, es: seq<ProvenanceEntry>, i: nat, q: Origin, fs: seq<ProvenanceEntry>, j: nat)
    requires AllInRange(es) && i <= |es| && AllInRange(fs) && j <= |fs|
    ensures AllInRange(es[..i]) && AllInRange(fs[..j])
    ensures Collides(h, ChainPreimages(h, o, es[..i]) + ChainPreimages(h, q, fs[..j])) ==>
            Collides(h, ChainPreimages(h, o, es) + ChainPreimages(h, q, fs))
  {
    PrefixPreimages(h, o, es, i);
    PrefixPreimages(h, q, fs, j);
    hide ChainPreimages;
    var part := ChainPreimages(h, o, es[..i]) + ChainPreimages(h, q, fs[..j]);
    if Collides(h, part) {
      CollidesMono(h, part, ChainPreimages(h, o, es) + ChainPreimages(h, q, fs));
    }
  }

  /** The origin of one chain reads as an entry of the other, whose later entries are the one's whole
    history. An origin of the right size cannot be read so. */
  ghost predicate Misread(h: Hash, o: Origin, es: seq<ProvenanceEntry>, q: Origin, fs: seq<ProvenanceEntry>)
    requires AllInRange(es)
  {
    exists k: nat :: k < |es| && MisreadAt(h, o, es, q, fs, k)
  }

  ghost predicate MisreadAt(h: Hash, o: Origin, es: seq<ProvenanceEntry>, q: Origin, fs: seq<ProvenanceEntry>, k: nat)
    requires AllInRange(es) && k < |es|
  {
    OriginPreimage(q) == EntryPreimage(ChainHead(h, o, es[..k]), es[k]) && SameHistory(fs, es[k + 1..])
  }

  lemma SizedNotMisread(h: Hash, o: Origin, es: seq<ProvenanceEntry>, q: Origin, fs: seq<ProvenanceEntry>)
    requires AllInRange(es) && WellSized(q)
    ensures !Misread(h, o, es, q, fs)
  {
    forall k: nat | k < |es| ensures !MisreadAt(h, o, es, q, fs, k) {
      PreimageParts(ChainHead(h, o, es[..k]), es[k]);
    }
  }

  ghost predicate Bound(h: Hash, o: Origin, es: seq<ProvenanceEntry>, q: Origin, fs: seq<ProvenanceEntry>)
    requires AllInRange(es) && AllInRange(fs)
  {
    || (OriginPreimage(o) == OriginPreimage(q) && SameHistory(es, fs))
    || Misread(h, o, es, q, fs)
    || Misread(h, q, fs, o, es)
  }

  lemma BoundFromFronts(h: Hash, o: Origin, es: seq<ProvenanceEntry>, q: Origin, fs: seq<ProvenanceEntry>)
    requires AllInRange(es) && AllInRange(fs) && es != [] && fs != []
    requires AllInRange(es[..|es| - 1]) && AllInRange(fs[..|fs| - 1])
    requires Bound(h, o, es[..|es| - 1], q, fs[..|fs| - 1]) && SameUpToBoundary(es[|es| - 1], fs[|fs| - 1])
    ensures Bound(h, o, es, q, fs)
  {
    hide OriginPreimage, EntryPreimage, InRange, SameHistory, SameUpToBoundary, ChainHead, MisreadAt;
    var x, y := es[..|es| - 1], fs[..|fs| - 1];
    SameUpToBoundarySymmetric(es[|es| - 1], fs[|fs| - 1]);
    if SameHistory(x, y) && OriginPreimage(o) == OriginPreimage(q) {
      ExtendHistory(es, fs);
    } else if Misread(h, o, x, q, y) {
      MisreadLonger(h, o, es, q, fs);
    } else {
      MisreadLonger(h, q, fs, o, es);
    }
  }

  lemma SameUpToBoundarySymmetric(a: ProvenanceEntry, b: ProvenanceEntry)
    requires SameUpToBoundary(a, b)
    ensures SameUpToBoundary(b, a)
  {
  }

  lemma MisreadLonger(h: Hash, o: Origin, es: seq<ProvenanceEntry>, q: Origin, fs: seq<ProvenanceEntry>)
    requires AllInRange(es) && es != [] && fs != [] && AllInRange(es[..|es| - 1])
    requires Misread(h, o, es[..|es| - 1], q, fs[..|fs| - 1]) && SameUpToBoundary(fs[|fs| - 1], es[|es| - 1])
    ensures Misread(h, o, es, q, fs)
  {
    hide OriginPreimage, EntryPreimage, InRange, SameHistory, SameUpToBoundary, ChainHead;
    var x := es[..|es| - 1];
    var k: nat :| k < |x| && MisreadAt(h, o, x, q, fs[..|fs| - 1], k);
    assert x[..k] == es[..k];
    var rest := es[k + 1..];
    assert rest[..|rest| - 1] == x[k + 1..] && rest[|rest| - 1] == es[|es| - 1];
    ExtendHistory(fs, rest);
    assert MisreadAt(h, o, es, q, fs, k);
  }

  /** Two chains that reach one head have the same history up to the boundary inside each entry, from
    origins that are hashed alike, unless one's origin is misread, or two of their preimages collide.
    Nothing is asked of the length of ids and parent heads. */
  lemma {:induction false} HeadsMeet(h: Hash, o: Origin, es: seq<ProvenanceEntry>, q: Origin, fs: seq<ProvenanceEntry>)
    requires AllInRange(es) && AllInRange(fs) && ChainHead(h, o, es) == ChainHead(h, q, fs)
    ensures Bound(h, o, es, q, fs) || Collides(h, ChainPreimages(h, o, es) + ChainPreimages(h, q, fs))
    decreases |es|
  {
    hide *;
    CollidesIn(h, ChainPreimages(h, o, es) + ChainPreimages(h, q, fs), LastPreimage(h, o, es), LastPreimage(h, q, fs));
    if !Collides(h, ChainPreimages(h, o, es) + ChainPreimages(h, q, fs)) {
      if es == [] || fs == [] {
        OriginReached(h, o, es, q, fs);
      } else {
        LastEntriesAgree(h, o, es, q, fs);
        HeadsMeet(h, o, es[..|es| - 1], q, fs[..|fs| - 1]);
        PrefixCollision(h, o, es, |es| - 1, q, fs, |fs| - 1);
        BoundFromFronts(h, o, es, q, fs);
      }
    }
  }

  lemma OriginReached(h: Hash, o: Origin, es: seq<ProvenanceEntry>, q: Origin, fs: seq<ProvenanceEntry>)
    requires AllInRange(es) && AllInRange(fs) && (es == [] || fs == [])
    requires LastPreimage(h, o, es) == LastPreimage(h, q, fs)
    ensures Bound(h, o, es, q, fs)
  {
    hide OriginPreimage, EntryPreimage, InRange, SameUpToBoundary;
    if es != [] {
      assert MisreadAt(h, o, es, q, fs, |es| - 1);
    } else if fs != [] {
      assert MisreadAt(h, q, fs, o, es, |fs| - 1);
    }
  }

  /** With ids and parent heads of 32 bytes, two chains that reach the same head have the same origin
    and the same history, up to the boundary inside each entry, or two of their preimages collide. The
    three kinds of preimage cannot be mistaken for each other: they are 32, 65, and at least 81 bytes
    long. */
  lemma HeadBinds(h: Hash, o: Origin, es: seq<ProvenanceEntry>, q: Origin, fs: seq<ProvenanceEntry>)
    requires WellSized(o) && WellSized(q) && AllInRange(es) && AllInRange(fs)
    requires ChainHead(h, o, es) == ChainHead(h, q, fs)
    ensures (o == q && SameHistory(es, fs)) || Collides(h, ChainPreimages(h, o, es) + ChainPreimages(h, q, fs))
  {
    hide Misread, SameHistory, ChainHead, ChainPreimages, Collides;
    HeadsMeet(h, o, es, q, fs);
    SizedNotMisread(h, o, es, q, fs);
    SizedNotMisread(h, q, fs, o, es);
    if OriginPreimage(o) == OriginPreimage(q) {
      OriginAgree(o, q);
    }
  }

  /** Ids of 32 bytes are enough to tell the kinds of origin apart. */
  lemma OriginAgree(o: Origin, q: Origin)
    requires |o.id| == 32 && |q.id| == 32 && OriginPreimage(o) == OriginPreimage(q)
    ensures o == q
  {
    if o.Forked? {
      var x := OriginPreimage(o);
      var n := |x| - 33;
      assert x[..n] == o.parentHead && x[n + 1..] == o.id;
      assert x[..n] == q.parentHead && x[n + 1..] == q.id;
    }
  }

  /** When manifest hashes have the same length entry by entry, nothing is left open. */
  lemma ExactHistory(es: seq<ProvenanceEntry>, fs: seq<ProvenanceEntry>)
    requires SameHistory(es, fs)
    ensures (forall i :: 0 <= i < |es| ==> |es[i].manifestHash| == |fs[i].manifestHash|) <==> es == fs
  {
    if forall i :: 0 <= i < |es| ==> |es[i].manifestHash| == |fs[i].manifestHash| {
      forall i | 0 <= i < |es| ensures es[i] == fs[i] {
        var a, b := es[i], fs[i];
        assert Middle(a)[..|a.manifestHash|] == a.manifestHash && Middle(b)[..|b.manifestHash|] == b.manifestHash;
        assert Middle(a)[|a.manifestHash|..] == a.payloadHash && Middle(b)[|b.manifestHash|..] == b.payloadHash;
        assert SameUpToBoundary(a, b);
      }
    }
  }

  // ----- heads of one chain are distinct -----

  /** No head comes back: walking both occurrences back to the genesis would end in a collision. */
  lemma {:induction false} HeadsDistinct(h: Hash, o: Origin, es: seq<ProvenanceEntry>, i: nat, j: nat)
    requires WellSized(o) && AllInRange(es) && i < j <= |es|
    ensures AllInRange(es[..i]) && AllInRange(es[..j])
    ensures ChainHead(h, o, es[..i]) != ChainHead(h, o, es[..j]) || Collides(h, ChainPreimages(h, o, es))
  {
    if ChainHead(h, o, es[..i]) == ChainHead(h, o, es[..j]) {
      HeadBinds(h, o, es[..i], o, es[..j]);
      PrefixPreimages(h, o, es, i);
      PrefixPreimages(h, o, es, j);
      var part := ChainPreimages(h, o, es[..i]) + ChainPreimages(h, o, es[..j]);
      if Collides(h, part) {
        CollidesMono(h, part, ChainPreimages(h, o, es));
      }
    }
  }
}
