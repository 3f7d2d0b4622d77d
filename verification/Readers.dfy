/** Rebuilding a verification input from a node's answers: `readers.ts`. */
module Readers {
  import opened Bytes
  import opened Provenance
  import opened Linkage
  import opened Verifier

  // ----- the node -----

  /** One event that carries a chain entry, as its JSON shows it. */
  datatype LinkJson = LinkJson(
    machineId: string, seqNo: int, blobId: int, manifestHash: Bytes, payloadHash: Bytes,
    prevHead: Bytes, newHead: Bytes, timestampMs: int)

  datatype ForkJson = ForkJson(childId: string, parentId: string, parentHead: Bytes, childHead: Bytes)

  datatype Page<T> = Page(data: seq<T>, hasNextPage: bool, nextCursor: Option<nat>)

  /** What a node answers with: objects by id, and each event type's events split into pages at any
    places, empty pages included. Nothing makes it honest. */
  datatype Client = Client(
    objects: map<string, Machine>, checkpoints: seq<seq<LinkJson>>, granted: seq<seq<LinkJson>>,
    revoked: seq<seq<LinkJson>>, retired: seq<seq<LinkJson>>, forks: seq<seq<ForkJson>>)

  function QueryEvents<T>(pages: seq<seq<T>>, cursor: Option<nat>): Page<T> {
    var i := if cursor.Some? then cursor.value else 0;
    if i < |pages| then Page(pages[i], i + 1 < |pages|, Some(i + 1)) else Page([], false, None)
  }

  // ----- paging -----

  function Matching(js: seq<LinkJson>, machineId: string): seq<LinkJson> {
    if js == [] then []
    else
      var front := Matching(js[..|js| - 1], machineId);
      if js[|js| - 1].machineId == machineId then front + [js[|js| - 1]] else front
  }

  lemma MatchingNone(machineId: string)
    ensures Matching([], machineId) == []
  {
  }

  lemma MatchingSnoc(js: seq<LinkJson>, j: LinkJson, machineId: string)
    ensures Matching(js + [j], machineId) == Matching(js, machineId) + if j.machineId == machineId then [j] else []
  {
    assert (js + [j])[..|js|] == js;
  }

  /** The items at these positions: all that name the machine, in the order they came in. */
  ghost predicate Picked(js: seq<LinkJson>, machineId: string, out: seq<LinkJson>, at: seq<nat>) {
    && |at| == |out|
    && (forall k :: 0 <= k < |at| ==> at[k] < |js| && out[k] == js[at[k]])
    && (forall j, k :: 0 <= j < k < |at| ==> at[j] < at[k])
    && (forall i: nat :: i < |js| ==> (js[i].machineId == machineId <==> i in at))
  }

  ghost predicate PickedFrom(pages: seq<seq<LinkJson>>, machineId: string, out: seq<LinkJson>) {
    exists at :: Picked(Flatten(pages), machineId, out, at)
  }

  lemma {:induction false} MatchingPicks(js: seq<LinkJson>, machineId: string) returns (at: seq<nat>)
    ensures Picked(js, machineId, Matching(js, machineId), at)
  {
    at := [];
    if js != [] {
      var n := |js| - 1;
      at := MatchingPicks(js[..n], machineId);
      if js[n].machineId == machineId {
        at := at + [n];
      }
      forall i: nat | i < |js| ensures js[i].machineId == machineId <==> i in at {
        assert i < n ==> js[..n][i] == js[i];
      }
    }
  }

  /** `queryMachineEvents`: every page in turn, keeping this machine's events. */
  method QueryMachineEvents(pages: seq<seq<LinkJson>>, machineId: string) returns (out: seq<LinkJson>)
    ensures PickedFrom(pages, machineId, out)
    ensures out == Matching(Flatten(pages), machineId)
  {
    ghost var at := MatchingPicks(Flatten(pages), machineId);
    assert PickedFrom(pages, machineId, Matching(Flatten(pages), machineId));
    hide Flatten, Matching, PickedFrom;
    out := [];
    var cursor: Option<nat> := None;
    var more := true;
    ghost var i := 0;
    FlattenNone<LinkJson>();
    MatchingNone(machineId);
    assert pages[..0] == [];
    while more
      invariant i <= |pages| && out == Matching(Flatten(pages[..i]), machineId)
      invariant if more then (cursor == None && i == 0) || cursor == Some(i) else i == |pages|
      invariant more && cursor.Some? ==> i < |pages|
      decreases |pages| - i, more
    {
      var page := QueryEvents(pages, cursor);
      ghost var before := out;
      ghost var seen := Flatten(pages[..i]);
      assert seen + page.data[..0] == seen;
      for j := 0 to |page.data|
        invariant out == Matching(seen + page.data[..j], machineId)
      {
        assert seen + page.data[..j + 1] == (seen + page.data[..j]) + [page.data[j]];
        MatchingSnoc(seen + page.data[..j], page.data[j], machineId);
        if page.data[j].machineId == machineId {
          out := out + [page.data[j]];
        }
      }
      assert page.data[..|page.data|] == page.data;
      if i < |pages| {
        FlattenSnoc(pages, i);
        i := i + 1;
      } else {
        assert out == Matching(Flatten(pages[..i]), machineId) by { assert seen + page.data == seen; }
      }
      cursor := if page.hasNextPage then page.nextCursor else None;
      more := cursor.Some?;
    }
    assert pages[..|pages|] == pages;
  }

  function FirstFork(js: seq<ForkJson>, machineId: string): Option<ForkJson> {
    if js == [] then None
    else
      var front := FirstFork(js[..|js| - 1], machineId);
      if front.None? && js[|js| - 1].childId == machineId then Some(js[|js| - 1]) else front
  }

  lemma FirstForkSnoc(js: seq<ForkJson>, j: ForkJson, machineId: string)
    ensures FirstFork(js + [j], machineId) ==
            if FirstFork(js, machineId).None? && j.childId == machineId then Some(j) else FirstFork(js, machineId)
  {
    assert (js + [j])[..|js|] == js;
  }

  lemma FirstForkNone(machineId: string)
    ensures FirstFork([], machineId) == None
  {
  }

  lemma {:induction false} FirstForkStays(a: seq<ForkJson>, b: seq<ForkJson>, machineId: string)
    requires FirstFork(a, machineId).Some?
    ensures FirstFork(a + b, machineId) == FirstFork(a, machineId)
  {
    if b == [] {
      assert a + b == a;
    } else {
      FirstForkStays(a, b[..|b| - 1], machineId);
      assert a + b == (a + b[..|b| - 1]) + [b[|b| - 1]];
      FirstForkSnoc(a + b[..|b| - 1], b[|b| - 1], machineId);
    }
  }

  datatype ForkEvent = ForkEvent(parentId: string, parentHead: Bytes, childHead: Bytes)

  function ForkEventOf(j: Option<ForkJson>): Option<ForkEvent> {
    match j
    case None => None
    case Some(f) => Some(ForkEvent(f.parentId, f.parentHead, f.childHead))
  }

  /** What the first fork event that names the machine as the child says, or that there is none. */
  ghost predicate ForkIs(js: seq<ForkJson>, machineId: string, r: Option<ForkEvent>) {
    match r
    case None => forall i :: 0 <= i < |js| ==> js[i].childId != machineId
    case Some(f) =>
      exists i :: 0 <= i < |js| && js[i].childId == machineId && (forall j :: 0 <= j < i ==> js[j].childId != machineId)
                  && f.parentId == js[i].parentId && f.parentHead == js[i].parentHead && f.childHead == js[i].childHead
  }

  lemma {:induction false} FirstForkIs(js: seq<ForkJson>, machineId: string)
    ensures ForkIs(js, machineId, ForkEventOf(FirstFork(js, machineId)))
  {
    if js != [] {
      var n := |js| - 1;
      FirstForkIs(js[..n], machineId);
      assert forall i :: 0 <= i < n ==> js[..n][i] == js[i];
    }
  }

  /** `fetchForkEvent`: pages until the first event that names the machine as the child. */
  method FetchForkEvent(pages: seq<seq<ForkJson>>, machineId: string) returns (r: Option<ForkEvent>)
    ensures ForkIs(Flatten(pages), machineId, r)
    ensures r == ForkEventOf(FirstFork(Flatten(pages), machineId))
  {
    FirstForkIs(Flatten(pages), machineId);
    hide Flatten, FirstFork, ForkIs;
    var cursor: Option<nat> := None;
    var more := true;
    ghost var i := 0;
    FlattenNone<ForkJson>();
    FirstForkNone(machineId);
    assert pages[..0] == [];
    while more
      invariant i <= |pages| && FirstFork(Flatten(pages[..i]), machineId) == None
      invariant if more then (cursor == None && i == 0) || cursor == Some(i) else i == |pages|
      invariant more && cursor.Some? ==> i < |pages|
      decreases |pages| - i, more
    {
      var page := QueryEvents(pages, cursor);
      ghost var seen := Flatten(pages[..i]);
      assert seen + page.data[..0] == seen;
      for j := 0 to |page.data|
        invariant FirstFork(seen + page.data[..j], machineId) == None
      {
        var json := page.data[j];
        assert seen + page.data[..j + 1] == (seen + page.data[..j]) + [json];
        FirstForkSnoc(seen + page.data[..j], json, machineId);
        if json.childId == machineId {
          FoundInPage(pages, i, j, machineId);
          return Some(ForkEvent(json.parentId, json.parentHead, json.childHead));
        }
      }
      assert page.data[..|page.data|] == page.data;
      if i < |pages| {
        FlattenSnoc(pages, i);
        i := i + 1;
      }
      cursor := if page.hasNextPage then page.nextCursor else None;
      more := cursor.Some?;
    }
    assert pages[..|pages|] == pages;
    return None;
  }

  lemma FoundInPage(pages: seq<seq<ForkJson>>, i: nat, j: nat, machineId: string)
    requires i < |pages| && j < |pages[i]|
    requires FirstFork(Flatten(pages[..i]) + pages[i][..j + 1], machineId).Some?
    ensures FirstFork(Flatten(pages), machineId) == FirstFork(Flatten(pages[..i]) + pages[i][..j + 1], machineId)
  {
    hide FirstFork, Flatten;
    var a := Flatten(pages[..i]) + pages[i][..j + 1];
    FlattenSnoc(pages, i);
    FlattenConcat(pages[..i + 1], pages[i + 1..]);
    assert pages == pages[..i + 1] + pages[i + 1..];
    var b := pages[i][j + 1..] + Flatten(pages[i + 1..]);
    assert Flatten(pages) == a + b;
    FirstForkStays(a, b, machineId);
  }

  // ----- the input -----

  /** `checkpointLink` and `accessLink`: the event type is told by the query, not by the event. */
  function LinkFrom(j: LinkJson, eventType: int): LinkedEntry {
    LinkedEntry(ProvenanceEntry(j.seqNo, eventType, j.blobId, j.manifestHash, j.payloadHash, j.timestampMs),
                j.prevHead, j.newHead)
  }

  function LinksFrom(js: seq<LinkJson>, eventType: int): seq<LinkedEntry> {
    seq(|js|, i requires 0 <= i < |js| => LinkFrom(js[i], eventType))
  }

  /** The links of `fetchCheckpointLinks`, `fetchAccessLinks` and `fetchRetireLinks`, one after another. */
  function LinksServed(client: Client, machineId: string): seq<LinkedEntry> {
    LinksFrom(Matching(Flatten(client.checkpoints), machineId), EVENT_CHECKPOINT)
    + LinksFrom(Matching(Flatten(client.granted), machineId), EVENT_GRANT)
    + LinksFrom(Matching(Flatten(client.revoked), machineId), EVENT_REVOKE)
    + LinksFrom(Matching(Flatten(client.retired), machineId), EVENT_RETIRE)
  }

  /** Each link holds what its event says, with the event type of the query that brought it. */
  ghost predicate Tagged(js: seq<LinkJson>, eventType: int, links: seq<LinkedEntry>) {
    && |links| == |js|
    && forall i :: 0 <= i < |js| ==>
         && links[i].entry.seqNo == js[i].seqNo && links[i].entry.eventType == eventType
         && links[i].entry.blobId == js[i].blobId && links[i].entry.manifestHash == js[i].manifestHash
         && links[i].entry.payloadHash == js[i].payloadHash && links[i].entry.timestampMs == js[i].timestampMs
         && links[i].prevHead == js[i].prevHead && links[i].newHead == js[i].newHead
  }

  ghost predicate TaggedFrom(pages: seq<seq<LinkJson>>, machineId: string, eventType: int, links: seq<LinkedEntry>) {
    exists js :: PickedFrom(pages, machineId, js) && Tagged(js, eventType, links)
  }

  /** Checkpoints (0), grants (2), revokes (3) and retirements (5), one after another. */
  ghost predicate LinksAre(client: Client, machineId: string, links: seq<LinkedEntry>) {
    exists checkpoints, granted, revoked, retired ::
      && TaggedFrom(client.checkpoints, machineId, 0, checkpoints) && TaggedFrom(client.granted, machineId, 2, granted)
      && TaggedFrom(client.revoked, machineId, 3, revoked) && TaggedFrom(client.retired, machineId, 5, retired)
      && links == checkpoints + granted + revoked + retired
  }

  lemma TagsFrom(pages: seq<seq<LinkJson>>, machineId: string, eventType: int)
    ensures TaggedFrom(pages, machineId, eventType, LinksFrom(Matching(Flatten(pages), machineId), eventType))
  {
    var js := Matching(Flatten(pages), machineId);
    var at := MatchingPicks(Flatten(pages), machineId);
    assert PickedFrom(pages, machineId, js);
    hide Flatten, Matching, PickedFrom;
    assert Tagged(js, eventType, LinksFrom(js, eventType));
  }

  lemma LinksServedAre(client: Client, machineId: string)
    ensures LinksAre(client, machineId, LinksServed(client, machineId))
  {
    TagsFrom(client.checkpoints, machineId, 0);
    TagsFrom(client.granted, machineId, 2);
    TagsFrom(client.revoked, machineId, 3);
    TagsFrom(client.retired, machineId, 5);
    hide TaggedFrom, LinksFrom, Matching, Flatten;
  }

  method FetchLinks(client: Client, machineId: string) returns (links: seq<LinkedEntry>)
    ensures LinksAre(client, machineId, links)
    ensures links == LinksServed(client, machineId)
  {
    LinksServedAre(client, machineId);
    hide LinksAre, Matching, Flatten, LinksFrom, PickedFrom;
    var checkpoints := QueryMachineEvents(client.checkpoints, machineId);
    var granted := QueryMachineEvents(client.granted, machineId);
    var revoked := QueryMachineEvents(client.revoked, machineId);
    var retired := QueryMachineEvents(client.retired, machineId);
    links := LinksFrom(checkpoints, EVENT_CHECKPOINT) + LinksFrom(granted, EVENT_GRANT)
             + LinksFrom(revoked, EVENT_REVOKE) + LinksFrom(retired, EVENT_RETIRE);
  }

  function ForkServed(client: Client, machineId: string): Option<ForkEvent> {
    ForkEventOf(FirstFork(Flatten(client.forks), machineId))
  }

  /** An empty parent id counts as none. */
  predicate HasParent(m: Machine) {
    m.parent.Some? && m.parent.value != ""
  }

  /** The genesis `parentChainHeads` starts from; nothing when the id is not hex. */
  function ParentGenesis(h: Hash, client: Client, parent: Machine, parentId: string): Option<Bytes> {
    var fork := ForkServed(client, parentId);
    if HasParent(parent) && fork.Some? then Some(fork.value.childHead)
    else
      match FromHexText(parentId)
      case None => None
      case Some(id) => Some(GenesisHead(h, id))
  }

  /** `readMachine`: the fields the node shows, under the id that was asked for. */
  function ReadMachine(client: Client, id: string): Option<Machine> {
    if id in client.objects then Some(client.objects[id].(id := id)) else None
  }

  function ParentHeadsServed(h: Hash, client: Client, parentId: string): Option<seq<Bytes>> {
    var parent := ReadMachine(client, parentId);
    if parent.None? then None
    else
      match ParentGenesis(h, client, parent.value, parentId)
      case None => None
      case Some(genesis) =>
        var entries := Ordered(genesis, LinksServed(client, parentId));
        if AllInRange(entries) then Some(Heads(h, genesis, entries)) else None
  }

  /** `parentChainHeads`: every head the parent's chain passes through, one level of lineage deep. */
  method ParentChainHeads(h: Hash, client: Client, parentId: string) returns (heads: Option<seq<Bytes>>)
    ensures ParentHeadsAre(h, client, parentId, heads)
    ensures heads == ParentHeadsServed(h, client, parentId)
  {
    ParentHeadsServedAre(h, client, parentId);
    hide ParentHeadsAre, Ordered, Heads, AllInRange, LinksServed, LinksAre, WalksFrom, ForkIs, Encodable, ChainOfHeads;
    var parent := ReadMachine(client, parentId);
    if parent.None? {
      return None;
    }
    var genesis: Option<Bytes>;
    var id := FromHexText(parentId);
    if HasParent(parent.value) {
      var fork := FetchForkEvent(client.forks, parentId);
      if fork.Some? {
        genesis := Some(fork.value.childHead);
      } else {
        genesis := if id.Some? then Some(GenesisHead(h, id.value)) else None;
      }
    } else {
      genesis := if id.Some? then Some(GenesisHead(h, id.value)) else None;
    }
    if genesis.None? {
      return None;
    }
    var links := FetchLinks(client, parentId);
    var entries := OrderByLinkage(genesis.value, links);
    heads := CollectHeads(h, genesis.value, entries);
  }

  /** The three ways `gatherVerifyInput` ends: an input, a fork event that is missing, or another
    error (no such object, an id that is not hex, an entry that does not fit its encoding). */
  datatype Gathered = Gathered(input: VerifyInput) | ForkEventMissing | Failed

  function Gather(h: Hash, client: Client, machineId: string): Gathered {
    if ReadMachine(client, machineId).None? || FromHexText(machineId).None? then Failed
    else
      var m := ReadMachine(client, machineId).value;
      var id := FromHexText(machineId).value;
      if !HasParent(m) then
        Gathered(VerifyInput(m, id, Ordered(GenesisHead(h, id), LinksServed(client, machineId)), None))
      else
        match ForkServed(client, machineId)
        case None => ForkEventMissing
        case Some(f) =>
          match ParentHeadsServed(h, client, f.parentId)
          case None => Failed
          case Some(heads) =>
            Gathered(VerifyInput(m, id, Ordered(f.childHead, LinksServed(client, machineId)),
                                 Some(ForkProof(f.childHead, f.parentHead, heads))))
  }

  /** A machine's entries: its links, walked from its genesis. */
  ghost predicate EntriesAre(client: Client, machineId: string, genesis: Bytes, entries: seq<ProvenanceEntry>) {
    exists links :: LinksAre(client, machineId, links) && WalksFrom(genesis, links, entries)
  }

  lemma EntriesServed(client: Client, machineId: string, genesis: Bytes)
    ensures EntriesAre(client, machineId, genesis, Ordered(genesis, LinksServed(client, machineId)))
  {
    LinksServedAre(client, machineId);
    OrderedWalks(genesis, LinksServed(client, machineId));
    hide LinksAre, WalksFrom, Ordered, LinksServed;
  }

  /** The heads of a parent's chain, which starts at the head its own fork event names if it has a parent and
    such an event, else at the hash of its id; nothing when it is not there, its id is not hex, or an
    entry cannot be encoded. */
  ghost predicate ParentHeadsAre(h: Hash, client: Client, parentId: string, heads: Option<seq<Bytes>>) {
    if parentId !in client.objects then heads == None
    else exists fork :: ForkIs(Flatten(client.forks), parentId, fork) && ParentHeadsWith(h, client, parentId, fork, heads)
  }

  ghost predicate ParentHeadsWith(h: Hash, client: Client, parentId: string, fork: Option<ForkEvent>, heads: Option<seq<Bytes>>)
    requires parentId in client.objects
  {
    var parent := client.objects[parentId].parent;
    var forked := parent.Some? && parent.value != "" && fork.Some?;
    if !forked && FromHexText(parentId) == None then heads == None
    else HeadsFrom(h, client, parentId, if forked then fork.value.childHead else h(FromHexText(parentId).value), heads)
  }

  ghost predicate HeadsFrom(h: Hash, client: Client, id: string, genesis: Bytes, heads: Option<seq<Bytes>>) {
    exists entries ::
      && EntriesAre(client, id, genesis, entries)
      && (heads.Some? <==> forall i :: 0 <= i < |entries| ==> Encodable(entries[i]))
      && (heads.Some? ==> ChainOfHeads(h, genesis, entries, heads.value))
  }

  lemma HeadsServed(h: Hash, client: Client, id: string, genesis: Bytes)
    ensures var entries := Ordered(genesis, LinksServed(client, id));
            HeadsFrom(h, client, id, genesis, if AllInRange(entries) then Some(Heads(h, genesis, entries)) else None)
  {
    var entries := Ordered(genesis, LinksServed(client, id));
    EntriesServed(client, id, genesis);
    AllEncodable(entries);
    if AllInRange(entries) {
      HeadsAreTheChain(h, genesis, entries, Heads(h, genesis, entries));
    }
    hide EntriesAre, Encodable, ChainOfHeads, Ordered, LinksServed, Heads, InRange;
  }

  lemma ParentHeadsServedAre(h: Hash, client: Client, parentId: string)
    ensures ParentHeadsAre(h, client, parentId, ParentHeadsServed(h, client, parentId))
  {
    if parentId in client.objects {
      var fork, heads := ForkServed(client, parentId), ParentHeadsServed(h, client, parentId);
      FirstForkIs(Flatten(client.forks), parentId);
      ParentHeadsServedWith(h, client, parentId);
      hide ForkIs, ParentHeadsWith, ParentHeadsServed, FirstFork, Flatten;
      assert ForkIs(Flatten(client.forks), parentId, fork) && ParentHeadsWith(h, client, parentId, fork, heads);
    }
  }

  lemma ParentHeadsServedWith(h: Hash, client: Client, parentId: string)
    requires parentId in client.objects
    ensures ParentHeadsWith(h, client, parentId, ForkServed(client, parentId), ParentHeadsServed(h, client, parentId))
  {
    var genesis := ParentGenesis(h, client, client.objects[parentId].(id := parentId), parentId);
    if genesis.Some? {
      HeadsServed(h, client, parentId, genesis.value);
      ParentHeadsStep(h, client, parentId, genesis.value);
    } else {
      ParentHeadsNone(h, client, parentId);
    }
    hide ParentHeadsServed, ForkServed, HeadsFrom, Ordered, LinksServed, FromHexText, AllInRange, Heads;
  }

  lemma ParentHeadsNone(h: Hash, client: Client, parentId: string)
    requires parentId in client.objects && ParentGenesis(h, client, client.objects[parentId].(id := parentId), parentId) == None
    ensures ParentHeadsServed(h, client, parentId) == None
  {
    hide ParentGenesis;
  }

  lemma ParentHeadsStep(h: Hash, client: Client, parentId: string, genesis: Bytes)
    requires parentId in client.objects
    requires ParentGenesis(h, client, client.objects[parentId].(id := parentId), parentId) == Some(genesis)
    ensures var entries := Ordered(genesis, LinksServed(client, parentId));
            ParentHeadsServed(h, client, parentId) == if AllInRange(entries) then Some(Heads(h, genesis, entries)) else None
  {
    hide Ordered, LinksServed, AllInRange, Heads, ParentGenesis;
  }

  /** What is gathered, from the node's answers alone. */
  ghost predicate GatheredIs(h: Hash, client: Client, machineId: string, r: Gathered) {
    if machineId !in client.objects || FromHexText(machineId) == None then r == Failed
    else
      var m, id := client.objects[machineId].(id := machineId), FromHexText(machineId).value;
      if m.parent == None || m.parent == Some("") then InputIs(client, m, id, h(id), None, r)
      else
        exists fork ::
          && ForkIs(Flatten(client.forks), machineId, fork)
          && (fork == None ==> r == ForkEventMissing)
          && (fork != None ==> LineageIs(h, client, m, id, fork.value, r))
  }

  ghost predicate InputIs(client: Client, m: Machine, id: Bytes, genesis: Bytes, proof: Option<ForkProof>, r: Gathered) {
    && r.Gathered? && r.input.machine == m && r.input.machineIdBytes == id && r.input.fork == proof
    && EntriesAre(client, m.id, genesis, r.input.entries)
  }

  ghost predicate LineageIs(h: Hash, client: Client, m: Machine, id: Bytes, fork: ForkEvent, r: Gathered) {
    exists heads ::
      && ParentHeadsAre(h, client, fork.parentId, heads)
      && (heads == None ==> r == Failed)
      && (heads != None ==> exists proof :: ProofIs(fork, heads.value, proof) && InputIs(client, m, id, fork.childHead, Some(proof), r))
  }

  predicate ProofIs(fork: ForkEvent, heads: seq<Bytes>, proof: ForkProof) {
    proof.childHead == fork.childHead && proof.parentHead == fork.parentHead && proof.parentHeads == heads
  }

  lemma GatherIs(h: Hash, client: Client, machineId: string)
    ensures GatheredIs(h, client, machineId, Gather(h, client, machineId))
  {
    hide Ordered, LinksServed, ParentHeadsServed, FirstFork, Flatten, FromHexText, EntriesAre, ParentHeadsAre, ForkIs;
    if machineId in client.objects && FromHexText(machineId).Some? {
      var m, id := client.objects[machineId].(id := machineId), FromHexText(machineId).value;
      if HasParent(m) {
        var fork := ForkServed(client, machineId);
        FirstForkIs(Flatten(client.forks), machineId);
        if fork.Some? {
          var f := fork.value;
          var heads := ParentHeadsServed(h, client, f.parentId);
          ParentHeadsServedAre(h, client, f.parentId);
          EntriesServed(client, machineId, f.childHead);
          if heads.Some? {
            var proof := ForkProof(f.childHead, f.parentHead, heads.value);
            assert ProofIs(f, heads.value, proof);
            assert InputIs(client, m, id, f.childHead, Some(proof), Gather(h, client, machineId));
          }
          assert LineageIs(h, client, m, id, f, Gather(h, client, machineId));
        }
      } else {
        EntriesServed(client, machineId, h(id));
      }
    }
  }

  /** `gatherVerifyInput`. */
  method GatherVerifyInput(h: Hash, client: Client, machineId: string) returns (r: Gathered)
    ensures GatheredIs(h, client, machineId, r)
    ensures r == Gather(h, client, machineId)
  {
    GatherIs(h, client, machineId);
    hide Ordered, LinksServed, ParentHeadsServed, GatheredIs, LinksAre, WalksFrom, ForkIs, PickedFrom;
    var found := ReadMachine(client, machineId);
    var id := FromHexText(machineId);
    if found.None? || id.None? {
      return Failed;
    }
    var machine := found.value;
    var genesis: Bytes;
    var fork: Option<ForkProof> := None;
    if HasParent(machine) {
      var forkEvent := FetchForkEvent(client.forks, machineId);
      if forkEvent.None? {
        return ForkEventMissing;
      }
      genesis := forkEvent.value.childHead;
      var heads := ParentChainHeads(h, client, forkEvent.value.parentId);
      if heads.None? {
        return Failed;
      }
      fork := Some(ForkProof(forkEvent.value.childHead, forkEvent.value.parentHead, heads.value));
    } else {
      genesis := GenesisHead(h, id.value);
    }
    var links := FetchLinks(client, machineId);
    var entries := OrderByLinkage(genesis, links);
    return Gathered(VerifyInput(machine, id.value, entries, fork));
  }

  /** The optional storage check: the blob's bytes, or nothing when the reader throws. */
  type BlobReader = int -> Option<Bytes>

  predicate BlobAvailable(reader: BlobReader, blobId: int) {
    reader(blobId).Some? && reader(blobId).value != []
  }

  /** `verifyFromChain`: the report on what was gathered, the storage check added in place; a missing
    fork event is a report that fails, any other error is thrown. */
  method VerifyFromChain(h: Hash, client: Client, machineId: string, reader: Option<BlobReader>)
    returns (r: Option<Report>)
    ensures var g := Gather(h, client, machineId);
            match g
            case Failed => r == None
            case ForkEventMissing => r == Some(Report(false, [Check("fork-event", false)]))
            case Gathered(input) =>
              && (r.Some? <==> AllInRange(input.entries))
              && (r.Some? ==>
                    var checked := reader.Some? && input.machine.currentBlobId != 0;
                    var blob := if checked then reader.value(input.machine.currentBlobId) else None;
                    var available := blob.Some? && |blob.value| > 0;
                    && Tells(h, input, Report(Accepts(h, input), ChecksOf(h, input)))
                    && (r.value.ok <==> Accepts(h, input) && (checked ==> available))
                    && r.value.checks == ChecksOf(h, input) + if checked then [Check("blob-available", available)] else [])
  {
    ghost var g := Gather(h, client, machineId);
    if g.Gathered? && AllInRange(g.input.entries) {
      ReportTells(h, g.input);
    }
    hide Gather, Accepts, ChecksOf, AllInRange, GatheredIs, Tells, Encodable;
    var gathered := GatherVerifyInput(h, client, machineId);
    match gathered {
      case Failed => return None;
      case ForkEventMissing => return Some(Report(false, [Check("fork-event", false)]));
      case Gathered(input) =>
        var report := VerifyMachine(h, input);
        if report.None? {
          return None;
        }
        var ok, checks := report.value.ok, report.value.checks;
        if reader.Some? && input.machine.currentBlobId != 0 {
          var available := BlobAvailable(reader.value, input.machine.currentBlobId);
          checks := checks + [Check("blob-available", available)];
          ok := ok && available;
        }
        return Some(Report(ok, checks));
    }
  }
}
