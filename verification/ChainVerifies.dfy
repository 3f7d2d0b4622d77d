/** The chain and its verifier meet: every machine of every run verifies, and nothing else does. */
module ChainVerifies {
  import opened Bytes
  import opened Provenance
  import opened Linkage
  import opened Verifier
  import opened Chain
  import opened Readers

  // ----- a node that shows the chain as it is -----

  function JsonOf(e: Event): LinkJson
    requires e.Linked()
  {
    LinkJson(IdText(e.machineId), e.fields.seqNo, e.fields.blobId, e.fields.manifestHash, e.fields.payloadHash,
             e.fields.prevHead, e.fields.newHead, e.fields.timestampMs)
  }

  /** The events of one type, in the order they were emitted. */
  function Shown(log: seq<Event>, eventType: int): seq<LinkJson> {
    if log == [] then []
    else
      var e := log[|log| - 1];
      var front := Shown(log[..|log| - 1], eventType);
      if e.Linked() && e.EventType() == eventType then front + [JsonOf(e)] else front
  }

  function ShownForks(log: seq<Event>): seq<ForkJson> {
    if log == [] then []
    else
      var e := log[|log| - 1];
      var front := ShownForks(log[..|log| - 1]);
      if e.MachineForked? then front + [ForkJson(IdText(e.childId), IdText(e.parentId), e.parentHead, e.childHead)] else front
  }

  ghost predicate ServesEvents(client: Client, log: seq<Event>) {
    && Flatten(client.checkpoints) == Shown(log, EVENT_CHECKPOINT)
    && Flatten(client.granted) == Shown(log, EVENT_GRANT)
    && Flatten(client.revoked) == Shown(log, EVENT_REVOKE)
    && Flatten(client.retired) == Shown(log, EVENT_RETIRE)
    && Flatten(client.forks) == ShownForks(log)
  }

  ghost predicate ServesObject(client: Client, w: World, id: Id)
    requires id in w.machines
  {
    IdText(id) in client.objects && client.objects[IdText(id)] == View(id, w.machines[id])
  }

  ghost predicate Serves(client: Client, w: World) {
    && ServesEvents(client, w.log)
    && forall id :: id in w.machines ==> ServesObject(client, w, id)
  }

  lemma IdTextInjective(a: Id, b: Id)
    ensures IdText(a) == IdText(b) <==> a == b
  {
    HexTextRoundTrip(a);
    HexTextRoundTrip(b);
  }

  // ----- what is served is what happened -----

  lemma LinksFromSnoc(js: seq<LinkJson>, j: LinkJson, eventType: int)
    ensures LinksFrom(js + [j], eventType) == LinksFrom(js, eventType) + [LinkFrom(j, eventType)]
  {
  }

  lemma {:induction false} ServedMembers(log: seq<Event>, eventType: int, id: Id, l: LinkedEntry)
    ensures l in LinksFrom(Matching(Shown(log, eventType), IdText(id)), eventType) <==>
            l in Links(log, id) && l.entry.eventType == eventType
  {
    if log != [] {
      var front, e := log[..|log| - 1], log[|log| - 1];
      ServedMembers(front, eventType, id, l);
      if e.Linked() && e.EventType() == eventType {
        IdTextInjective(e.machineId, id);
        MatchingSnoc(Shown(front, eventType), JsonOf(e), IdText(id));
        LinksFromSnoc(Matching(Shown(front, eventType), IdText(id)), JsonOf(e), eventType);
      }
    }
  }

  lemma {:induction false} LinkTypes(log: seq<Event>, id: Id, l: LinkedEntry)
    requires l in Links(log, id)
    ensures l.entry.eventType in {EVENT_CHECKPOINT, EVENT_GRANT, EVENT_REVOKE, EVENT_RETIRE}
  {
    var front, e := log[..|log| - 1], log[|log| - 1];
    if l in Links(front, id) {
      LinkTypes(front, id, l);
    }
  }

  /** The four queries together bring back a machine's links, each of them, and no other. */
  lemma ServedLinks(client: Client, log: seq<Event>, id: Id)
    requires ServesEvents(client, log)
    ensures SameLinks(LinksServed(client, IdText(id)), Links(log, id))
  {
    hide Flatten, Matching, Shown, Links, LinksFrom, IdText;
    forall l ensures l in LinksServed(client, IdText(id)) <==> l in Links(log, id) {
      ServedMembers(log, EVENT_CHECKPOINT, id, l);
      ServedMembers(log, EVENT_GRANT, id, l);
      ServedMembers(log, EVENT_REVOKE, id, l);
      ServedMembers(log, EVENT_RETIRE, id, l);
      if l in Links(log, id) {
        LinkTypes(log, id, l);
      }
    }
  }

  lemma {:induction false} ServedFork(log: seq<Event>, id: Id)
    ensures ForkEventOf(FirstFork(ShownForks(log), IdText(id))) ==
            match ForkOf(log, id) case None => None case Some(f) => Some(ForkEvent(IdText(f.parentId), f.parentHead, f.childHead))
  {
    if log != [] {
      var front, e := log[..|log| - 1], log[|log| - 1];
      ServedFork(front, id);
      if e.MachineForked? {
        IdTextInjective(e.childId, id);
        FirstForkSnoc(ShownForks(front), ForkJson(IdText(e.childId), IdText(e.parentId), e.parentHead, e.childHead), IdText(id));
      }
    }
  }

  // ----- completeness -----

  /** The history's preimages, and for a fork also the parent's: all that is hashed to check it. */
  ghost function HashedFor(h: Hash, log: seq<Event>, id: Id): set<Bytes> {
    HistoryInRange(log, id);
    ChainPreimages(h, OriginIn(log, id), History(log, id))
    + match ForkOf(log, id)
      case None => {}
      case Some(f) =>
        HistoryInRange(log, f.parentId);
        ChainPreimages(h, OriginIn(log, f.parentId), History(log, f.parentId))
  }

  /** Ordering what the node serves gives a machine's history back. */
  lemma ServedHistory(h: Hash, w: World, client: Client, id: Id)
    requires Consistent(h, w) && ServesEvents(client, w.log) && id in w.machines
    ensures AllInRange(History(w.log, id))
    ensures Ordered(GenesisIn(h, w.log, id), LinksServed(client, IdText(id))) == History(w.log, id)
            || Collides(h, ChainPreimages(h, OriginIn(w.log, id), History(w.log, id)))
  {
    hide Ordered, LinksServed, History, Links, Descends, StateOf;
    assert Recorded(h, w.log, id, w.machines[id]);
    HistoryInRange(w.log, id);
    ServedLinks(client, w.log, id);
    OrderRestored(h, OriginIn(w.log, id), History(w.log, id), LinksServed(client, IdText(id)));
  }

  /** What the reader takes as a machine's parent chain start is that chain's genesis. */
  lemma ServedGenesis(h: Hash, w: World, client: Client, id: Id)
    requires Consistent(h, w) && Serves(client, w) && id in w.machines
    ensures ParentGenesis(h, client, View(id, w.machines[id]), IdText(id)) == Some(GenesisIn(h, w.log, id))
  {
    hide FirstFork, ForkOf, Recorded, PastHead;
    assert Descends(h, w, id, w.machines[id]);
    ServedFork(w.log, id);
    HexTextRoundTrip(id);
  }

  lemma ServedParent(h: Hash, w: World, client: Client, id: Id)
    requires Consistent(h, w) && Serves(client, w) && id in w.machines
    ensures AllInRange(History(w.log, id))
    ensures ParentHeadsServed(h, client, IdText(id)) == Some(Heads(h, GenesisIn(h, w.log, id), History(w.log, id)))
            || Collides(h, ChainPreimages(h, OriginIn(w.log, id), History(w.log, id)))
  {
    hide Ordered, LinksServed, History, Heads, Consistent, ParentGenesis, GenesisIn, ChainPreimages, OriginIn, IdText;
    ServedHistory(h, w, client, id);
    ServedGenesis(h, w, client, id);
    assert ServesObject(client, w, id);
  }

  /** The input an honest node leads to. */
  ghost predicate Genuine(h: Hash, w: World, id: Id, input: VerifyInput)
    requires id in w.machines
  {
    HistoryInRange(w.log, id);
    && input.machine == View(id, w.machines[id])
    && input.machineIdBytes == id
    && input.entries == History(w.log, id)
    && match ForkOf(w.log, id)
       case None => input.fork == None
       case Some(f) =>
         HistoryInRange(w.log, f.parentId);
         input.fork == Some(ForkProof(f.childHead, f.parentHead, Heads(h, GenesisIn(h, w.log, f.parentId), History(w.log, f.parentId))))
  }

  lemma GatherGenuine(h: Hash, w: World, client: Client, id: Id)
    requires Consistent(h, w) && Serves(client, w) && id in w.machines
    ensures var g := Gather(h, client, IdText(id));
            (g.Gathered? && Genuine(h, w, id, g.input)) || Collides(h, HashedFor(h, w.log, id))
  {
    hide Ordered, LinksServed, History, Heads, ParentHeadsServed, FirstFork, ForkOf, Recorded, PastHead, ChainPreimages, ToHex;
    assert ServesObject(client, w, id) && Descends(h, w, id, w.machines[id]);
    HexTextRoundTrip(id);
    ServedFork(w.log, id);
    ServedHistory(h, w, client, id);
    HistoryInRange(w.log, id);
    var own := ChainPreimages(h, OriginIn(w.log, id), History(w.log, id));
    if Collides(h, own) {
      CollidesMono(h, own, HashedFor(h, w.log, id));
    } else {
      match ForkOf(w.log, id)
      case None =>
      case Some(f) =>
        ServedParent(h, w, client, f.parentId);
        var parents := ChainPreimages(h, OriginIn(w.log, f.parentId), History(w.log, f.parentId));
        if Collides(h, parents) {
          CollidesMono(h, parents, HashedFor(h, w.log, id));
        }
    }
  }

  lemma GenuineAccepted(h: Hash, w: World, id: Id, input: VerifyInput)
    requires Consistent(h, w) && id in w.machines && Genuine(h, w, id, input)
    ensures AllInRange(input.entries) && Accepts(h, input)
  {
    hide History, Heads, ForkOf, LinksOf, StateOf;
    assert Recorded(h, w.log, id, w.machines[id]) && Descends(h, w, id, w.machines[id]);
    HistoryInRange(w.log, id);
    RunIsAccepted(h, input, OriginIn(w.log, id), History(w.log, id));
  }

  /** Completeness: after any run, whoever made its calls and however the node splits the events into
    pages, every machine's input is its true history and is accepted. Forks are covered, forks of
    forks too, and so is a parent that has gone on since. */
  lemma EveryMachineVerifies(h: Hash, calls: seq<Call>, client: Client, id: Id)
    requires Serves(client, Run(h, calls)) && id in Run(h, calls).machines
    ensures var g := Gather(h, client, IdText(id));
            || (g.Gathered? && Genuine(h, Run(h, calls), id, g.input) && AllInRange(g.input.entries) && Accepts(h, g.input))
            || Collides(h, HashedFor(h, Run(h, calls).log, id))
  {
    hide Gather, Genuine, Accepts, HashedFor, Run;
    RunConsistent(h, calls);
    GatherGenuine(h, Run(h, calls), client, id);
    var g := Gather(h, client, IdText(id));
    if g.Gathered? && Genuine(h, Run(h, calls), id, g.input) {
      GenuineAccepted(h, Run(h, calls), id, g.input);
    }
  }

  // ----- soundness -----

  lemma GatheredObject(h: Hash, client: Client, id: Id)
    requires Gather(h, client, IdText(id)).Gathered?
    ensures var input := Gather(h, client, IdText(id)).input;
            && Some(input.machine) == ReadMachine(client, IdText(id))
            && input.machineIdBytes == id
  {
    hide Ordered, LinksServed, ParentHeadsServed, ForkServed, ToHex;
    HexTextRoundTrip(id);
  }

  /** A node that is honest about one object only cannot get a false history accepted for it: events
    dropped, altered, injected or reordered, of this machine or of its parent. The latest checkpoint is
    the real one in any case. The verifier does not look at the length of a recorded parent head; one
    that is not 32 bytes long may make what is accepted the tail of the real history, behind an entry it
    is misread as. */
  lemma LyingEventsCaught(h: Hash, calls: seq<Call>, client: Client, id: Id)
    requires id in Run(h, calls).machines && ServesObject(client, Run(h, calls), id)
    requires var g := Gather(h, client, IdText(id));
             g.Gathered? && AllInRange(g.input.entries) && Accepts(h, g.input)
    ensures AllInRange(History(Run(h, calls).log, id))
    ensures var log := Run(h, calls).log;
            var input := Gather(h, client, IdText(id)).input;
            || (&& LastCheckpoint(input.entries) == LastCheckpoint(History(log, id))
                && (|| (OriginOf(input) == OriginIn(log, id) && SameHistory(input.entries, History(log, id)))
                    || (&& IsTail(h, input, OriginIn(log, id), History(log, id))
                        && input.fork.Some? && |input.fork.value.parentHead| != 32)))
            || Collides(h, InputPreimages(h, input) + ChainPreimages(h, OriginIn(log, id), History(log, id)))
  {
    hide Run, Accepts, SameHistory, LastCheckpoint, History, Descends, Gather, IdText, IsTail, OriginPreimage, ChainPreimages, Collides;
    var w := Run(h, calls);
    RunConsistent(h, calls);
    assert Recorded(h, w.log, id, w.machines[id]);
    HistoryInRange(w.log, id);
    var input := Gather(h, client, IdText(id)).input;
    GatheredObject(h, client, id);
    AcceptedIsTheRun(h, input, OriginIn(w.log, id), History(w.log, id));
  }
}
