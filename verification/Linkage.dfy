/** Putting unordered chain links back into chain order: `orderByLinkage` in `provenance.ts`. */
module Linkage {
  import opened Bytes
  import opened Provenance

  datatype LinkedEntry = LinkedEntry(entry: ProvenanceEntry, prevHead: Bytes, newHead: Bytes)

  /** The map the loop fills: a later link with the same previous head replaces an earlier one. */
  function ByPrev(items: seq<LinkedEntry>): map<string, LinkedEntry> {
    if items == [] then map[]
    else
      var last := items[|items| - 1];
      ByPrev(items[..|items| - 1])[ToHex(last.prevHead) := last]
  }

  /** Following the links from a head, each consumed once. */
  function Follow(byPrev: map<string, LinkedEntry>, head: string): seq<LinkedEntry>
    decreases |byPrev|
  {
    if head in byPrev then
      MapShrinks(byPrev, head);
      [byPrev[head]] + Follow(byPrev - {head}, ToHex(byPrev[head].newHead))
    else []
  }

  lemma MapShrinks(m: map<string, LinkedEntry>, k: string)
    requires k in m
    ensures |m - {k}| < |m|
  {
    assert (m - {k}).Keys == m.Keys - {k};
  }

  lemma FollowStep(byPrev: map<string, LinkedEntry>, head: string)
    ensures head in byPrev ==>
      Follow(byPrev, head) == [byPrev[head]] + Follow(byPrev - {head}, ToHex(byPrev[head].newHead))
    ensures head !in byPrev ==> Follow(byPrev, head) == []
  {
  }

  function Entries(links: seq<LinkedEntry>): seq<ProvenanceEntry> {
    seq(|links|, i requires 0 <= i < |links| => links[i].entry)
  }

  function Ordered(genesis: Bytes, items: seq<LinkedEntry>): seq<ProvenanceEntry> {
    Entries(Follow(ByPrev(items), ToHex(genesis)))
  }

  lemma ByPrevSnoc(items: seq<LinkedEntry>, i: nat)
    requires i < |items|
    ensures ByPrev(items[..i + 1]) == ByPrev(items[..i])[ToHex(items[i].prevHead) := items[i]]
  {
    assert items[..i + 1][..i] == items[..i];
  }

  lemma EntriesNone()
    ensures Entries([]) == []
  {
  }

  lemma EntriesCons(l: LinkedEntry, rest: seq<LinkedEntry>)
    ensures Entries([l] + rest) == [l.entry] + Entries(rest)
  {
  }

  // ----- the order, link by link -----

  /** No later item has the same previous head. */
  ghost predicate Latest(items: seq<LinkedEntry>, i: int) {
    0 <= i < |items| && forall j :: i < j < |items| ==> items[j].prevHead != items[i].prevHead
  }

  /** A walk over the items at these positions: each starts at the head where the one before ended and is the
    latest that starts there, no head is left twice or when it was used before, and the walk stops where
    no other head could be left. */
  ghost predicate Thread(items: seq<LinkedEntry>, used: set<Bytes>, at: seq<nat>, heads: seq<Bytes>) {
    && |heads| == |at| + 1
    && (forall k :: 0 <= k < |at| ==> Latest(items, at[k]) && Joins(items[at[k]], heads[k], heads[k + 1]))
    && (forall k :: 0 <= k < |at| ==> heads[k] !in used)
    && (forall j, k :: 0 <= j < k < |at| ==> heads[j] != heads[k])
    && ((exists i :: 0 <= i < |items| && items[i].prevHead == heads[|at|]) ==> heads[|at|] in used || heads[|at|] in heads[..|at|])
  }

  predicate Joins(l: LinkedEntry, from: Bytes, to: Bytes) {
    l.prevHead == from && l.newHead == to
  }

  function EntriesAt(items: seq<LinkedEntry>, at: seq<nat>): seq<ProvenanceEntry>
    requires forall k :: 0 <= k < |at| ==> at[k] < |items|
  {
    seq(|at|, k requires 0 <= k < |at| => items[at[k]].entry)
  }

  /** What the order promises of any items, forged ones included. */
  ghost predicate WalksFrom(genesis: Bytes, items: seq<LinkedEntry>, ordered: seq<ProvenanceEntry>) {
    exists at, heads :: Thread(items, {}, at, heads) && heads[0] == genesis && ordered == EntriesAt(items, at)
  }

  /** There is one such walk. */
  lemma ThreadUnique(items: seq<LinkedEntry>, a: seq<nat>, x: seq<Bytes>, b: seq<nat>, y: seq<Bytes>)
    requires Thread(items, {}, a, x) && Thread(items, {}, b, y) && x[0] == y[0]
    ensures a == b
  {
    if |a| <= |b| {
      ThreadPrefix(items, a, x, b, y);
    } else {
      ThreadPrefix(items, b, y, a, x);
    }
  }

  lemma ThreadPrefix(items: seq<LinkedEntry>, a: seq<nat>, x: seq<Bytes>, b: seq<nat>, y: seq<Bytes>)
    requires Thread(items, {}, a, x) && Thread(items, {}, b, y) && x[0] == y[0] && |a| <= |b|
    ensures a == b
  {
    var n := |a|;
    for k := 0 to n
      invariant a[..k] == b[..k] && x[..k + 1] == y[..k + 1]
    {
      assert x[k] == x[..k + 1][k] == y[..k + 1][k] == y[k];
      ThreadStep(items, a, x, b, y, k);
    }
    assert x[..n + 1] == x;
    NoLonger(items, x, b, y, n);
  }

  lemma ThreadStep(items: seq<LinkedEntry>, a: seq<nat>, x: seq<Bytes>, b: seq<nat>, y: seq<Bytes>, k: nat)
    requires Thread(items, {}, a, x) && Thread(items, {}, b, y) && k < |a| && k < |b| && x[k] == y[k]
    ensures a[k] == b[k] && x[k + 1] == y[k + 1]
  {
    assert Joins(items[a[k]], x[k], x[k + 1]) && Joins(items[b[k]], y[k], y[k + 1]);
    SameLatest(items, a[k], b[k]);
  }

  lemma NoLonger(items: seq<LinkedEntry>, x: seq<Bytes>, b: seq<nat>, y: seq<Bytes>, n: nat)
    requires Thread(items, {}, b, y) && n <= |b| && |x| == n + 1 && x == y[..n + 1]
    requires (exists i :: 0 <= i < |items| && items[i].prevHead == x[n]) ==> x[n] in x[..n]
    ensures |b| == n
  {
    assert n < |b| ==> Joins(items[b[n]], y[n], y[n + 1]);
    assert x[n] == y[n] && forall k :: 0 <= k < n ==> x[..n][k] == y[k];
  }

  lemma SameLatest(items: seq<LinkedEntry>, i: nat, j: nat)
    requires Latest(items, i) && Latest(items, j) && items[i].prevHead == items[j].prevHead
    ensures i == j
  {
  }

  /** What the map holds under a head: the latest item that starts there. */
  lemma {:induction false} ByPrevLatest(items: seq<LinkedEntry>, head: Bytes) returns (i: nat)
    ensures ToHex(head) in ByPrev(items) ==>
              Latest(items, i) && items[i].prevHead == head && ByPrev(items)[ToHex(head)] == items[i]
    ensures ToHex(head) !in ByPrev(items) ==> forall j :: 0 <= j < |items| ==> items[j].prevHead != head
  {
    if items == [] {
      i := 0;
    } else {
      var n := |items| - 1;
      i := ByPrevLatest(items[..n], head);
      HexDiffers(items[n].prevHead, head);
      if items[n].prevHead == head {
        i := n;
      } else if ToHex(head) in ByPrev(items[..n]) {
        assert items[..n][i] == items[i];
        assert Latest(items, i);
      } else {
        forall j | 0 <= j < |items| ensures items[j].prevHead != head {
          assert j < n ==> items[..n][j] == items[j];
        }
      }
    }
  }

  ghost predicate Unused(items: seq<LinkedEntry>, used: set<Bytes>, left: map<string, LinkedEntry>) {
    forall head: Bytes ::
      && (ToHex(head) in left <==> ToHex(head) in ByPrev(items) && head !in used)
      && (ToHex(head) in left ==> left[ToHex(head)] == ByPrev(items)[ToHex(head)])
  }

  lemma UseOne(items: seq<LinkedEntry>, used: set<Bytes>, left: map<string, LinkedEntry>, head: Bytes)
    requires Unused(items, used, left) && ToHex(head) in left
    ensures Unused(items, used + {head}, left - {ToHex(head)})
  {
    forall x: Bytes ensures ToHex(x) == ToHex(head) <==> x == head {
      HexDiffers(x, head);
    }
    hide ToHex, ByPrev;
  }

  lemma {:induction false} FollowThreads(items: seq<LinkedEntry>, head: Bytes, used: set<Bytes>, left: map<string, LinkedEntry>)
    returns (at: seq<nat>, heads: seq<Bytes>)
    requires Unused(items, used, left)
    ensures Thread(items, used, at, heads) && heads[0] == head && Entries(Follow(left, ToHex(head))) == EntriesAt(items, at)
    decreases |left|
  {
    var i := ByPrevLatest(items, head);
    FollowStep(left, ToHex(head));
    if ToHex(head) in left {
      assert head !in used && left[ToHex(head)] == items[i];
      hide *;
      MapShrinks(left, ToHex(head));
      UseOne(items, used, left, head);
      var rest, more := FollowThreads(items, items[i].newHead, used + {head}, left - {ToHex(head)});
      at, heads := [i] + rest, [head] + more;
      ThreadLonger(items, used, i, head, rest, more);
      EntriesCons(items[i], Follow(left - {ToHex(head)}, ToHex(items[i].newHead)));
    } else {
      at, heads := [], [head];
      hide ToHex, ByPrev, Follow;
    }
  }

  lemma ThreadLonger(items: seq<LinkedEntry>, used: set<Bytes>, i: nat, head: Bytes, at: seq<nat>, heads: seq<Bytes>)
    requires Latest(items, i) && items[i].prevHead == head && head !in used
    requires Thread(items, used + {head}, at, heads) && heads[0] == items[i].newHead
    ensures Thread(items, used, [i] + at, [head] + heads)
    ensures EntriesAt(items, [i] + at) == [items[i].entry] + EntriesAt(items, at)
  {
    var a, x := [i] + at, [head] + heads;
    assert forall k :: 0 < k < |a| ==> a[k] == at[k - 1];
    assert forall k :: 0 < k < |x| ==> x[k] == heads[k - 1];
    assert x[..|a|] == [head] + heads[..|at|];
    hide Latest;
    forall k | 0 <= k < |a| ensures Latest(items, a[k]) && Joins(items[a[k]], x[k], x[k + 1]) {
    }
  }

  lemma OrderedWalks(genesis: Bytes, items: seq<LinkedEntry>)
    ensures WalksFrom(genesis, items, Ordered(genesis, items))
  {
    var at, heads := FollowThreads(items, genesis, {}, ByPrev(items));
  }

  /** `orderByLinkage`. */
  method OrderByLinkage(genesis: Bytes, items: seq<LinkedEntry>) returns (ordered: seq<ProvenanceEntry>)
    ensures WalksFrom(genesis, items, ordered)
    ensures ordered == Ordered(genesis, items)
  {
    OrderedWalks(genesis, items);
    assert ByPrev(items[..0]) == map[];
    hide ToHex, Follow, ByPrev, Entries, WalksFrom;
    var byPrev: map<string, LinkedEntry> := map[];
    for i := 0 to |items|
      invariant byPrev == ByPrev(items[..i])
    {
      ByPrevSnoc(items, i);
      byPrev := byPrev[ToHex(items[i].prevHead) := items[i]];
    }
    assert items[..|items|] == items;
    ordered := [];
    var head := ToHex(genesis);
    while head in byPrev
      invariant ordered + Entries(Follow(byPrev, head)) == Ordered(genesis, items)
      decreases |byPrev|
    {
      var next := byPrev[head];
      MapShrinks(byPrev, head);
      FollowStep(byPrev, head);
      EntriesCons(next, Follow(byPrev - {head}, ToHex(next.newHead)));
      ordered := ordered + [next.entry];
      byPrev := byPrev - {head};
      head := ToHex(next.newHead);
    }
    FollowStep(byPrev, head);
    EntriesNone();
  }

  // ----- the links of a chain -----

  /** The links an honest chain emits, in order. */
  ghost function LinksOf(h: Hash, o: Origin, es: seq<ProvenanceEntry>): (links: seq<LinkedEntry>)
    requires AllInRange(es)
  {
    seq(|es|, i requires 0 <= i < |es| =>
      LinkedEntry(es[i], ChainHead(h, o, es[..i]), ChainHead(h, o, es[..i + 1])))
  }

  ghost predicate SameLinks(items: seq<LinkedEntry>, links: seq<LinkedEntry>) {
    forall l :: l in items <==> l in links
  }

  lemma {:induction false} ByPrevDomain(items: seq<LinkedEntry>, k: string)
    ensures k in ByPrev(items) <==> exists i :: 0 <= i < |items| && ToHex(items[i].prevHead) == k
    ensures k in ByPrev(items) ==> ByPrev(items)[k] in items && ToHex(ByPrev(items)[k].prevHead) == k
  {
    if items != [] {
      var front, last := items[..|items| - 1], items[|items| - 1];
      ByPrevDomain(front, k);
      if k in ByPrev(front) {
        var i :| 0 <= i < |front| && ToHex(front[i].prevHead) == k;
        assert items[i] == front[i];
      }
      if i :| 0 <= i < |items| && ToHex(items[i].prevHead) == k {
        assert i < |front| ==> front[i] == items[i];
      }
    }
  }

  /** The keys of an honest chain's links are the hex of its heads, all different. */
  ghost predicate Distinct(h: Hash, o: Origin, es: seq<ProvenanceEntry>)
    requires AllInRange(es)
  {
    forall i, j :: 0 <= i < j <= |es| ==> Replay(h, h(OriginPreimage(o)), es[..i]) != Replay(h, h(OriginPreimage(o)), es[..j])
  }

  lemma AllDistinct(h: Hash, o: Origin, es: seq<ProvenanceEntry>)
    requires WellSized(o) && AllInRange(es)
    ensures Distinct(h, o, es) || Collides(h, ChainPreimages(h, o, es))
  {
    forall i, j | 0 <= i < j <= |es|
      ensures Replay(h, h(OriginPreimage(o)), es[..i]) != Replay(h, h(OriginPreimage(o)), es[..j])
              || Collides(h, ChainPreimages(h, o, es))
    {
      HeadsDistinct(h, o, es, i, j);
    }
  }

  /** The map, while `i` links have been consumed: exactly the rest of the chain. */
  ghost predicate Remaining(byPrev: map<string, LinkedEntry>, links: seq<LinkedEntry>, i: nat)
    requires i <= |links|
  {
    && (forall k: nat :: i <= k < |links| ==> ToHex(links[k].prevHead) in byPrev && byPrev[ToHex(links[k].prevHead)] == links[k])
    && (forall s :: s in byPrev ==> exists k: nat :: i <= k < |links| && s == ToHex(links[k].prevHead))
  }

  /** Links that are chained and whose previous heads differ, also from the final head. */
  ghost predicate Chained(links: seq<LinkedEntry>) {
    && (forall k :: 0 <= k < |links| - 1 ==> links[k].newHead == links[k + 1].prevHead)
    && (forall j, k :: 0 <= j < k < |links| ==> links[j].prevHead != links[k].prevHead)
    && (links != [] ==> forall k :: 0 <= k < |links| ==> links[k].prevHead != links[|links| - 1].newHead)
  }

  lemma ChainedByHeads(links: seq<LinkedEntry>, heads: seq<Bytes>)
    requires |heads| == |links| + 1
    requires forall k :: 0 <= k < |links| ==> links[k].prevHead == heads[k] && links[k].newHead == heads[k + 1]
    requires forall i, j :: 0 <= i < j < |heads| ==> heads[i] != heads[j]
    ensures Chained(links)
  {
    assert links != [] ==> links[|links| - 1].newHead == heads[|links|];
  }

  lemma ChainedLinks(h: Hash, o: Origin, es: seq<ProvenanceEntry>)
    requires AllInRange(es) && Distinct(h, o, es)
    ensures Chained(LinksOf(h, o, es))
    ensures es != [] ==> LinksOf(h, o, es)[0].prevHead == h(OriginPreimage(o))
    ensures Entries(LinksOf(h, o, es)) == es
  {
    hide Replay, EntryHash, InRange, OriginPreimage, Chained;
    ReplayNothing(h, h(OriginPreimage(o)));
    assert es != [] ==> es[..0] == [];
    ChainedByHeads(LinksOf(h, o, es), Heads(h, h(OriginPreimage(o)), es));
  }

  lemma ReplayNothing(h: Hash, genesis: Bytes)
    ensures Replay(h, genesis, []) == genesis
  {
  }

  lemma HexDiffers(a: Bytes, b: Bytes)
    ensures ToHex(a) == ToHex(b) <==> a == b
  {
    if ToHex(a) == ToHex(b) {
      HexInjective(a, b);
    }
  }

  lemma OneConsumed(byPrev: map<string, LinkedEntry>, links: seq<LinkedEntry>, i: nat)
    requires Chained(links) && i < |links| && Remaining(byPrev, links, i)
    ensures Remaining(byPrev - {ToHex(links[i].prevHead)}, links, i + 1)
  {
    hide ToHex;
    var head := ToHex(links[i].prevHead);
    forall k | 0 <= k < |links| ensures ToHex(links[k].prevHead) == head <==> k == i {
      HexDiffers(links[k].prevHead, links[i].prevHead);
    }
  }

  lemma NextConsumed(byPrev: map<string, LinkedEntry>, links: seq<LinkedEntry>, i: nat)
    requires Chained(links) && i <= |links| && Remaining(byPrev, links, i)
    ensures i < |links| ==>
              && ToHex(links[i].prevHead) in byPrev && byPrev[ToHex(links[i].prevHead)] == links[i]
              && links[i..] == [links[i]] + links[i + 1..]
              && (i + 1 < |links| ==> links[i].newHead == links[i + 1].prevHead)
    ensures i == |links| ==> forall s :: s !in byPrev
  {
  }

  lemma {:induction false} FollowChained(byPrev: map<string, LinkedEntry>, links: seq<LinkedEntry>, i: nat)
    requires Chained(links) && i < |links| && Remaining(byPrev, links, i)
    ensures Follow(byPrev, ToHex(links[i].prevHead)) == links[i..]
    decreases |links| - i
  {
    hide ToHex, Follow, Chained, Remaining;
    var head := ToHex(links[i].prevHead);
    var rest := byPrev - {head};
    OneConsumed(byPrev, links, i);
    NextConsumed(byPrev, links, i);
    FollowStep(byPrev, head);
    if i + 1 < |links| {
      FollowChained(rest, links, i + 1);
    } else {
      NextConsumed(rest, links, i + 1);
      FollowStep(rest, ToHex(links[i].newHead));
    }
  }

  /** Any permutation of an honest chain's links, with any of them repeated, is put back into exactly
    the chain's order; the loop ends because each link is consumed once. */
  lemma OrderRestored(h: Hash, o: Origin, es: seq<ProvenanceEntry>, items: seq<LinkedEntry>)
    requires WellSized(o) && AllInRange(es) && SameLinks(items, LinksOf(h, o, es))
    ensures Ordered(h(OriginPreimage(o)), items) == es || Collides(h, ChainPreimages(h, o, es))
  {
    AllDistinct(h, o, es);
    if Distinct(h, o, es) {
      ChainedLinks(h, o, es);
      ItemsRemain(items, LinksOf(h, o, es));
      var links := LinksOf(h, o, es);
      if es == [] {
        ByPrevDomain(items, ToHex(h(OriginPreimage(o))));
      } else {
        FollowChained(ByPrev(items), links, 0);
        assert links[0..] == links;
      }
    }
  }

  lemma ItemsRemain(items: seq<LinkedEntry>, links: seq<LinkedEntry>)
    requires Chained(links) && SameLinks(items, links)
    ensures Remaining(ByPrev(items), links, 0)
  {
    var byPrev := ByPrev(items);
    forall k: nat | k < |links|
      ensures ToHex(links[k].prevHead) in byPrev && byPrev[ToHex(links[k].prevHead)] == links[k]
    {
      var s := ToHex(links[k].prevHead);
      assert links[k] in items;
      ByPrevDomain(items, s);
      var found := byPrev[s];
      assert found in links;
      var j :| 0 <= j < |links| && links[j] == found;
      HexDiffers(found.prevHead, links[k].prevHead);
    }
    forall s | s in byPrev ensures exists k: nat :: k < |links| && s == ToHex(links[k].prevHead) {
      ByPrevDomain(items, s);
      assert byPrev[s] in links;
    }
  }

  // ----- a missing link -----

  lemma {:induction false} FollowBounded(byPrev: map<string, LinkedEntry>, head: string)
    ensures |Follow(byPrev, head)| <= |byPrev|
    decreases |byPrev|
  {
    if head in byPrev {
      MapShrinks(byPrev, head);
      FollowBounded(byPrev - {head}, ToHex(byPrev[head].newHead));
    }
  }

  lemma {:induction false} ByPrevBounded(items: seq<LinkedEntry>)
    ensures |ByPrev(items)| <= |items|
  {
    if items != [] {
      var front := ByPrev(items[..|items| - 1]);
      ByPrevBounded(items[..|items| - 1]);
      assert ByPrev(items).Keys == front.Keys + {ToHex(items[|items| - 1].prevHead)};
    }
  }

  lemma {:induction false} SubsetSize<T>(a: set<T>, b: set<T>)
    requires a <= b
    ensures |a| <= |b|
  {
    if a != {} {
      var x :| x in a;
      SubsetSize(a - {x}, b - {x});
    }
  }

  /** Leave out any one of a chain's links, keep the others in any order and number: the result is
    shorter than the chain. */
  lemma MissingLinkShortens(h: Hash, o: Origin, es: seq<ProvenanceEntry>, items: seq<LinkedEntry>, k: nat)
    requires AllInRange(es) && k < |es|
    requires forall l :: l in items ==> exists i: nat :: i < |es| && i != k && l == LinksOf(h, o, es)[i]
    ensures |Ordered(h(OriginPreimage(o)), items)| < |es|
  {
    hide ToHex, Follow, Replay, EntryHash;
    var links := LinksOf(h, o, es);
    var others := links[..k] + links[k + 1..];
    forall s | s in ByPrev(items) ensures s in ByPrev(others) {
      ByPrevDomain(items, s);
      var i: nat :| i < |es| && i != k && ByPrev(items)[s] == links[i];
      assert links[i] == others[if i < k then i else i - 1];
      ByPrevDomain(others, s);
    }
    SubsetSize(ByPrev(items).Keys, ByPrev(others).Keys);
    ByPrevBounded(others);
    FollowBounded(ByPrev(items), ToHex(h(OriginPreimage(o))));
  }
}
