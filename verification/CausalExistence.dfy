/**
 * When two streams have a causal interleaving at all, and so what a refused merge proves.
 *
 * The condition is over pairs of the streams' own records; no merge, order or frontier occurs in it.
 */
module CausalExistence {
  import opened Prelude
  import opened Blocks
  import opened Serial
  import opened Placement
  import opened CausalRule
  import opened CausalMerge
  import opened MergeTheorems
  import opened Unwrapping

  /** The stream's sequence numbers never step back. */
  ghost predicate KeepsOwnOrder(v: View) {
    InSerialOrder(v.records)
  }

  /** `a`'s `i`th record acknowledges `b`'s `j`th, and one of `b` up to there one of `a` from `i` on. */
  predicate ConflictAt(a: View, i: nat, k: nat, b: View, l: nat, j: nat) {
    i <= k && l <= j && Acknowledges(a, i, b, j) && Acknowledges(b, l, a, k)
  }

  /** Each side acknowledges what the other can only store later. */
  ghost predicate Conflict(a: View, b: View) {
    exists i: nat, k: nat, l: nat, j: nat :: ConflictAt(a, i, k, b, l, j)
  }

  /** Some order holds both streams, each in its own order, and is causal. */
  ghost predicate HasOrder(isns: Isns, a: View, b: View) {
    exists order :: Interleaves(order, a, b) && CausalOrder(Some(2), isns, order)
  }

  /** Two whole streams of one session. */
  predicate TwoStreams(isns: Isns, a: View, b: View) {
    && a.pid != b.pid && a.next == b.next == 0
    && a.isn == IsnOf(isns, a.pid) && b.isn == IsnOf(isns, b.pid)
    && SentBy(a.pid, a.records) && SentBy(b.pid, b.records)
  }

  // ----- An order leaves no conflict ---------------------------------------------------------

  /** Of one sender's records, the later one in the stream is stored later. */
  lemma StoredInOrder(order: seq<Record>, pid: u16, p: nat, q: nat)
    requires p < |order| && q < |order| && order[p].senderPid == order[q].senderPid == pid
    requires |Sent(order[..p], pid)| <= |Sent(order[..q], pid)|
    ensures p <= q
  {
    if q < p {
      SentGrows(order, pid, q + 1, p);
      assert order[..q + 1] == order[..q] + [order[q]];
      SentSnoc(order[..q], order[q], pid);
    }
  }

  lemma {:induction false} SentGrows(order: seq<Record>, pid: u16, m: nat, n: nat)
    requires m <= n <= |order|
    ensures |Sent(order[..m], pid)| <= |Sent(order[..n], pid)|
  {
    if m < n {
      SentGrows(order, pid, m, n - 1);
      assert order[..n] == order[..n - 1] + [order[n - 1]];
      SentSnoc(order[..n - 1], order[n - 1], pid);
    }
  }

  /** The four records of a conflict cannot all be stored after what they acknowledge. */
  lemma ConflictHasNoOrder(isns: Isns, a: View, b: View, order: seq<Record>, i: nat, k: nat, l: nat, j: nat)
    requires TwoStreams(isns, a, b) && ConflictAt(a, i, k, b, l, j) && Interleaves(order, a, b)
    ensures !CausalOrder(Some(2), isns, order)
  {
    if CausalOrder(Some(2), isns, order) {
      InRange(a, i, b, j);
      InRange(b, l, a, k);
      hide CausalOrder, Acknowledges, Sent;
      var pi := Locate(order, a.pid, i);
      var pk := Locate(order, a.pid, k);
      var pl := Locate(order, b.pid, l);
      var pj := Locate(order, b.pid, j);
      AcknowledgedComesFirst(isns, order, a, i, b, j, pi, pj);
      AcknowledgedComesFirst(isns, order, b, l, a, k, pl, pk);
      StoredInOrder(order, a.pid, pi, pk);
      StoredInOrder(order, b.pid, pl, pj);
    }
  }

  lemma InRange(f: View, i: nat, g: View, j: nat)
    requires Acknowledges(f, i, g, j)
    ensures i < |f.records| && j < |g.records|
  {
  }

  /** A causal order keeps each stream's own order. */
  lemma OrderKeepsStreams(isns: Isns, v: View, order: seq<Record>)
    requires Sent(order, v.pid) == v.records && CausalOrder(Some(2), isns, order)
    ensures KeepsOwnOrder(v)
  {
    FollowsIsInOrder(v.records);
    hide Sent, FollowsInStream, EdgesKept, InSerialOrder;
    forall k | 0 <= k < |v.records| ensures FollowsInStream(v.records[..k], v.records[k]) {
      var p := Locate(order, v.pid, k);
      assert Admits(Some(2), isns, order[..p], order[p]);
    }
  }

  // ----- No conflict leaves an order ---------------------------------------------------------

  /** As long as something is left, one of the heads is free. */
  lemma OneIsFree(a: View, b: View)
    requires a.Valid() && b.Valid() && a.next >= 0 && b.next >= 0 && (a.HasHead() || b.HasHead())
    requires !Conflict(a, b)
    ensures Free(a, b) || Free(b, a)
  {
    if a.HasHead() && b.HasHead() {
      if !Free(a, b) && !Free(b, a) {
        BlockedBoth(a, b);
      }
    } else if a.HasHead() {
      NoHeadNoBlock(a, b);
    } else {
      NoHeadNoBlock(b, a);
    }
  }

  lemma BlockedBoth(a: View, b: View)
    requires a.HasHead() && b.HasHead() && !Free(a, b) && !Free(b, a)
    ensures Conflict(a, b)
  {
    hide Acknowledges;
    var j: nat :| b.next <= j && Acknowledges(a, a.next, b, j);
    var k: nat :| a.next <= k && Acknowledges(b, b.next, a, k);
    assert ConflictAt(a, a.next, k, b, b.next, j);
  }

  /** Nothing is left to acknowledge of a stream that is out. */
  lemma NoHeadNoBlock(f: View, g: View)
    requires f.HasHead() && g.Valid() && g.next >= 0 && !g.HasHead()
    ensures Free(f, g)
  {
  }

  /** Reading on does not make a conflict. */
  lemma ConflictIsOfStreams(f: View, g: View)
    requires Conflict(f.Advanced(), g) || Conflict(g, f.Advanced())
    ensures Conflict(f, g) && Conflict(g, f)
  {
    forall i: nat, j: nat
      ensures Acknowledges(f.Advanced(), i, g, j) == Acknowledges(f, i, g, j)
      ensures Acknowledges(g, i, f.Advanced(), j) == Acknowledges(g, i, f, j)
    {
      AdvanceAcknowledges(f, g, i, j);
    }
    hide Acknowledges;
    if i: nat, k: nat, l: nat, j: nat :| ConflictAt(f.Advanced(), i, k, g, l, j) {
      assert ConflictAt(f, i, k, g, l, j) && ConflictAt(g, l, j, f, i, k);
    } else {
      var i: nat, k: nat, l: nat, j: nat :| ConflictAt(g, i, k, f.Advanced(), l, j);
      assert ConflictAt(g, i, k, f, l, j) && ConflictAt(f, l, j, g, i, k);
    }
  }

  lemma ConflictIsMutual(a: View, b: View)
    ensures Conflict(a, b) == Conflict(b, a)
  {
    hide Acknowledges;
    if i: nat, k: nat, l: nat, j: nat :| ConflictAt(a, i, k, b, l, j) {
      assert ConflictAt(b, l, j, a, i, k);
    }
    if i: nat, k: nat, l: nat, j: nat :| ConflictAt(b, i, k, a, l, j) {
      assert ConflictAt(a, l, j, b, i, k);
    }
  }

  /** What holds while an order is built up, `f` and `g` being what is still to be stored. */
  ghost predicate Building(isns: Isns, emitted: seq<Record>, f: View, g: View) {
    && f.Valid() && g.Valid() && f.next >= 0 && g.next >= 0 && f.pid != g.pid
    && f.isn == IsnOf(isns, f.pid) && g.isn == IsnOf(isns, g.pid)
    && SentBy(f.pid, f.records) && SentBy(g.pid, g.records) && KeepsOwnOrder(f) && KeepsOwnOrder(g)
    && EmittedSoFar(emitted, f, g) && CausalOrder(Some(2), isns, emitted)
    && NothingPrecluded(f, g) && NothingPrecluded(g, f) && !Conflict(f, g)
  }

  /** Storing a free head keeps it. */
  lemma BuildStep(isns: Isns, emitted: seq<Record>, f: View, g: View)
    requires Building(isns, emitted, f, g) && Free(f, g)
    ensures Building(isns, emitted + [f.records[f.next]], f.Advanced(), g)
  {
    FreeHasHead(f, g);
    HeadKeepsOrder(f);
    if Conflict(f.Advanced(), g) {
      ConflictIsOfStreams(f, g);
    }
    hide Free, NothingPrecluded, CausalOrder, EmittedSoFar, Conflict, KeepsOwnOrder, SentBy, View.InOrder;
    EmitStep(Some(2), isns, emitted, f, g);
  }

  lemma HeadKeepsOrder(f: View)
    requires KeepsOwnOrder(f) && f.Valid()
    ensures f.InOrder() && KeepsOwnOrder(f.Advanced())
  {
    FollowsIsInOrder(f.records);
    hide FollowsInStream, InSerialOrder;
  }

  lemma BuildingIsMutual(isns: Isns, emitted: seq<Record>, f: View, g: View)
    ensures Building(isns, emitted, f, g) ==> Building(isns, emitted, g, f)
  {
    ConflictIsMutual(f, g);
    hide NothingPrecluded, CausalOrder, Conflict, KeepsOwnOrder, SentBy, Sent;
  }

  /** With both streams out, the order holds them both. */
  lemma BuiltUp(isns: Isns, emitted: seq<Record>, f: View, g: View)
    requires Building(isns, emitted, f, g) && !f.HasHead() && !g.HasHead()
    ensures Interleaves(emitted, f, g) && CausalOrder(Some(2), isns, emitted)
  {
    assert f.records[..|f.records|] == f.records && g.records[..|g.records|] == g.records;
    hide NothingPrecluded, CausalOrder, Conflict, KeepsOwnOrder, SentBy, Sent;
  }

  /** Store one free head after the other. */
  lemma {:induction false} Build(isns: Isns, emitted: seq<Record>, f: View, g: View) returns (order: seq<Record>)
    requires Building(isns, emitted, f, g)
    ensures Interleaves(order, f, g) && CausalOrder(Some(2), isns, order)
    decreases |f.records| - f.next + |g.records| - g.next
  {
    BuildingParts(isns, emitted, f, g);
    if !f.HasHead() && !g.HasHead() {
      BuiltUp(isns, emitted, f, g);
      return emitted;
    }
    OneIsFree(f, g);
    hide Building, Free, CausalOrder, Sent, Conflict;
    if Free(f, g) {
      FreeHasHead(f, g);
      BuildStep(isns, emitted, f, g);
      order := Build(isns, emitted + [f.records[f.next]], f.Advanced(), g);
    } else {
      FreeHasHead(g, f);
      BuildingIsMutual(isns, emitted, f, g);
      BuildStep(isns, emitted, g, f);
      BuildingIsMutual(isns, emitted + [g.records[g.next]], g.Advanced(), f);
      order := Build(isns, emitted + [g.records[g.next]], f, g.Advanced());
    }
  }

  lemma BuildingParts(isns: Isns, emitted: seq<Record>, f: View, g: View)
    requires Building(isns, emitted, f, g)
    ensures f.Valid() && g.Valid() && f.next >= 0 && g.next >= 0 && !Conflict(f, g)
  {
  }

  // ----- Exactly when ------------------------------------------------------------------------

  /**
   * Two streams have a causal interleaving iff each keeps its own order and no two pairs of their
   * records acknowledge each other crosswise. Nothing is asked of the streams.
   */
  lemma OrderExistsIff(isns: Isns, a: View, b: View)
    requires TwoStreams(isns, a, b)
    ensures HasOrder(isns, a, b) <==> KeepsOwnOrder(a) && KeepsOwnOrder(b) && !Conflict(a, b)
  {
    hide CausalOrder, Acknowledges, Interleaves;
    if HasOrder(isns, a, b) {
      var order :| Interleaves(order, a, b) && CausalOrder(Some(2), isns, order);
      BothSent(order, a, b);
      OrderKeepsStreams(isns, a, order);
      OrderKeepsStreams(isns, b, order);
      if i: nat, k: nat, l: nat, j: nat :| ConflictAt(a, i, k, b, l, j) {
        ConflictHasNoOrder(isns, a, b, order, i, k, l, j);
      }
    }
    if KeepsOwnOrder(a) && KeepsOwnOrder(b) && !Conflict(a, b) {
      NothingEmitted(Some(2), isns, a, b);
      var order := Build(isns, [], a, b);
    }
  }

  lemma BothSent(order: seq<Record>, a: View, b: View)
    requires Interleaves(order, a, b)
    ensures Sent(order, a.pid) == a.records && Sent(order, b.pid) == b.records
  {
  }

  /**
   * What a refused merge proves: that no causal order exists, iff the streams conflict or one steps
   * back. A refusal for stepping back is always right.
   */
  lemma RefusalIsRightIff(isns: Isns, a: View, b: View)
    requires TwoStreams(isns, a, b) && MergeOf(a, b).outcome != Complete
    ensures !HasOrder(isns, a, b) <==> Conflict(a, b) || !KeepsOwnOrder(a) || !KeepsOwnOrder(b)
    ensures MergeOf(a, b).outcome == OutOfOrder ==> !KeepsOwnOrder(a) || !KeepsOwnOrder(b)
  {
    OrderExistsIff(isns, a, b);
    HowItEnds(a, b);
    var m := MergeOf(a, b);
    if m.outcome == OutOfOrder && m.left.HasHead() && !m.left.Advanced().InOrder() {
      SteppedBack(m.left);
    } else if m.outcome == OutOfOrder {
      SteppedBack(m.right);
    }
    hide MergeFrom, KeepsOwnOrder, Conflict, HasOrder;
  }

  lemma SteppedBack(v: View)
    requires v.Valid() && v.next >= 0 && v.HasHead() && !v.Advanced().InOrder()
    ensures !KeepsOwnOrder(v)
  {
    FollowsIsInOrder(v.records);
    hide FollowsInStream, InSerialOrder;
  }

  /** A stall with an end on both heads is a conflict of the streams, seen at the heads. */
  lemma StalledEndsConflict(a: View, b: View)
    requires a.next == b.next == 0 && MergeOf(a, b).outcome == Stalled
    requires MergeOf(a, b).left.HeadEnd().Some? && MergeOf(a, b).right.HeadEnd().Some?
    ensures Conflict(a, b)
  {
    HowItEnds(a, b);
    var f, g := MergeOf(a, b).left, MergeOf(a, b).right;
    BlockedHeadAcknowledges(f, g);
    BlockedHeadAcknowledges(g, f);
    ReadElsewhere(a, f.next, b, g.next, f, g);
    ReadElsewhere(b, g.next, a, f.next, g, f);
    hide Acknowledges, MergeFrom, PairReady, View.HeadEnd;
    assert ConflictAt(a, f.next, f.next, b, g.next, g.next);
  }

  lemma ReadElsewhere(a: View, i: nat, b: View, j: nat, f: View, g: View)
    requires f == a.(next := f.next) && g == b.(next := g.next)
    ensures Acknowledges(f, i, g, j) == Acknowledges(a, i, b, j)
  {
    hide AckAfter, PlacerAfter, SerialDelta, AckStep, EndAt;
  }

  // ----- The condition in true positions -------------------------------------------------------

  /** A stream whose true positions are known, read from `origin` on. */
  predicate TrueStream(v: View, at: seq<int>, origin: int) {
    && CarriesPositions(v.records, at) && NearbySteps(v.records, at, origin) && OriginIs(v.isn, v.records, at, origin)
  }

  /** Its acks, as true positions of the peer's stream. */
  predicate TrueAcks(v: View, acked: seq<int>, peerOrigin: int) {
    CarriesAcks(v.records, acked) && NearbyAcks(v.records, acked, peerOrigin)
  }

  /** One past the last true position the record occupies. */
  function TrueEnd(r: Record, at: int): int {
    if r.payload == [] && !r.Syn() && r.Fin() then at + 1 else at + |r.payload|
  }

  /** Data, a SYN or a FIN: what takes up sequence numbers. */
  predicate Occupies(r: Record) {
    r.payload != [] || r.Syn() || r.Fin()
  }

  /** Both streams and all acks with their true positions. */
  predicate TruePair(a: View, b: View, atA: seq<int>, atB: seq<int>, ackedA: seq<int>, ackedB: seq<int>,
                     originA: int, originB: int) {
    && TrueStream(a, atA, originA) && TrueStream(b, atB, originB)
    && TrueAcks(a, ackedA, originB) && TrueAcks(b, ackedB, originA)
  }

  /** `f`'s `i`th ack truly reaches all that `g`'s `j`th record occupies, of a record that can be placed. */
  predicate TrulyReaches(f: View, i: nat, g: View, j: nat, acked: seq<int>, at: seq<int>, origin: int)
    requires |acked| == |f.records| && |at| == |g.records|
  {
    && i < |f.records| && f.records[i].ack.Some?
    && j < |g.records| && g.records[j].seqStart.Some? && at[j] >= Furthest(g.records, at, origin, j)
    && Occupies(g.records[j]) && acked[i] >= TrueEnd(g.records[j], at[j])
  }

  /** Unwrapped or true: one record acknowledges another or it does not. */
  lemma AcknowledgesTruly(f: View, i: nat, g: View, j: nat, acked: seq<int>, at: seq<int>, origin: int)
    requires TrueStream(g, at, origin) && TrueAcks(f, acked, origin)
    ensures Acknowledges(f, i, g, j) <==> TrulyReaches(f, i, g, j, acked, at, origin)
  {
    if i < |f.records| && f.records[i].ack.Some? && j < |g.records| {
      HasEndIff(g, j, at, origin);
      if EndAt(g.isn, g.records, j).Some? {
        EndIsTrue(g, j, at, origin);
        AckIsTruly(f, i, acked, origin);
      }
    }
    hide Occupies, Furthest, TrueEnd, EndAt, NearbySteps, NearbyAcks, CarriesPositions, CarriesAcks, OriginIs, Wrap;
  }

  /** A record has an end iff it can be placed and occupies something. */
  lemma HasEndIff(g: View, j: nat, at: seq<int>, origin: int)
    requires TrueStream(g, at, origin) && j < |g.records|
    ensures EndAt(g.isn, g.records, j).Some?
       <==> g.records[j].seqStart.Some? && at[j] >= Furthest(g.records, at, origin, j) && Occupies(g.records[j])
  {
    hide PlacerAfter, Place, Furthest, Hinted, Wrap, NearbySteps, OriginIs;
    UnwrappingIsExact(g.isn, g.records, at, origin, j);
  }

  lemma EndIsTrue(g: View, j: nat, at: seq<int>, origin: int)
    requires TrueStream(g, at, origin) && j < |g.records| && EndAt(g.isn, g.records, j).Some?
    ensures EndAt(g.isn, g.records, j).value == TrueEnd(g.records[j], at[j]) - origin
    ensures OriginAt(g, j) == Wrap(origin)
  {
    hide PlacerAfter, Place, Furthest, Hinted, Wrap, NearbySteps, OriginIs;
    UnwrappingIsExact(g.isn, g.records, at, origin, j);
    WalkIsExact(g.isn, g.records, at, origin, j + 1);
    PlacedAnchors(g.isn, g.records, j);
  }

  lemma AckIsTruly(f: View, i: nat, acked: seq<int>, origin: int)
    requires TrueAcks(f, acked, origin) && i < |f.records| && f.records[i].ack.Some?
    ensures AckPosition(f, i, Wrap(origin)) == acked[i] - origin
  {
    assert f.records[..i + 1] == f.records[..i] + [f.records[i]];
    AckSnoc(f.records[..i], f.records[i]);
    AckWalkIsExact(f.records, acked, origin, i + 1);
    hide AckAfter, AckStep, SerialDelta, Wrap, NearbyAcks;
  }

  /**
   * Whatever was captured, retransmissions included: two streams that keep their own order have a
   * causal interleaving iff no two acks truly reach, crosswise, what the other side stores later.
   */
  lemma OrderExistsInTruth(isns: Isns, a: View, b: View, atA: seq<int>, atB: seq<int>,
                           ackedA: seq<int>, ackedB: seq<int>, originA: int, originB: int)
    requires TwoStreams(isns, a, b) && KeepsOwnOrder(a) && KeepsOwnOrder(b)
    requires TruePair(a, b, atA, atB, ackedA, ackedB, originA, originB)
    ensures |atA| == |ackedA| == |a.records| && |atB| == |ackedB| == |b.records|
    ensures HasOrder(isns, a, b) <==> forall i: nat, k: nat, l: nat, j: nat ::
      i <= k && l <= j ==> !(TrulyReaches(a, i, b, j, ackedA, atB, originB) && TrulyReaches(b, l, a, k, ackedB, atA, originA))
  {
    OrderExistsIff(isns, a, b);
    forall i: nat, j: nat
      ensures Acknowledges(a, i, b, j) <==> TrulyReaches(a, i, b, j, ackedA, atB, originB)
      ensures Acknowledges(b, i, a, j) <==> TrulyReaches(b, i, a, j, ackedB, atA, originA)
    {
      AcknowledgesTruly(a, i, b, j, ackedA, atB, originB);
      AcknowledgesTruly(b, i, a, j, ackedB, atA, originA);
    }
    hide Acknowledges, TrulyReaches, HasOrder, KeepsOwnOrder;
    if Conflict(a, b) {
      var i: nat, k: nat, l: nat, j: nat :| ConflictAt(a, i, k, b, l, j);
      assert TrulyReaches(a, i, b, j, ackedA, atB, originB) && TrulyReaches(b, l, a, k, ackedB, atA, originA);
    } else {
      forall i: nat, k: nat, l: nat, j: nat | i <= k && l <= j
        ensures !(TrulyReaches(a, i, b, j, ackedA, atB, originB) && TrulyReaches(b, l, a, k, ackedB, atA, originA))
      {
        assert !ConflictAt(a, i, k, b, l, j);
      }
    }
  }
}
