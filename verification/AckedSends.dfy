/**
 * Which stored orders of a captured run are causal, told in the run's own positions.
 *
 * Nothing here speaks of offsets, ends or walks: a send counts by the sequence numbers it consumes,
 * an ack by the position it truly acknowledges.
 */
module AckedSends {
  import opened Prelude
  import opened Blocks
  import Serial
  import opened Placement
  import opened CausalRule
  import opened CausalMerge
  import opened MergeTheorems
  import opened HonestRun
  import CausalExistence
  import Unwrapping

  /** Send `k` consumes a sequence number: its sender's frontier moves. */
  predicate Consumes(run: seq<Event>, k: nat)
    requires k < |run|
  {
    PositionAfter(run, k) > SendFrontier(run, run[k].fromA, k)
  }

  /** A FIN that is not all its segment consumes; an ack of the rest already proves the segment sent. */
  predicate RidingFin(r: Record) {
    r.Fin() && (r.Syn() || r.payload != [])
  }

  /** The least acknowledged position that proves send `k` was made. */
  function ProvenAt(run: seq<Event>, k: nat): int
    requires k < |run|
  {
    PositionAfter(run, k) - if RidingFin(run[k].record) then 1 else 0
  }

  /** The run index of the `p`th record of an order of the captures `a` and `b`. */
  function SendAt(order: seq<Record>, p: nat, pidA: u16, ata: seq<nat>, atb: seq<nat>): Option<nat>
    requires p < |order|
  {
    var at, n := if order[p].senderPid == pidA then ata else atb, |Sent(order[..p], order[p].senderPid)|;
    if n < |at| then Some(at[n]) else None
  }

  /** The order's `q`th record was not yet acknowledged by the `p`th, whatever the `q`th consumed. */
  predicate NotForetold(run: seq<Event>, early: Option<nat>, late: Option<nat>) {
    early.Some? && late.Some? && early.value < |run| && late.value < |run|
    && (run[early.value].fromA != run[late.value].fromA
        && run[early.value].record.ack.Some? && Consumes(run, late.value) ==>
          run[early.value].acked < ProvenAt(run, late.value))
  }

  /** A captured send has an end iff it consumes a number, and the end is where an ack proves it. */
  lemma ConsumingSendsEnd(s: Session, run: seq<Event>, fromA: bool, at: seq<nat>, v: View, peerOrigin: int, i: nat)
    requires Honest(s, run) && CaptureOf(s, run, fromA, at, v, peerOrigin) && i < |at|
    ensures EndAt(v.isn, v.records, i)
         == if Consumes(run, at[i]) then Some(s.Base(fromA) + ProvenAt(run, at[i]) - TrueOrigin(s, run, fromA, at, v.isn))
            else None
  {
    hide *;
    CapturedSends(s, run, fromA, at, v, peerOrigin);
    CaptureIsPlaced(s, run, fromA, at, v, peerOrigin, i);
    CapturedRecord(s, run, fromA, at, v, peerOrigin, i);
    EndOfSend(run, at[i], s.Base(fromA) + PositionOf(run, at[i]) - TrueOrigin(s, run, fromA, at, v.isn));
  }

  lemma CapturedSends(s: Session, run: seq<Event>, fromA: bool, at: seq<nat>, v: View, peerOrigin: int)
    requires CaptureOf(s, run, fromA, at, v, peerOrigin)
    ensures forall k :: 0 <= k < |at| ==> at[k] < |run|
  {
    hide Unwrapping.NearbySteps, Unwrapping.NearbyAcks, TrueOrigin;
  }

  lemma CapturedRecord(s: Session, run: seq<Event>, fromA: bool, at: seq<nat>, v: View, peerOrigin: int, i: nat)
    requires CaptureOf(s, run, fromA, at, v, peerOrigin) && i < |at|
    ensures i < |v.records| && at[i] < |run| && v.records[i] == run[at[i]].record
    ensures EndAt(v.isn, v.records, i) == SequenceEnd(v.records[i], OffsetAt(v.isn, v.records, i))
  {
    hide SequenceEnd, OffsetAt, Unwrapping.NearbySteps, Unwrapping.NearbyAcks, TrueOrigin;
  }

  /** Where a send placed at `offset` ends. */
  lemma EndOfSend(run: seq<Event>, k: nat, offset: int)
    requires k < |run|
    ensures SequenceEnd(run[k].record, Some(offset))
         == if Consumes(run, k) then Some(offset + ProvenAt(run, k) - PositionOf(run, k)) else None
  {
    var r := run[k].record;
    assert PositionOf(run, k) == SendFrontier(run, run[k].fromA, k) + if r.Syn() then 1 else 0;
    assert PositionAfter(run, k) == PositionOf(run, k) + |r.payload| + if r.Fin() then 1 else 0;
    hide SendFrontier, PositionOf, PositionAfter;
  }

  /** What a capture gives to the statements over true positions. */
  lemma CaptureIsTrue(s: Session, run: seq<Event>, fromA: bool, at: seq<nat>, v: View, peerOrigin: int)
    requires Honest(s, run) && CaptureOf(s, run, fromA, at, v, peerOrigin)
    ensures CausalExistence.TrueStream(v, SeqPositions(s, run, fromA, at), TrueOrigin(s, run, fromA, at, v.isn))
    ensures CausalExistence.TrueAcks(v, AckPositions(s, run, fromA, at), peerOrigin)
  {
    CaptureCarries(s, run, fromA, at, v, peerOrigin);
    CaptureAcks(s, run, fromA, at, v);
    hide HonestStep, Serial.Wrap, Unwrapping.CarriesPositions, Unwrapping.OriginIs, TrueOrigin;
    hide Unwrapping.NearbySteps, Unwrapping.NearbyAcks, Unwrapping.CarriesAcks;
  }

  lemma CaptureAcks(s: Session, run: seq<Event>, fromA: bool, at: seq<nat>, v: View)
    requires Honest(s, run) && Captures(run, fromA, at, v)
    ensures Unwrapping.CarriesAcks(v.records, AckPositions(s, run, fromA, at))
  {
    hide SendFrontier, PositionOf, Serial.Wrap;
    var acks := AckPositions(s, run, fromA, at);
    forall k | 0 <= k < |at| && v.records[k].ack.Some? ensures v.records[k].ack.value == Serial.Wrap(acks[k]) {
      assert HonestStep(s, run, at[k]);
    }
  }

  /** One captured record acknowledges another iff its true ack reaches where that send is proven. */
  lemma AcknowledgesIsProof(s: Session, run: seq<Event>, fromA: bool, atf: seq<nat>, f: View,
                            atg: seq<nat>, g: View, i: nat, j: nat)
    requires Honest(s, run) && i < |atf| && j < |atg| && Captures(run, fromA, atf, f) && Captures(run, !fromA, atg, g)
    requires CaptureOf(s, run, fromA, atf, f, TrueOrigin(s, run, !fromA, atg, g.isn))
    requires CaptureOf(s, run, !fromA, atg, g, TrueOrigin(s, run, fromA, atf, f.isn))
    ensures Acknowledges(f, i, g, j) <==> !NotForetold(run, Some(atf[i]), Some(atg[j]))
  {
    var origin := TrueOrigin(s, run, !fromA, atg, g.isn);
    var acked, at := AckPositions(s, run, fromA, atf), SeqPositions(s, run, !fromA, atg);
    CaptureIsTrue(s, run, fromA, atf, f, origin);
    CaptureIsTrue(s, run, !fromA, atg, g, TrueOrigin(s, run, fromA, atf, f.isn));
    ConsumingSendsEnd(s, run, !fromA, atg, g, TrueOrigin(s, run, fromA, atf, f.isn), j);
    hide *;
    if f.records[i].ack.Some? && EndAt(g.isn, g.records, j).Some? {
      CausalExistence.EndIsTrue(g, j, at, origin);
      CausalExistence.AckIsTruly(f, i, acked, origin);
    }
    AcknowledgesAt(f, i, g, j);
    ForetoldIs(run, fromA, atf, f, atg, g, i, j);
  }

  lemma AcknowledgesAt(f: View, i: nat, g: View, j: nat)
    requires i < |f.records| && j < |g.records|
    ensures Acknowledges(f, i, g, j) <==>
      && f.records[i].ack.Some? && EndAt(g.isn, g.records, j).Some?
      && AckPosition(f, i, OriginAt(g, j)) >= EndAt(g.isn, g.records, j).value
  {
    hide EndAt, AckPosition, OriginAt;
  }

  lemma ForetoldIs(run: seq<Event>, fromA: bool, atf: seq<nat>, f: View, atg: seq<nat>, g: View, i: nat, j: nat)
    requires i < |atf| && j < |atg| && Captures(run, fromA, atf, f) && Captures(run, !fromA, atg, g)
    ensures NotForetold(run, Some(atf[i]), Some(atg[j]))
       <==> (f.records[i].ack.Some? && Consumes(run, atg[j]) ==> run[atf[i]].acked < ProvenAt(run, atg[j]))
  {
    hide Consumes, ProvenAt;
  }

  /** The `p`th record of an order of two captures, found in its stream. */
  lemma SendIs(run: seq<Event>, order: seq<Record>, p: nat, a: View, ata: seq<nat>, b: View, atb: seq<nat>)
    requires Interleaves(order, a, b) && a.pid != b.pid && p < |order|
    requires Captures(run, true, ata, a) && Captures(run, false, atb, b)
    ensures var fromA, i := order[p].senderPid == a.pid, |Sent(order[..p], order[p].senderPid)|;
            var f, at := if fromA then a else b, if fromA then ata else atb;
            && order[p].senderPid == f.pid && i < |at| && order[p] == f.records[i]
            && Sent(order[..p], f.pid) == f.records[..i]
            && SendAt(order, p, a.pid, ata, atb) == Some(at[i])
            && at[i] < |run| && run[at[i]].fromA == fromA
  {
    NextOfItsStream(order, p);
    hide Sent;
  }

  /** A capture keeps its own order. */
  lemma CaptureKeepsOwnOrder(s: Session, run: seq<Event>, fromA: bool, at: seq<nat>, v: View, peerOrigin: int)
    requires Honest(s, run) && CaptureOf(s, run, fromA, at, v, peerOrigin)
    ensures CausalExistence.KeepsOwnOrder(v)
  {
    FollowsIsInOrder(v.records);
    hide InSerialOrder;
    forall k | 0 <= k < |v.records| ensures FollowsInStream(v.records[..k], v.records[k]) {
      var w := v.(next := k);
      assert w.(next := 0) == v && w.Valid() && w.HasHead();
      hide CaptureOf;
      CaptureInOrder(s, run, fromA, at, w, peerOrigin);
    }
  }

  /** The rule over one pair of an order of captures. */
  lemma EdgeIsNotForetold(isns: Isns, s: Session, run: seq<Event>, ata: seq<nat>, a: View, atb: seq<nat>, b: View,
                          order: seq<Record>, p: nat, q: nat)
    requires Honest(s, run) && Captured(s, run, ata, a, atb, b) && Interleaves(order, a, b)
    requires a.pid != b.pid && a.isn == IsnOf(isns, a.pid) && b.isn == IsnOf(isns, b.pid)
    requires p < q < |order|
    ensures EdgeKept(isns, order[..q], p, order[q])
        <==> NotForetold(run, SendAt(order, p, a.pid, ata, atb), SendAt(order, q, a.pid, ata, atb))
  {
    hide *;
    CapturedParts(s, run, ata, a, atb, b);
    SendIs(run, order, p, a, ata, b, atb);
    SendIs(run, order, q, a, ata, b, atb);
    assert order[..q][..p] == order[..p] && order[..q][p] == order[p];
    var i, j := |Sent(order[..p], order[p].senderPid)|, |Sent(order[..q], order[q].senderPid)|;
    if order[p].senderPid == order[q].senderPid {
      OwnEdge(isns, order[..q], p, order[q]);
      OwnIsNotForetold(run, SendAt(order, p, a.pid, ata, atb), SendAt(order, q, a.pid, ata, atb));
    } else if order[p].senderPid == a.pid {
      EdgeIs(isns, order[..q], p, order[q], a, i, b, j);
      AcknowledgesIsProof(s, run, true, ata, a, atb, b, i, j);
    } else {
      EdgeIs(isns, order[..q], p, order[q], b, i, a, j);
      AcknowledgesIsProof(s, run, false, atb, b, ata, a, i, j);
    }
  }

  lemma CapturedParts(s: Session, run: seq<Event>, ata: seq<nat>, a: View, atb: seq<nat>, b: View)
    requires Captured(s, run, ata, a, atb, b)
    ensures Captures(run, true, ata, a) && Captures(run, false, atb, b)
    ensures |ata| == |a.records| && |atb| == |b.records|
    ensures CaptureOf(s, run, true, ata, a, TrueOrigin(s, run, false, atb, b.isn))
    ensures CaptureOf(s, run, false, atb, b, TrueOrigin(s, run, true, ata, a.isn))
  {
    hide CaptureOf, TrueOrigin;
  }

  lemma OwnIsNotForetold(run: seq<Event>, early: Option<nat>, late: Option<nat>)
    requires early.Some? && late.Some? && early.value < |run| && late.value < |run|
    requires run[early.value].fromA == run[late.value].fromA
    ensures NotForetold(run, early, late)
  {
  }

  /**
   * However two captured directions of a run are stored together, the order is causal iff no record
   * is stored before one of the other side whose send its true ack proves.
   */
  lemma CausalIffNoneForetold(isns: Isns, s: Session, run: seq<Event>, ata: seq<nat>, a: View,
                              atb: seq<nat>, b: View, order: seq<Record>)
    requires Honest(s, run) && Captured(s, run, ata, a, atb, b) && Interleaves(order, a, b)
    requires a.isn == IsnOf(isns, a.pid) && b.isn == IsnOf(isns, b.pid)
    ensures CausalOrder(Some(2), isns, order) <==> forall p, q :: 0 <= p < q < |order| ==>
        NotForetold(run, SendAt(order, p, a.pid, ata, atb), SendAt(order, q, a.pid, ata, atb))
  {
    hide *;
    CapturesDiffer(s, run, ata, a, atb, b);
    CausalOrderPairwise(isns, order);
    OwnOrderKept(s, run, ata, a, atb, b, order);
    if forall q, p :: 0 <= p < q < |order| ==> EdgeKept(isns, order[..q], p, order[q]) {
      forall p, q | 0 <= p < q < |order|
        ensures NotForetold(run, SendAt(order, p, a.pid, ata, atb), SendAt(order, q, a.pid, ata, atb))
      {
        EdgeIsNotForetold(isns, s, run, ata, a, atb, b, order, p, q);
      }
    } else {
      var q, p :| 0 <= p < q < |order| && !EdgeKept(isns, order[..q], p, order[q]);
      EdgeIsNotForetold(isns, s, run, ata, a, atb, b, order, p, q);
    }
  }

  lemma CapturesDiffer(s: Session, run: seq<Event>, ata: seq<nat>, a: View, atb: seq<nat>, b: View)
    requires Honest(s, run) && Captured(s, run, ata, a, atb, b)
    ensures a.pid != b.pid
  {
  }

  /** Every order of two captures keeps each of them in its own order. */
  lemma OwnOrderKept(s: Session, run: seq<Event>, ata: seq<nat>, a: View, atb: seq<nat>, b: View, order: seq<Record>)
    requires Honest(s, run) && Captured(s, run, ata, a, atb, b) && Interleaves(order, a, b)
    ensures forall q :: 0 <= q < |order| ==> FollowsInStream(Sent(order[..q], order[q].senderPid), order[q])
  {
    CapturesDiffer(s, run, ata, a, atb, b);
    CaptureKeepsOwnOrder(s, run, true, ata, a, TrueOrigin(s, run, false, atb, b.isn));
    CaptureKeepsOwnOrder(s, run, false, atb, b, TrueOrigin(s, run, true, ata, a.isn));
    FollowsIsInOrder(a.records);
    FollowsIsInOrder(b.records);
    forall q | 0 <= q < |order| ensures FollowsInStream(Sent(order[..q], order[q].senderPid), order[q]) {
      SendIs(run, order, q, a, ata, b, atb);
      hide FollowsInStream, Sent, CaptureOf, Honest, InSerialOrder;
    }
  }
}
