/**
 * Two participants really talking, and a capture of some of what they sent.
 *
 * A run is a sequence of sends, each at its sender's send frontier and acknowledging no
 * more than its peer has sent. Any captured subset of a run merges to completion.
 */
module HonestRun {
  import opened Prelude
  import opened Blocks
  import opened Serial
  import opened Placement
  import CausalRule
  import opened CausalMerge
  import MergeTheorems
  import opened Unwrapping

  /** One send: who sent it, the record it was captured as, and the position it acknowledges. */
  datatype Event = Send(fromA: bool, record: Record, acked: int)

  /** The participants and their true initial sequence numbers. */
  datatype Session = Session(pidA: u16, isnA: u32, pidB: u16, isnB: u32)
  {
    function Pid(fromA: bool): u16 {
      if fromA then pidA else pidB
    }

    /** The unwrapped sequence number of the participant's first byte. */
    function Base(fromA: bool): int {
      (if fromA then isnA else isnB) + 1
    }
  }

  /** The position after everything one side has sent in the first `k` events; -1 before its SYN. */
  function SendFrontier(run: seq<Event>, fromA: bool, k: nat): int
    requires k <= |run|
    decreases k, 0
  {
    if k == 0 then -1
    else if run[k - 1].fromA != fromA then SendFrontier(run, fromA, k - 1)
    else PositionAfter(run, k - 1)
  }

  /** Where event `k`'s record sits: a SYN is stored at the origin, past the number it consumes. */
  function PositionOf(run: seq<Event>, k: nat): int
    requires k < |run|
    decreases k, 1
  {
    SendFrontier(run, run[k].fromA, k) + if run[k].record.Syn() then 1 else 0
  }

  /** A FIN consumes one number after the data. */
  function PositionAfter(run: seq<Event>, k: nat): int
    requires k < |run|
    decreases k, 2
  {
    PositionOf(run, k) + |run[k].record.payload| + if run[k].record.Fin() then 1 else 0
  }

  /** Event `k` sits at its sender's frontier and acknowledges no more than the peer has sent. */
  predicate HonestStep(s: Session, run: seq<Event>, k: nat)
    requires k < |run|
  {
    var e := run[k];
    && e.record.senderPid == s.Pid(e.fromA)
    && e.record.seqStart == Some(Wrap(s.Base(e.fromA) + PositionOf(run, k)))
    && (if e.record.Syn() then SendFrontier(run, e.fromA, k) == -1 else SendFrontier(run, e.fromA, k) >= 0)
    && (e.record.ack.Some? ==>
          && e.acked <= SendFrontier(run, !e.fromA, k)
          && e.record.ack.value == Wrap(s.Base(!e.fromA) + e.acked))
  }

  predicate Honest(s: Session, run: seq<Event>) {
    s.pidA != s.pidB && forall k :: 0 <= k < |run| ==> HonestStep(s, run, k)
  }

  /** `v` holds the records of one side's sends `at`, in the order they were sent. */
  predicate Captures(run: seq<Event>, fromA: bool, at: seq<nat>, v: View) {
    && |at| == |v.records|
    && (forall i :: 0 <= i < |at| ==>
          at[i] < |run| && run[at[i]].fromA == fromA && v.records[i] == run[at[i]].record)
    && (forall i, j :: 0 <= i < j < |at| ==> at[i] < at[j])
  }

  function SeqPositions(s: Session, run: seq<Event>, fromA: bool, at: seq<nat>): (p: seq<int>)
    requires forall i :: 0 <= i < |at| ==> at[i] < |run|
    ensures |p| == |at| && forall i :: 0 <= i < |at| ==> p[i] == s.Base(fromA) + PositionOf(run, at[i])
  {
    seq(|at|, i requires 0 <= i < |at| => s.Base(fromA) + PositionOf(run, at[i]))
  }

  function AckPositions(s: Session, run: seq<Event>, fromA: bool, at: seq<nat>): (p: seq<int>)
    requires forall i :: 0 <= i < |at| ==> at[i] < |run|
    ensures |p| == |at| && forall i :: 0 <= i < |at| ==> p[i] == s.Base(!fromA) + run[at[i]].acked
  {
    seq(|at|, i requires 0 <= i < |at| => s.Base(!fromA) + run[at[i]].acked)
  }

  /** The unwrapped origin of a captured stream: the declared one, or its first record's. */
  function TrueOrigin(s: Session, run: seq<Event>, fromA: bool, at: seq<nat>, declared: Option<u32>): int
    requires forall i :: 0 <= i < |at| ==> at[i] < |run|
  {
    if declared.Some? || at == [] then s.Base(fromA) else s.Base(fromA) + PositionOf(run, at[0])
  }

  /** One side's capture: any `isn` declared is the true one, and values step by under 2^31. */
  predicate CaptureOf(s: Session, run: seq<Event>, fromA: bool, at: seq<nat>, v: View, peerOrigin: int) {
    && v.Valid() && v.next == 0 && v.pid == s.Pid(fromA) && Captures(run, fromA, at, v)
    && (v.isn.Some? ==> v.isn.value + 1 == s.Base(fromA))
    && NearbySteps(v.records, SeqPositions(s, run, fromA, at), TrueOrigin(s, run, fromA, at, v.isn))
    && NearbyAcks(v.records, AckPositions(s, run, fromA, at), peerOrigin)
  }

  // ----- Facts of honest runs ------------------------------------------------

  lemma {:induction false} FrontierMonotone(s: Session, run: seq<Event>, fromA: bool, j: nat, k: nat)
    requires Honest(s, run) && j <= k <= |run|
    ensures SendFrontier(run, fromA, j) <= SendFrontier(run, fromA, k)
    decreases k
  {
    if j < k {
      FrontierMonotone(s, run, fromA, j, k - 1);
      assert HonestStep(s, run, k - 1);
    }
  }

  /** Two sends of one side: the later one sits past everything the earlier one occupies. */
  lemma LaterSendsFollow(s: Session, run: seq<Event>, j: nat, k: nat)
    requires Honest(s, run) && j < k < |run| && run[j].fromA == run[k].fromA
    ensures PositionAfter(run, j) <= PositionOf(run, k)
    ensures !run[k].record.Syn()
  {
    FrontierMonotone(s, run, run[j].fromA, j + 1, k);
    assert HonestStep(s, run, j) && HonestStep(s, run, k);
  }

  /** In a capture the furthest position is the last one, or the origin. */
  lemma {:induction false} FurthestIsLast(s: Session, run: seq<Event>, fromA: bool, at: seq<nat>, v: View, n: nat)
    requires Honest(s, run) && Captures(run, fromA, at, v) && n <= |at|
    ensures var p := SeqPositions(s, run, fromA, at);
            Furthest(v.records, p, TrueOrigin(s, run, fromA, at, v.isn), n)
            == if n == 0 then TrueOrigin(s, run, fromA, at, v.isn) else p[n - 1]
  {
    if n > 0 {
      FurthestIsLast(s, run, fromA, at, v, n - 1);
      assert HonestStep(s, run, at[n - 1]);
      if n > 1 {
        LaterSendsFollow(s, run, at[n - 2], at[n - 1]);
      }
    }
  }

  lemma CaptureCarries(s: Session, run: seq<Event>, fromA: bool, at: seq<nat>, v: View, peerOrigin: int)
    requires Honest(s, run) && CaptureOf(s, run, fromA, at, v, peerOrigin)
    ensures forall i :: 0 <= i < |at| ==>
        v.records[i].seqStart == Some(Wrap(s.Base(fromA) + PositionOf(run, at[i])))
    ensures CarriesPositions(v.records, SeqPositions(s, run, fromA, at))
    ensures OriginIs(v.isn, v.records, SeqPositions(s, run, fromA, at), TrueOrigin(s, run, fromA, at, v.isn))
    ensures forall n :: 0 < n <= |at| ==> Hinted(v.records, n)
  {
    hide SendFrontier, PositionOf, PositionAfter, Wrap, Furthest, LatestAck, NearbySteps, NearbyAcks;
    forall k | 0 <= k < |at| ensures v.records[k].seqStart == Some(Wrap(s.Base(fromA) + PositionOf(run, at[k]))) {
      assert HonestStep(s, run, at[k]);
    }
    forall n | 0 < n <= |at| ensures Hinted(v.records, n) {
      assert v.records[n - 1].seqStart.Some?;
    }
  }

  lemma CaptureAdvances(s: Session, run: seq<Event>, fromA: bool, at: seq<nat>, v: View, peerOrigin: int, i: nat)
    requires Honest(s, run) && CaptureOf(s, run, fromA, at, v, peerOrigin) && i < |at|
    ensures s.Base(fromA) + PositionOf(run, at[i])
         >= Furthest(v.records, SeqPositions(s, run, fromA, at), TrueOrigin(s, run, fromA, at, v.isn), i)
  {
    hide Furthest, PositionAfter, Wrap, LatestAck, NearbySteps, NearbyAcks;
    FurthestIsLast(s, run, fromA, at, v, i);
    assert HonestStep(s, run, at[i]);
    if i > 0 {
      hide PositionOf;
      LaterSendsFollow(s, run, at[i - 1], at[i]);
      AfterIsLater(run, at[i - 1]);
    }
  }

  lemma AfterIsLater(run: seq<Event>, k: nat)
    requires k < |run|
    ensures PositionOf(run, k) <= PositionAfter(run, k)
  {
  }

  /** Every captured record is placed at its true distance from the origin. */
  lemma CaptureIsPlaced(s: Session, run: seq<Event>, fromA: bool, at: seq<nat>, v: View, peerOrigin: int, i: nat)
    requires Honest(s, run) && CaptureOf(s, run, fromA, at, v, peerOrigin) && i < |at|
    ensures OffsetAt(v.isn, v.records, i)
         == Some(s.Base(fromA) + PositionOf(run, at[i]) - TrueOrigin(s, run, fromA, at, v.isn))
    ensures PlacerAfter(v.isn, v.records[..i + 1]).Anchored?
    ensures PlacerAfter(v.isn, v.records[..i + 1]).origin == Wrap(TrueOrigin(s, run, fromA, at, v.isn))
  {
    hide Furthest, PlacerAfter, OffsetAt, SendFrontier, PositionOf, PositionAfter, Hinted, Wrap, OriginIs, LatestAck, NearbySteps;
    var p, origin := SeqPositions(s, run, fromA, at), TrueOrigin(s, run, fromA, at, v.isn);
    CaptureAdvances(s, run, fromA, at, v, peerOrigin, i);
    CaptureCarries(s, run, fromA, at, v, peerOrigin);
    FurthestIsLast(s, run, fromA, at, v, i + 1);
    UnwrappingIsExact(v.isn, v.records, p, origin, i);
    WalkIsExact(v.isn, v.records, p, origin, i + 1);
  }

  /** A capture read as far as `next`, with the stream it was taken from. */
  predicate CaptureAt(s: Session, run: seq<Event>, fromA: bool, at: seq<nat>, v: View, peerOrigin: int) {
    v.Valid() && v.next >= 0 && CaptureOf(s, run, fromA, at, v.(next := 0), peerOrigin)
  }

  /** The head's ack, in the peer's offset space, is the position it truly acknowledged. */
  lemma AckIsTrue(s: Session, run: seq<Event>, fromA: bool, at: seq<nat>, v: View, peerOrigin: int)
    requires Honest(s, run) && CaptureAt(s, run, fromA, at, v, peerOrigin)
    requires v.HasHead() && v.records[v.next].ack.Some?
    ensures SerialDelta(AckAfter(v.Loaded()).first, Wrap(peerOrigin)) + v.HeadAck().value
         == s.Base(!fromA) + run[at[v.next]].acked - peerOrigin
  {
    hide SendFrontier, PositionOf, PositionAfter, Wrap, SerialDelta, AckAfter, NearbySteps;
    var acks := AckPositions(s, run, fromA, at);
    forall k | 0 <= k < |at| && v.records[k].ack.Some? ensures v.records[k].ack.value == Wrap(acks[k]) {
      assert HonestStep(s, run, at[k]);
    }
    AckWalkIsExact(v.records, acks, peerOrigin, v.next + 1);
  }

  /** Whatever can still end a stream ends past what its sender had sent when the head was sent. */
  lemma HeadEndsPastFrontier(s: Session, run: seq<Event>, fromA: bool, at: seq<nat>, v: View, peerOrigin: int)
    requires Honest(s, run) && CaptureAt(s, run, fromA, at, v, peerOrigin) && v.HasHead()
    ensures var origin := TrueOrigin(s, run, fromA, at, v.isn);
            && v.Origin() == Some(Wrap(origin))
            && s.Base(fromA) + SendFrontier(run, fromA, at[v.next]) - origin < v.LowestEnd()
  {
    hide Wrap, PlacerAfter, NearbySteps, NearbyAcks, ReachedAfter;
    CaptureIsPlaced(s, run, fromA, at, v.(next := 0), peerOrigin, v.next);
    assert HonestStep(s, run, at[v.next]);
  }

  /** Of two heads, the one sent first is ready. */
  lemma EarlierHeadIsReady(s: Session, run: seq<Event>, fromA: bool, ats: seq<nat>, f: View, atg: seq<nat>, g: View)
    requires Honest(s, run) && f.HasHead() && g.HasHead()
    requires Captures(run, fromA, ats, f) && Captures(run, !fromA, atg, g)
    requires CaptureAt(s, run, fromA, ats, f, TrueOrigin(s, run, !fromA, atg, g.isn))
    requires CaptureAt(s, run, !fromA, atg, g, TrueOrigin(s, run, fromA, ats, f.isn))
    requires ats[f.next] < atg[g.next]
    ensures PairReady(f, g)
  {
    hide Wrap, SerialDelta, AckAfter, PlacerAfter, View.LowestEnd, View.Loaded, SendFrontier, PositionOf, PositionAfter;
    var k := ats[f.next];
    if f.records[f.next].ack.Some? {
      AckIsTrue(s, run, fromA, ats, f, TrueOrigin(s, run, !fromA, atg, g.isn));
      HeadEndsPastFrontier(s, run, !fromA, atg, g, TrueOrigin(s, run, fromA, ats, f.isn));
      FrontierMonotone(s, run, !fromA, k, atg[g.next]);
      assert HonestStep(s, run, k);
    }
  }

  /** A captured stream never steps back. */
  lemma CaptureInOrder(s: Session, run: seq<Event>, fromA: bool, at: seq<nat>, v: View, peerOrigin: int)
    requires Honest(s, run) && CaptureAt(s, run, fromA, at, v, peerOrigin)
    ensures v.InOrder()
  {
    if 0 < v.next < |v.records| {
      var n := v.next;
      var p := SeqPositions(s, run, fromA, at);
      CaptureCarries(s, run, fromA, at, v.(next := 0), peerOrigin);
      hide SendFrontier, PositionOf, PositionAfter, SerialDelta, Wrap;
      CaptureAdvances(s, run, fromA, at, v.(next := 0), peerOrigin, n);
      FurthestIsLast(s, run, fromA, at, v.(next := 0), n);
      DeltaOfWrapped(p[n], p[n - 1]);
      OrderedIffForward(Wrap(p[n - 1]), Wrap(p[n]));
      assert v.records[..n][n - 1].seqStart == Some(Wrap(p[n - 1]));
    }
  }

  /** A capture meets the hypotheses of the merge's safety. */
  lemma CaptureIsMergeable(s: Session, run: seq<Event>, fromA: bool, at: seq<nat>, v: View, peerOrigin: int)
    requires Honest(s, run) && CaptureOf(s, run, fromA, at, v, peerOrigin)
    ensures MergeTheorems.SentBy(v.pid, v.records) && MergeTheorems.WellBehaved(v.isn, v.records)
  {
    hide Wrap, PlacerAfter, NearbySteps, NearbyAcks, SendFrontier, PositionOf, PositionAfter, TrueOrigin;
    CaptureCarries(s, run, fromA, at, v, peerOrigin);
    forall i | 0 <= i < |at| ensures v.records[i].senderPid == v.pid {
      assert HonestStep(s, run, at[i]);
    }
    forall i, j | 0 <= i < j < |at|
      ensures EndAt(v.isn, v.records, i).Some? && EndAt(v.isn, v.records, j).Some? ==>
          EndAt(v.isn, v.records, i).value <= EndAt(v.isn, v.records, j).value
      ensures !MergeTheorems.BareSyn(v.records[j])
    {
      CaptureIsPlaced(s, run, fromA, at, v, peerOrigin, i);
      CaptureIsPlaced(s, run, fromA, at, v, peerOrigin, j);
      LaterSendsFollow(s, run, at[i], at[j]);
      EndIsWithin(s, run, at[i]);
    }
  }

  /** A record's end is never past what the send occupies. */
  lemma EndIsWithin(s: Session, run: seq<Event>, k: nat)
    requires k < |run|
    ensures var end := SequenceEnd(run[k].record, Some(PositionOf(run, k)));
            end.Some? ==> PositionOf(run, k) <= end.value <= PositionAfter(run, k)
  {
  }

  /** Both sides of a run, each captured in part. */
  predicate Captured(s: Session, run: seq<Event>, ata: seq<nat>, a: View, atb: seq<nat>, b: View) {
    && Captures(run, true, ata, a) && Captures(run, false, atb, b)
    && CaptureOf(s, run, true, ata, a, TrueOrigin(s, run, false, atb, b.isn))
    && CaptureOf(s, run, false, atb, b, TrueOrigin(s, run, true, ata, a.isn))
  }

  /** Two heads of a capture never block each other. */
  lemma OneHeadIsReady(s: Session, run: seq<Event>, ata: seq<nat>, a: View, atb: seq<nat>, b: View, f: View, g: View)
    requires Honest(s, run) && Captured(s, run, ata, a, atb, b)
    requires f == a.(next := f.next) && g == b.(next := g.next) && f.HasHead() && g.HasHead()
    ensures PairReady(f, g) || PairReady(g, f)
  {
    assert f.(next := 0) == a && g.(next := 0) == b;
    hide PairReady, NearbySteps, NearbyAcks;
    var i, j := ata[f.next], atb[g.next];
    assert run[i].fromA && !run[j].fromA;
    if i < j {
      EarlierHeadIsReady(s, run, true, ata, f, atb, g);
    } else {
      EarlierHeadIsReady(s, run, false, atb, g, ata, f);
    }
  }

  /**
   * The merge never stalls on an honest capture: whatever the timestamps, it emits every
   * captured record, each stream in its own order, as a causal linearization.
   */
  lemma HonestCaptureMerges(count: Option<nat>, isns: CausalRule.Isns, s: Session, run: seq<Event>,
                            ata: seq<nat>, a: View, atb: seq<nat>, b: View)
    requires Honest(s, run) && Captured(s, run, ata, a, atb, b)
    requires a.isn == CausalRule.IsnOf(isns, a.pid) && b.isn == CausalRule.IsnOf(isns, b.pid)
    ensures MergeOf(a, b).outcome == Complete
    ensures MergeTheorems.Interleaves(MergeOf(a, b).emitted, a, b)
    ensures CausalRule.CausalOrder(count, isns, MergeOf(a, b).emitted)
  {
    var m := MergeOf(a, b);
    var originA, originB := TrueOrigin(s, run, true, ata, a.isn), TrueOrigin(s, run, false, atb, b.isn);
    CaptureIsMergeable(s, run, true, ata, a, originB);
    CaptureIsMergeable(s, run, false, atb, b, originA);
    MergeTheorems.MergeIsSafe(count, isns, a, b);
    MergeTheorems.HowItEnds(a, b);
    if m.outcome == Stalled {
      OneHeadIsReady(s, run, ata, a, atb, b, m.left, m.right);
    } else if m.outcome == OutOfOrder {
      assert m.left.(next := 0) == a && m.right.(next := 0) == b;
      if m.left.HasHead() && !m.left.Advanced().InOrder() {
        assert m.left.Advanced().(next := 0) == a;
        CaptureInOrder(s, run, true, ata, m.left.Advanced(), originB);
      } else {
        assert m.right.Advanced().(next := 0) == b;
        CaptureInOrder(s, run, false, atb, m.right.Advanced(), originA);
      }
    }
  }
}
