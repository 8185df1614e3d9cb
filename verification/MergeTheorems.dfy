/** What the two-way merge guarantees: safety, and what a stall certifies. */
module MergeTheorems {
  import opened Prelude
  import opened Blocks
  import opened Serial
  import opened Placement
  import opened CausalRule
  import opened CausalMerge

  // ----- Hypotheses on a stream ----------------------------------------------

  predicate SentBy(pid: u16, stream: seq<Record>) {
    forall i :: 0 <= i < |stream| ==> stream[i].senderPid == pid
  }

  /** The ends that exist never decrease: the stream does not overlap itself. */
  predicate EndsNonDecreasing(isn: Option<u32>, stream: seq<Record>) {
    forall i, j :: 0 <= i < j < |stream| && EndAt(isn, stream, i).Some? && EndAt(isn, stream, j).Some? ==>
      EndAt(isn, stream, i).value <= EndAt(isn, stream, j).value
  }

  predicate BareSyn(r: Record) {
    r.payload == [] && r.Syn()
  }

  /** A zero-length SYN precedes every record that is placed but has no end. */
  predicate SynFirst(isn: Option<u32>, stream: seq<Record>) {
    forall i, j :: 0 <= i < j < |stream| && BareSyn(stream[j]) && OffsetAt(isn, stream, i).Some? ==>
      EndAt(isn, stream, i).Some?
  }

  /** An origin is known from the first record on, or there never is one. */
  predicate OriginFromStart(isn: Option<u32>, stream: seq<Record>) {
    isn.Some? || stream == [] || stream[0].seqStart.Some?
    || forall i :: 0 <= i < |stream| ==> stream[i].seqStart.None?
  }

  predicate WellBehaved(isn: Option<u32>, stream: seq<Record>) {
    EndsNonDecreasing(isn, stream) && SynFirst(isn, stream) && OriginFromStart(isn, stream)
  }

  // ----- Positions along a stream --------------------------------------------

  /** Once anchored, a placer keeps its origin and never moves back. */
  lemma {:induction false} PlacerMonotone(isn: Option<u32>, stream: seq<Record>, i: nat, j: nat)
    requires i <= j <= |stream|
    ensures PlacerAfter(isn, stream[..i]).Anchored? ==>
        && PlacerAfter(isn, stream[..j]).Anchored?
        && PlacerAfter(isn, stream[..j]).origin == PlacerAfter(isn, stream[..i]).origin
        && PlacerAfter(isn, stream[..i]).position <= PlacerAfter(isn, stream[..j]).position
    decreases j
  {
    if i < j {
      PlacerMonotone(isn, stream, i, j - 1);
      assert stream[..j] == stream[..j - 1] + [stream[j - 1]];
      PlacerSnoc(isn, stream[..j - 1], stream[j - 1]);
    }
  }

  lemma {:induction false} PositionNonNegative(isn: Option<u32>, stream: seq<Record>)
    ensures PlacerAfter(isn, stream).Anchored? ==> PlacerAfter(isn, stream).position >= 0
  {
    if stream != [] {
      PositionNonNegative(isn, stream[..|stream| - 1]);
    }
  }

  /** A placed record anchors the stream at its own offset. */
  lemma PlacedAnchors(isn: Option<u32>, stream: seq<Record>, i: nat)
    requires i < |stream| && OffsetAt(isn, stream, i).Some?
    ensures PlacerAfter(isn, stream[..i + 1]).Anchored?
    ensures PlacerAfter(isn, stream[..i + 1]).position == OffsetAt(isn, stream, i).value >= 0
  {
    assert stream[..i + 1] == stream[..i] + [stream[i]];
    PlacerSnoc(isn, stream[..i], stream[i]);
    PositionNonNegative(isn, stream[..i + 1]);
  }

  lemma OffsetsNonDecreasing(isn: Option<u32>, stream: seq<Record>, i: nat, j: nat)
    requires i < j < |stream| && OffsetAt(isn, stream, i).Some? && OffsetAt(isn, stream, j).Some?
    ensures OffsetAt(isn, stream, i).value <= OffsetAt(isn, stream, j).value
  {
    PlacedAnchors(isn, stream, i);
    PlacedAnchors(isn, stream, j);
    PlacerMonotone(isn, stream, i + 1, j + 1);
  }

  lemma {:induction false} ReachedBelow(isn: Option<u32>, stream: seq<Record>, n: nat, bound: int)
    requires n <= |stream| && bound >= 0
    requires forall i :: 0 <= i < n && EndAt(isn, stream, i).Some? ==> EndAt(isn, stream, i).value <= bound
    ensures ReachedAfter(isn, stream[..n]) <= bound
  {
    if n > 0 {
      ReachedBelow(isn, stream, n - 1, bound);
      assert stream[..n][..n - 1] == stream[..n - 1];
      assert EndAt(isn, stream[..n], n - 1) == EndAt(isn, stream, n - 1);
    }
  }

  /** With an origin from the start, whatever has an end was anchored at the first record. */
  lemma AnchoredFromStart(isn: Option<u32>, stream: seq<Record>, n: nat, j: nat)
    requires OriginFromStart(isn, stream) && n <= j < |stream| && OffsetAt(isn, stream, j).Some?
    ensures PlacerAfter(isn, stream[..n + 1]).Anchored?
    ensures PlacerAfter(isn, stream[..n + 1]).origin == PlacerAfter(isn, stream[..j + 1]).origin
  {
    assert stream[..1] == [] + [stream[0]];
    PlacerSnoc(isn, [], stream[0]);
    PlacerMonotone(isn, stream, 1, n + 1);
    PlacerMonotone(isn, stream, n + 1, j + 1);
  }

  /** The bound the merge compares with is a lower bound on every end still to come. */
  lemma LowestEndIsLower(v: View, j: nat)
    requires v.Valid() && v.HasHead() && WellBehaved(v.isn, v.records)
    requires v.next <= j < |v.records| && EndAt(v.isn, v.records, j).Some?
    ensures v.Origin() == Some(PlacerAfter(v.isn, v.records[..j + 1]).origin)
    ensures v.LowestEnd() <= EndAt(v.isn, v.records, j).value
  {
    var isn, s, n := v.isn, v.records, v.next;
    AnchoredFromStart(isn, s, n, j);
    PlacedAnchors(isn, s, j);
    ReachedBelow(isn, s, n, EndAt(isn, s, j).value);
    if n < j && v.HeadOffset().Some? {
      OffsetsNonDecreasing(isn, s, n, j);
    }
  }

  // ----- Safety ----------------------------------------------------------------

  /** `order` holds exactly the records of `a` and `b`, each stream in its own order. */
  predicate Interleaves(order: seq<Record>, a: View, b: View) {
    && Sent(order, a.pid) == a.records && Sent(order, b.pid) == b.records
    && forall i :: 0 <= i < |order| ==> order[i].senderPid in {a.pid, b.pid}
  }

  /** What has been emitted so far is an interleaving of what both views have emitted. */
  predicate EmittedSoFar(emitted: seq<Record>, f: View, g: View)
    requires f.Valid() && g.Valid()
  {
    && Sent(emitted, f.pid) == f.Emitted() && Sent(emitted, g.pid) == g.Emitted()
    && forall i :: 0 <= i < |emitted| ==> emitted[i].senderPid in {f.pid, g.pid}
  }

  // ----- What an acknowledgement rules out ---------------------------------------

  /** The origin of the stream once its `j`th record has been placed. */
  function OriginAt(v: View, j: nat): u32
    requires j < |v.records| && EndAt(v.isn, v.records, j).Some?
  {
    assert v.records[..j + 1] == v.records[..j] + [v.records[j]];
    PlacerSnoc(v.isn, v.records[..j], v.records[j]);
    PlacerAfter(v.isn, v.records[..j + 1]).origin
  }

  /** The ack of the `i`th record as a position of a stream with the given origin. */
  function AckPosition(v: View, i: nat, origin: u32): int
    requires i < |v.records| && v.records[i].ack.Some?
  {
    var st := AckStep(AckAfter(v.records[..i]), v.records[i].ack.value);
    SerialDelta(st.first, origin) + st.position
  }

  /** `f`'s `i`th record acknowledges `g`'s `j`th: it cannot be stored before it. */
  predicate Acknowledges(f: View, i: nat, g: View, j: nat) {
    && i < |f.records| && f.records[i].ack.Some?
    && j < |g.records| && EndAt(g.isn, g.records, j).Some?
    && AckPosition(f, i, OriginAt(g, j)) >= EndAt(g.isn, g.records, j).value
  }

  /** In an order, the rule over one pair is that the earlier record does not acknowledge the later. */
  lemma EdgeIs(isns: Isns, stored: seq<Record>, p: nat, r: Record, f: View, i: nat, g: View, j: nat)
    requires f.pid != g.pid && g.isn == IsnOf(isns, g.pid)
    requires p < |stored| && i < |f.records| && stored[p] == f.records[i] && stored[p].senderPid == f.pid
    requires Sent(stored[..p], f.pid) == f.records[..i]
    requires j < |g.records| && r == g.records[j] && r.senderPid == g.pid && Sent(stored, g.pid) == g.records[..j]
    ensures EdgeKept(isns, stored, p, r) <==> !Acknowledges(f, i, g, j)
  {
    hide AckAfter, PlacerAfter, Sent, SerialDelta, AckStep, Place;
    assert EndAfter(isns, stored, r) == EndAt(g.isn, g.records, j);
    if EndAfter(isns, stored, r).Some? && stored[p].ack.Some? {
      PlacerSnoc(g.isn, g.records[..j], r);
      assert g.records[..j + 1] == g.records[..j] + [r];
      assert PlacedState(isns, stored, r).origin == OriginAt(g, j);
      assert AckedAt(stored, p, OriginAt(g, j)) == AckPosition(f, i, OriginAt(g, j));
    }
  }

  /** The record at `k` of an order is the next one of its sender's stream. */
  lemma {:induction false} NextOfItsStream(order: seq<Record>, k: nat)
    requires k < |order|
    ensures var pid := order[k].senderPid;
            var i := |Sent(order[..k], pid)|;
            && i < |Sent(order, pid)| && order[k] == Sent(order, pid)[i]
            && Sent(order[..k], pid) == Sent(order, pid)[..i]
  {
    var n := |order| - 1;
    assert order == order[..n] + [order[n]];
    SentSnoc(order[..n], order[n], order[k].senderPid);
    if k < n {
      NextOfItsStream(order[..n], k);
      assert order[..n][..k] == order[..k];
    }
  }

  /** Nothing `f` has emitted acknowledges a record that `g` has still to emit. */
  ghost predicate NothingPrecluded(f: View, g: View) {
    forall i: nat, j: nat :: i < f.next && g.next <= j ==> !Acknowledges(f, i, g, j)
  }

  /** Nor does its head. */
  ghost predicate Free(f: View, g: View) {
    f.HasHead() && forall j: nat :: g.next <= j ==> !Acknowledges(f, f.next, g, j)
  }

  /** A ready head acknowledges nothing its peer has still to emit. */
  lemma ReadyIsFree(f: View, g: View)
    requires f.Valid() && g.Valid() && g.next >= 0 && PairReady(f, g) && WellBehaved(g.isn, g.records)
    ensures Free(f, g)
  {
    forall j: nat | g.next <= j ensures !Acknowledges(f, f.next, g, j) {
      if j < |g.records| && EndAt(g.isn, g.records, j).Some? && f.records[f.next].ack.Some? {
        HeadAckIs(f);
        LowestEndIsLower(g, j);
        hide PlacerAfter, AckAfter, EndAt, View.LowestEnd, View.Origin, View.HeadAck, SerialDelta, WellBehaved, AckStep;
      }
    }
  }

  lemma HeadAckIs(f: View)
    requires f.Valid() && f.HasHead() && f.records[f.next].ack.Some?
    ensures AckAfter(f.Loaded()) == AckStep(AckAfter(f.records[..f.next]), f.records[f.next].ack.value)
    ensures f.HeadAck() == Some(AckAfter(f.Loaded()).position)
  {
    assert f.Loaded() == f.records[..f.next] + [f.records[f.next]];
    AckSnoc(f.records[..f.next], f.records[f.next]);
    hide AckAfter, AckStep;
  }

  /** A free head may be stored next. */
  lemma FreeIsAdmitted(count: Option<nat>, isns: Isns, emitted: seq<Record>, f: View, g: View)
    requires f.Valid() && g.Valid() && f.pid != g.pid && Free(f, g) && NothingPrecluded(g, f)
    requires f.isn == IsnOf(isns, f.pid) && f.InOrder() && SentBy(f.pid, f.records) && EmittedSoFar(emitted, f, g)
    ensures Admits(count, isns, emitted, f.records[f.next])
  {
    var r := f.records[f.next];
    hide AckAfter, PlacerAfter, Sent, FollowsInStream, EdgeKept, Acknowledges;
    forall p | 0 <= p < |emitted| ensures EdgeKept(isns, emitted, p, r) {
      if emitted[p].senderPid == f.pid {
        OwnEdge(isns, emitted, p, r);
      } else {
        NextOfItsStream(emitted, p);
        var i := |Sent(emitted[..p], g.pid)|;
        EdgeIs(isns, emitted, p, r, g, i, f, f.next);
      }
    }
  }

  /** A sender's own records draw no edge. */
  lemma OwnEdge(isns: Isns, stored: seq<Record>, p: nat, r: Record)
    requires p < |stored| && stored[p].senderPid == r.senderPid
    ensures EdgeKept(isns, stored, p, r)
  {
  }

  /** Emitting a free head leaves what remains unprecluded. */
  lemma StillUnprecluded(f: View, g: View)
    requires f.Valid() && f.next >= 0 && Free(f, g) && NothingPrecluded(f, g) && NothingPrecluded(g, f)
    ensures NothingPrecluded(f.Advanced(), g) && NothingPrecluded(g, f.Advanced())
  {
    var h := f.Advanced();
    forall i: nat, j: nat
      ensures Acknowledges(h, i, g, j) == Acknowledges(f, i, g, j)
      ensures Acknowledges(g, i, h, j) == Acknowledges(g, i, f, j)
    {
      AdvanceAcknowledges(f, g, i, j);
    }
    hide Acknowledges;
    forall i: nat, j: nat | i < h.next && g.next <= j ensures !Acknowledges(h, i, g, j) {
      assert !Acknowledges(f, i, g, j);
    }
    forall i: nat, j: nat | i < g.next && h.next <= j ensures !Acknowledges(g, i, h, j) {
      assert !Acknowledges(g, i, f, j);
    }
  }

  /** What acknowledges what does not depend on how far the streams have been read. */
  lemma AdvanceAcknowledges(f: View, g: View, i: nat, j: nat)
    ensures Acknowledges(f.Advanced(), i, g, j) == Acknowledges(f, i, g, j)
    ensures Acknowledges(g, i, f.Advanced(), j) == Acknowledges(g, i, f, j)
  {
    hide AckAfter, PlacerAfter, SerialDelta, AckStep, EndAt;
  }

  /** One record later, what is out is still an interleaving of what both views have emitted. */
  lemma EmitDelivers(emitted: seq<Record>, f: View, g: View)
    requires f.Valid() && g.Valid() && f.pid != g.pid && f.HasHead() && SentBy(f.pid, f.records)
    requires EmittedSoFar(emitted, f, g)
    ensures EmittedSoFar(emitted + [f.records[f.next]], f.Advanced(), g)
    ensures EmittedSoFar(emitted + [f.records[f.next]], g, f.Advanced())
  {
    hide Sent;
    var r := f.records[f.next];
    assert f.records[..f.next + 1] == f.Emitted() + [r];
    SentSnoc(emitted, r, f.pid);
    SentSnoc(emitted, r, g.pid);
  }

  lemma Exchanged(emitted: seq<Record>, f: View, g: View)
    requires f.Valid() && g.Valid()
    ensures EmittedSoFar(emitted, f, g) ==> EmittedSoFar(emitted, g, f)
  {
  }

  lemma {:induction false} DeliversFrom(emitted: seq<Record>, f: View, g: View)
    requires f.Valid() && g.Valid() && f.pid != g.pid && f.next >= 0 && g.next >= 0
    requires SentBy(f.pid, f.records) && SentBy(g.pid, g.records) && EmittedSoFar(emitted, f, g)
    ensures var m := MergeFrom(f, g); EmittedSoFar(emitted + m.emitted, m.left, m.right)
    decreases |f.records| - f.next + |g.records| - g.next
  {
    hide PairReady, View.InOrder, KeyLess, SentBy, EmittedSoFar;
    var m := MergeFrom(f, g);
    if m.emitted == [] {
      assert emitted + m.emitted == emitted;
    } else if Picks(f, g) {
      ReadyHasHead(f, g);
      var r := f.records[f.next];
      EmitDelivers(emitted, f, g);
      DeliversFrom(emitted + [r], f.Advanced(), g);
      assert emitted + m.emitted == (emitted + [r]) + MergeFrom(f.Advanced(), g).emitted;
    } else {
      ReadyHasHead(g, f);
      var r := g.records[g.next];
      Exchanged(emitted, f, g);
      EmitDelivers(emitted, g, f);
      DeliversFrom(emitted + [r], f, g.Advanced());
      assert emitted + m.emitted == (emitted + [r]) + MergeFrom(f, g.Advanced()).emitted;
    }
  }

  /** Whatever the streams, a completed merge interleaves them, each in its own order. */
  lemma CompletedMergeDelivers(a: View, b: View)
    requires SentBy(a.pid, a.records) && SentBy(b.pid, b.records) && a.pid != b.pid && a.next == b.next == 0
    ensures MergeOf(a, b).outcome == Complete ==> Interleaves(MergeOf(a, b).emitted, a, b)
  {
    hide PairReady, View.InOrder, KeyLess, SentBy, MergeFrom;
    DeliversFrom([], a, b);
    HowItEnds(a, b);
    var m := MergeOf(a, b);
    assert [] + m.emitted == m.emitted;
    assert a.records[..|a.records|] == a.records && b.records[..|b.records|] == b.records;
  }

  /** The hypotheses under which one stream of a session may be merged. */
  predicate Mergeable(isns: Isns, v: View) {
    && v.Valid() && v.next >= 0 && v.isn == IsnOf(isns, v.pid)
    && SentBy(v.pid, v.records) && WellBehaved(v.isn, v.records)
  }

  /** Emitting the free head of `f` keeps everything the merge relies on. */
  lemma EmitStep(count: Option<nat>, isns: Isns, emitted: seq<Record>, f: View, g: View)
    requires f.Valid() && g.Valid() && f.pid != g.pid && f.next >= 0 && Free(f, g)
    requires f.isn == IsnOf(isns, f.pid) && f.InOrder() && SentBy(f.pid, f.records) && EmittedSoFar(emitted, f, g)
    requires NothingPrecluded(f, g) && NothingPrecluded(g, f) && CausalOrder(count, isns, emitted)
    ensures var after, next := emitted + [f.records[f.next]], f.Advanced();
      && CausalOrder(count, isns, after) && EmittedSoFar(after, next, g) && EmittedSoFar(after, g, next)
      && NothingPrecluded(next, g) && NothingPrecluded(g, next)
  {
    FreeHasHead(f, g);
    hide *;
    FreeIsAdmitted(count, isns, emitted, f, g);
    CausalOrderSnoc(count, isns, emitted, f.records[f.next]);
    EmitDelivers(emitted, f, g);
    StillUnprecluded(f, g);
  }

  lemma FreeHasHead(f: View, g: View)
    requires Free(f, g)
    ensures 0 <= f.next < |f.records| && f.HasHead()
    ensures f.Advanced() == f.(next := f.next + 1) && f.Advanced().Valid()
  {
  }

  lemma {:induction false} SafeFrom(count: Option<nat>, isns: Isns, emitted: seq<Record>, f: View, g: View)
    requires Mergeable(isns, f) && Mergeable(isns, g) && f.pid != g.pid
    requires f.InOrder() && g.InOrder() && CausalOrder(count, isns, emitted)
    requires EmittedSoFar(emitted, f, g) && NothingPrecluded(f, g) && NothingPrecluded(g, f)
    ensures CausalOrder(count, isns, emitted + MergeFrom(f, g).emitted)
    decreases |f.records| - f.next + |g.records| - g.next
  {
    hide PairReady, View.InOrder, NothingPrecluded, CausalOrder, WellBehaved, KeyLess, EmittedSoFar, SentBy, Free;
    var m := MergeFrom(f, g);
    if m.emitted == [] {
      assert emitted + m.emitted == emitted;
    } else if Picks(f, g) {
      ReadyIsFree(f, g);
      FreeHasHead(f, g);
      var r := f.records[f.next];
      EmitStep(count, isns, emitted, f, g);
      SafeFrom(count, isns, emitted + [r], f.Advanced(), g);
      assert emitted + m.emitted == (emitted + [r]) + MergeFrom(f.Advanced(), g).emitted;
    } else {
      ReadyIsFree(g, f);
      FreeHasHead(g, f);
      var r := g.records[g.next];
      Exchanged(emitted, f, g);
      EmitStep(count, isns, emitted, g, f);
      SafeFrom(count, isns, emitted + [r], f, g.Advanced());
      assert emitted + m.emitted == (emitted + [r]) + MergeFrom(f, g.Advanced()).emitted;
    }
  }

  lemma ReadyHasHead(f: View, g: View)
    requires f.Valid() && g.Valid()
    ensures PairReady(f, g) ==> f.HasHead()
  {
  }

  /** How a merge ends: with both streams out, stuck on two heads, or on a stream out of order. */
  lemma {:induction false} HowItEnds(f: View, g: View)
    requires f.Valid() && g.Valid() && f.next >= 0 && g.next >= 0
    ensures var m := MergeFrom(f, g);
            match m.outcome
            case Complete => !m.left.HasHead() && !m.right.HasHead()
            case Stalled =>
              && m.left.HasHead() && m.right.HasHead()
              && !PairReady(m.left, m.right) && !PairReady(m.right, m.left)
            case OutOfOrder =>
              || (m.left.HasHead() && !m.left.Advanced().InOrder())
              || (m.right.HasHead() && !m.right.Advanced().InOrder())
    decreases |f.records| - f.next + |g.records| - g.next
  {
    if PairReady(f, g) || PairReady(g, f) {
      if Picks(f, g) {
        if f.Advanced().InOrder() {
          HowItEnds(f.Advanced(), g);
        }
      } else if g.Advanced().InOrder() {
        HowItEnds(f, g.Advanced());
      }
    }
  }

  lemma NothingEmitted(count: Option<nat>, isns: Isns, a: View, b: View)
    requires a.next == b.next == 0
    ensures NothingPrecluded(a, b) && NothingPrecluded(b, a) && CausalOrder(count, isns, [])
    ensures EmittedSoFar([], a, b) && a.InOrder() && b.InOrder()
  {
  }

  /**
   * Everything the merge emits is a causal linearization, however the merge ends; what it
   * emits to completion is a stable interleaving of the two streams.
   */
  lemma MergeIsSafe(count: Option<nat>, isns: Isns, a: View, b: View)
    requires Mergeable(isns, a) && Mergeable(isns, b) && a.pid != b.pid && a.next == b.next == 0
    ensures CausalOrder(count, isns, MergeOf(a, b).emitted)
    ensures EmittedSoFar(MergeOf(a, b).emitted, MergeOf(a, b).left, MergeOf(a, b).right)
    ensures MergeOf(a, b).outcome == Complete ==> Interleaves(MergeOf(a, b).emitted, a, b)
  {
    hide *;
    NothingEmitted(count, isns, a, b);
    MergeableParts(isns, a, b);
    SafeFrom(count, isns, [], a, b);
    DeliversFrom([], a, b);
    CompletedMergeDelivers(a, b);
    assert [] + MergeOf(a, b).emitted == MergeOf(a, b).emitted;
  }

  lemma MergeableParts(isns: Isns, a: View, b: View)
    requires Mergeable(isns, a) && Mergeable(isns, b) && a.next == b.next == 0
    ensures a.Valid() && b.Valid() && SentBy(a.pid, a.records) && SentBy(b.pid, b.records)
    ensures MergeOf(a, b) == MergeFrom(a, b)
  {
    hide MergeFrom, WellBehaved, SentBy;
  }

  // ----- Stalls ----------------------------------------------------------------

  /** Where the `k`th record of one participant sits in an order. */
  lemma {:induction false} Locate(order: seq<Record>, pid: u16, k: nat) returns (i: nat)
    requires k < |Sent(order, pid)|
    ensures i < |order| && order[i] == Sent(order, pid)[k] && order[i].senderPid == pid
    ensures Sent(order[..i], pid) == Sent(order, pid)[..k]
  {
    var n := |order| - 1;
    var before, r := order[..n], order[n];
    assert order == before + [r];
    SentSnoc(before, r, pid);
    if k < |Sent(before, pid)| {
      i := Locate(before, pid, k);
      assert order[..i] == before[..i];
    } else {
      i := n;
    }
  }

  /** In a causal order, no record is stored before one that it acknowledges. */
  lemma AcknowledgedComesFirst(isns: Isns, order: seq<Record>, f: View, i: nat, g: View, j: nat, p: nat, q: nat)
    requires f.pid != g.pid && g.isn == IsnOf(isns, g.pid) && CausalOrder(Some(2), isns, order)
    requires p < |order| && i < |f.records| && order[p] == f.records[i] && order[p].senderPid == f.pid
    requires q < |order| && j < |g.records| && order[q] == g.records[j] && order[q].senderPid == g.pid
    requires Sent(order[..p], f.pid) == f.records[..i] && Sent(order[..q], g.pid) == g.records[..j]
    requires Acknowledges(f, i, g, j)
    ensures q < p
  {
    hide Acknowledges, Sent, EdgeKept, FollowsInStream;
    if p < q {
      assert order[..q][..p] == order[..p] && order[..q][p] == order[p];
      assert Admits(Some(2), isns, order[..q], order[q]);
      EdgeIs(isns, order[..q], p, order[q], f, i, g, j);
    }
  }

  /** A head that is not ready acknowledges its peer's head, if that has an end. */
  lemma BlockedHeadAcknowledges(f: View, g: View)
    requires f.Valid() && g.Valid() && f.HasHead() && g.HasHead() && !PairReady(f, g) && g.HeadEnd().Some?
    ensures Acknowledges(f, f.next, g, g.next)
  {
    HeadAckIs(f);
    assert g.Loaded() == g.records[..g.next] + [g.records[g.next]];
    PlacerSnoc(g.isn, g.records[..g.next], g.records[g.next]);
    hide AckAfter, AckStep, PlacerAfter, SerialDelta, Place;
  }

  /**
   * A stall is a certificate. The merge stalls only with both heads present; when both
   * have an end, no interleaving of the two streams is a causal order.
   */
  lemma StallIsCertificate(isns: Isns, a: View, b: View, order: seq<Record>)
    requires a.Valid() && b.Valid() && a.pid != b.pid && a.next == b.next == 0
    requires a.isn == IsnOf(isns, a.pid) && b.isn == IsnOf(isns, b.pid)
    requires MergeOf(a, b).outcome == Stalled
    ensures MergeOf(a, b).left.HasHead() && MergeOf(a, b).right.HasHead()
    ensures MergeOf(a, b).left.HeadEnd().Some? && MergeOf(a, b).right.HeadEnd().Some? && Interleaves(order, a, b) ==>
        !CausalOrder(Some(2), isns, order)
  {
    HowItEnds(a, b);
    var f, g := MergeOf(a, b).left, MergeOf(a, b).right;
    if f.HeadEnd().Some? && g.HeadEnd().Some? && Interleaves(order, a, b) && CausalOrder(Some(2), isns, order) {
      BlockedHeadAcknowledges(f, g);
      BlockedHeadAcknowledges(g, f);
      hide CausalOrder, Acknowledges, PairReady;
      var i := Locate(order, a.pid, f.next);
      var j := Locate(order, b.pid, g.next);
      AcknowledgedComesFirst(isns, order, f, f.next, g, g.next, i, j);
      AcknowledgedComesFirst(isns, order, g, g.next, f, f.next, j, i);
    }
  }

  /** A stream out of order has no causal interleaving either. */
  lemma OutOfOrderHasNoOrder(isns: Isns, v: View, order: seq<Record>)
    requires v.Valid() && v.next >= 0 && v.HasHead() && !v.Advanced().InOrder()
    requires Sent(order, v.pid) == v.records
    ensures !CausalOrder(Some(2), isns, order)
  {
    var j := Locate(order, v.pid, v.next + 1);
    assert !Admits(Some(2), isns, order[..j], order[j]);
  }

  predicate AllHaveEnds(v: View) {
    forall i :: 0 <= i < |v.records| ==> EndAt(v.isn, v.records, i).Some?
  }

  /**
   * Where every record occupies a sequence number, the merge is a decision procedure: it
   * completes iff some interleaving of the two streams is a causal order.
   */
  lemma MergeDecides(isns: Isns, a: View, b: View)
    requires Mergeable(isns, a) && Mergeable(isns, b) && a.pid != b.pid && a.next == b.next == 0
    requires AllHaveEnds(a) && AllHaveEnds(b)
    ensures MergeOf(a, b).outcome == Complete
        <==> exists order :: Interleaves(order, a, b) && CausalOrder(Some(2), isns, order)
  {
    MergeIsSafe(Some(2), isns, a, b);
    HowItEnds(a, b);
    forall order | Interleaves(order, a, b) && MergeOf(a, b).outcome != Complete
      ensures !CausalOrder(Some(2), isns, order)
    {
      if MergeOf(a, b).outcome == Stalled {
        StallIsCertificate(isns, a, b, order);
      } else if MergeOf(a, b).left.HasHead() && !MergeOf(a, b).left.Advanced().InOrder() {
        OutOfOrderHasNoOrder(isns, MergeOf(a, b).left, order);
      } else {
        OutOfOrderHasNoOrder(isns, MergeOf(a, b).right, order);
      }
    }
  }

  // ----- Why a stall needs both ends ------------------------------------------

  /** A record, read through the fields the order looks at. */
  predicate Looks(r: Record, pid: u16, seqStart: u32, ack: Option<u32>, size: nat) {
    && r.senderPid == pid && r.seqStart == Some(seqStart) && r.ack == ack && |r.payload| == size
    && !r.Syn() && !r.Fin()
  }

  lemma Plain(pid: u16, seqStart: u32, ack: Option<u32>, payload: seq<byte>) returns (r: Record)
    ensures Looks(r, pid, seqStart, ack, |payload|)
  {
    r := Record(0, pid, 0, 0, payload, 0, Some(seqStart), ack, None, [], None, None, None, None, []);
  }

  /**
   * One side sends a pure ACK for the other's only byte, then, past a lost stretch, a byte at
   * 10; the other side's byte acknowledges up to 5, part of that lost stretch.
   */
  predicate LostStretch(ack: Record, late: Record, reply: Record) {
    && Looks(ack, 0, 1, Some(2), 0) && Looks(late, 0, 11, None, 1) && Looks(reply, 1, 1, Some(6), 1)
  }

  lemma LostStretchIsWellBehaved(ack: Record, late: Record, reply: Record)
    requires LostStretch(ack, late, reply)
    ensures WellBehaved(Some(0), [ack, late]) && WellBehaved(Some(0), [reply])
  {
    assert [ack, late][..0] == [];
    assert EndAt(Some(0), [ack, late], 0).None?;
  }

  lemma PureAckBlocks(a: View, b: View, ack: Record, late: Record, reply: Record)
    requires LostStretch(ack, late, reply)
    requires a == View(0, Some(0), [ack, late], 0) && b == View(1, Some(0), [reply], 0)
    ensures MergeOf(a, b).outcome == Stalled && MergeOf(a, b).left == a && a.HeadEnd().None?
  {
    assert a.Loaded() == [] + [ack] && b.Loaded() == [] + [reply];
    AckSnoc([], ack);
    AckSnoc([], reply);
    PlacerSnoc(Some(0), [], ack);
    PlacerSnoc(Some(0), [], reply);
    assert AckAfter(a.Loaded()) == Acked(2, 2, 0, 0) && AckAfter(b.Loaded()) == Acked(6, 6, 0, 0);
    assert Place(StartState(Some(0)), ack) == Place(StartState(Some(0)), reply) == Some(0);
    assert SerialDelta(2, 1) == 1 && SerialDelta(6, 1) == 5;
    assert PlacerAfter(Some(0), a.Loaded()) == PlacerAfter(Some(0), b.Loaded()) == Anchored(1, 1, 0);
    assert a.records[..0] == [] && b.records[..0] == [];
    hide PlacerAfter, AckAfter, Place, SerialDelta, View.Loaded;
    assert a.HeadOffset() == Some(0) && b.HeadOffset() == Some(0);
    assert a.LowestEnd() == 1 && b.LowestEnd() == 1;
    assert !PairReady(a, b) && !PairReady(b, a);
  }

  lemma ReplyFirstInterleaves(ack: Record, late: Record, reply: Record, pid: u16)
    requires LostStretch(ack, late, reply)
    ensures Sent([reply, ack], pid) == if pid == 1 then [reply] else if pid == 0 then [ack] else []
    ensures Sent([reply, ack, late], pid) == if pid == 1 then [reply] else if pid == 0 then [ack, late] else []
  {
    var one, two := [] + [reply], [reply] + [ack];
    assert [reply, ack] == two && [reply, ack, late] == two + [late];
    SentSnoc([], reply, pid);
    SentSnoc(one, ack, pid);
    SentSnoc(two, late, pid);
  }

  /** Neither the reply nor a pure ACK draws an edge to anything stored before it here. */
  lemma ReplyThenAckIsClear(isns: Isns, ack: Record, late: Record, reply: Record)
    requires LostStretch(ack, late, reply) && IsnOf(isns, 0) == IsnOf(isns, 1) == Some(0)
    ensures CausalOrder(Some(2), isns, []) && Admits(Some(2), isns, [], reply) && Admits(Some(2), isns, [reply], ack)
  {
    SentSnoc([], reply, 0);
    assert [] + [reply] == [reply];
    assert EndAfter(isns, [reply], ack) == None;
  }

  lemma ReplyFirstIsCausal(isns: Isns, a: View, b: View, ack: Record, late: Record, reply: Record)
    requires LostStretch(ack, late, reply) && IsnOf(isns, 0) == IsnOf(isns, 1) == Some(0)
    requires a == View(0, Some(0), [ack, late], 0) && b == View(1, Some(0), [reply], 0)
    ensures Interleaves([reply, ack, late], a, b)
    ensures CausalOrder(Some(2), isns, [reply, ack, late])
  {
    ReplyFirstInterleaves(ack, late, reply, 0);
    ReplyFirstInterleaves(ack, late, reply, 1);
    assert Interleaves([reply, ack, late], a, b) by {
      hide Sent;
    }
    hide *;
    ReplyThenAckIsClear(isns, ack, late, reply);
    LateDataIsClear(isns, [reply, ack], ack, late, reply);
    CausalOrderSnoc(Some(2), isns, [], reply);
    CausalOrderSnoc(Some(2), isns, [reply], ack);
    CausalOrderSnoc(Some(2), isns, [reply, ack], late);
    assert [] + [reply] == [reply] && [reply] + [ack] == [reply, ack] && [reply, ack] + [late] == [reply, ack, late];
  }

  lemma LateDataIsClear(isns: Isns, two: seq<Record>, ack: Record, late: Record, reply: Record)
    requires LostStretch(ack, late, reply) && IsnOf(isns, 0) == IsnOf(isns, 1) == Some(0)
    requires two == [reply, ack] && Sent(two, 0) == [ack]
    ensures Admits(Some(2), isns, two, late)
  {
    assert [ack] == [] + [ack];
    PlacerSnoc(Some(0), [], ack);
    Snoc([], ack);
    assert PlacerAfter(Some(0), [ack]) == Anchored(1, 1, 0);
    assert SerialDelta(11, 1) == 10 && SerialDelta(6, 1) == 5;
    assert LastSeq([ack]) == Some(1) && SeqLeq(1, 11);
    hide PlacerAfter, SerialDelta, LastSeq, SeqLeq;
    assert EndAfter(isns, two, late) == Some(11);
    assert two[..0] == [];
    assert AckStateAt(two, 0) == Acked(6, 6, 0, 0);
    assert EdgeKept(isns, two, 0, late) && EdgeKept(isns, two, 1, late);
  }

  /**
   * Without ends a stall proves nothing: a pure ACK heads one stream, both streams are well
   * behaved, the merge stalls, and yet a causal interleaving exists.
   */
  lemma StallWithoutEndsProvesNothing(isns: Isns)
    requires IsnOf(isns, 0) == IsnOf(isns, 1) == Some(0)
    ensures exists a, b, order ::
      && Mergeable(isns, a) && Mergeable(isns, b) && a.next == b.next == 0
      && MergeOf(a, b).outcome == Stalled && MergeOf(a, b).left.HeadEnd().None?
      && Interleaves(order, a, b) && CausalOrder(Some(2), isns, order)
  {
    var ack := Plain(0, 1, Some(2), []);
    var late := Plain(0, 11, None, [7]);
    var reply := Plain(1, 1, Some(6), [7]);
    var a, b := View(0, Some(0), [ack, late], 0), View(1, Some(0), [reply], 0);
    PureAckBlocks(a, b, ack, late, reply);
    LostStretchIsWellBehaved(ack, late, reply);
    ReplyFirstIsCausal(isns, a, b, ack, late, reply);
    hide MergeFrom, WellBehaved, CausalOrder;
    assert Mergeable(isns, a) && Mergeable(isns, b);
    assert Interleaves([reply, ack, late], a, b);
  }
}
