/**
 * The merge one step at a time: when a head is held back, which head goes next, and so what every
 * single emitted record is. Told of the streams' records, not of frontiers, bounds or keys.
 */
module MergeSteps {
  import opened Prelude
  import opened Blocks
  import opened Placement
  import opened CausalRule
  import opened CausalMerge
  import opened MergeTheorems
  import PlacementGuard
  import Serial

  // ----- When a head is held back --------------------------------------------------------------

  /** None of the first `n` records carries a sequence number. */
  predicate NoneHinted(stream: seq<Record>, n: nat)
    requires n <= |stream|
  {
    forall k :: 0 <= k < n ==> stream[k].seqStart.None?
  }

  /** `x` is the origin of the first `n` records: past a declared `isn`, or the first number carried. */
  predicate OriginIsAt(isn: Option<u32>, stream: seq<Record>, n: nat, x: u32)
    requires n <= |stream|
  {
    if isn.Some? then x == PlacementGuard.FirstByte(isn.value)
    else exists i :: 0 <= i < n && stream[i].seqStart == Some(x) && NoneHinted(stream, i)
  }

  /** The origin is this one, or there is none yet. */
  predicate OriginSays(isn: Option<u32>, stream: seq<Record>, n: nat, origin: Option<u32>)
    requires n <= |stream|
  {
    if origin.Some? then OriginIsAt(isn, stream, n, origin.value) else isn.None? && NoneHinted(stream, n)
  }

  /** That is the placer's origin. */
  lemma {:induction false} OriginIs(isn: Option<u32>, stream: seq<Record>, n: nat)
    requires n <= |stream|
    ensures OriginSays(isn, stream, n, OriginOf(PlacerAfter(isn, stream[..n])))
  {
    hide *;
    if n == 0 {
      OriginStart(isn, stream);
    } else {
      OriginIs(isn, stream, n - 1);
      assert stream[..n] == stream[..n - 1] + [stream[n - 1]];
      PlacerSnoc(isn, stream[..n - 1], stream[n - 1]);
      OriginStep(PlacerAfter(isn, stream[..n - 1]), stream[n - 1]);
      OriginNext(isn, stream, n - 1, OriginOf(PlacerAfter(isn, stream[..n - 1])));
    }
  }

  lemma OriginStart(isn: Option<u32>, stream: seq<Record>)
    ensures OriginSays(isn, stream, 0, OriginOf(PlacerAfter(isn, stream[..0])))
  {
    assert stream[..0] == [];
  }

  lemma OriginStep(st: PlacerState, r: Record)
    ensures OriginOf(PlaceStep(st, r)) == if OriginOf(st).Some? then OriginOf(st) else r.seqStart
  {
    if r.seqStart.Some? {
      assert Serial.SerialDelta(r.seqStart.value, r.seqStart.value) == 0;
    }
  }

  /** An origin stays; without one so far, the next number carried is the origin. */
  lemma OriginNext(isn: Option<u32>, stream: seq<Record>, n: nat, origin: Option<u32>)
    requires n < |stream| && OriginSays(isn, stream, n, origin)
    ensures OriginSays(isn, stream, n + 1, if origin.Some? then origin else stream[n].seqStart)
  {
  }

  lemma OneOrigin(isn: Option<u32>, stream: seq<Record>, n: nat, x: u32, y: u32)
    requires n <= |stream| && OriginIsAt(isn, stream, n, x) && OriginIsAt(isn, stream, n, y)
    ensures x == y
  {
  }

  /**
   * An acknowledged position of `g`'s stream that a record with that ack cannot go before `g`'s head:
   * it reaches the head's end, or, of a head without one, everything `g` has emitted and more than
   * the head's own place.
   */
  predicate CoversHead(g: View, acked: int)
    requires g.HasHead()
  {
    if EndAt(g.isn, g.records, g.next).Some? then acked >= EndAt(g.isn, g.records, g.next).value
    else
      && acked >= 0
      && (forall i :: 0 <= i < g.next && EndAt(g.isn, g.records, i).Some? ==> acked >= EndAt(g.isn, g.records, i).value)
      && (OffsetAt(g.isn, g.records, g.next).Some? ==> acked > OffsetAt(g.isn, g.records, g.next).value)
  }

  ghost predicate HeldBack(f: View, g: View)
    requires f.HasHead()
  {
    && g.HasHead() && f.records[f.next].ack.Some?
    && exists x: u32 :: OriginIsAt(g.isn, g.records, g.next + 1, x) && CoversHead(g, AckPosition(f, f.next, x))
  }

  lemma {:induction false} ReachesEnds(isn: Option<u32>, stream: seq<Record>, n: nat, i: nat)
    requires i < n <= |stream| && EndAt(isn, stream, i).Some?
    ensures EndAt(isn, stream, i).value <= ReachedAfter(isn, stream[..n])
  {
    assert stream[..n][..n - 1] == stream[..n - 1];
    assert EndAt(isn, stream[..n], n - 1) == EndAt(isn, stream, n - 1);
    hide OffsetAt, SequenceEnd;
    if i < n - 1 {
      ReachesEnds(isn, stream, n - 1, i);
    }
  }

  lemma CoversIsLowest(g: View, acked: int)
    requires g.HasHead() && g.Valid()
    ensures CoversHead(g, acked) <==> acked >= g.LowestEnd()
  {
    hide OffsetAt, EndAt, ReachedAfter;
    if acked >= g.LowestEnd() && g.HeadEnd().None? {
      forall i | 0 <= i < g.next && EndAt(g.isn, g.records, i).Some? ensures acked >= EndAt(g.isn, g.records, i).value {
        ReachesEnds(g.isn, g.records, g.next, i);
      }
    }
    if CoversHead(g, acked) && g.HeadEnd().None? {
      ReachedBelow(g.isn, g.records, g.next, acked);
    }
  }

  /** A head may be emitted iff it is not held back by its peer's head. */
  lemma ReadyIffNotHeld(f: View, g: View)
    requires f.Valid() && g.Valid() && f.HasHead() && g.next >= 0
    ensures PairReady(f, g) <==> !HeldBack(f, g)
  {
    hide *;
    HeadsAre(f, g);
    if f.records[f.next].ack.Some? && g.HasHead() {
      var origin := OriginOf(PlacerAfter(g.isn, g.records[..g.next + 1]));
      OriginIs(g.isn, g.records, g.next + 1);
      OriginMeans(g.isn, g.records, g.next + 1, origin);
      ReadyByBound(f, g);
      if origin.Some? {
        CoversIsLowest(g, AckPosition(f, f.next, origin.value));
        HeldAt(f, g, origin.value);
      } else {
        NotHeld(f, g);
      }
    }
  }

  /** With an origin, a head is held back by its ack as a position counted from there. */
  lemma HeldAt(f: View, g: View, origin: u32)
    requires f.HasHead() && f.records[f.next].ack.Some? && g.HasHead() && OriginIsAt(g.isn, g.records, g.next + 1, origin)
    ensures HeldBack(f, g) <==> CoversHead(g, AckPosition(f, f.next, origin))
  {
    hide CoversHead, OriginIsAt, AckPosition;
    if x: u32 :| OriginIsAt(g.isn, g.records, g.next + 1, x) && CoversHead(g, AckPosition(f, f.next, x)) {
      OneOrigin(g.isn, g.records, g.next + 1, x, origin);
    }
  }

  lemma NotHeld(f: View, g: View)
    requires f.HasHead() && g.HasHead() && g.isn.None?
    requires NoneHinted(g.records, g.next + 1)
    ensures !HeldBack(f, g)
  {
    NoOrigin(g.isn, g.records, g.next + 1);
    hide CoversHead, OriginIsAt, AckPosition;
  }

  lemma HeadsAre(f: View, g: View)
    requires f.Valid() && g.Valid() && f.HasHead() && g.next >= 0
    ensures 0 <= f.next < |f.records| && (g.HasHead() ==> 0 <= g.next < |g.records|)
    ensures f.records[f.next].ack.None? || !g.HasHead() ==> PairReady(f, g) && !HeldBack(f, g)
  {
    hide AckAfter, PlacerAfter, CoversHead, OriginIsAt, View.LowestEnd;
  }

  /** The readiness test, with the ack as a position. */
  lemma ReadyByBound(f: View, g: View)
    requires f.Valid() && g.Valid() && f.HasHead() && g.HasHead() && f.records[f.next].ack.Some?
    ensures var origin := OriginOf(PlacerAfter(g.isn, g.records[..g.next + 1]));
      PairReady(f, g) <==> (origin.Some? ==> AckPosition(f, f.next, origin.value) < g.LowestEnd())
  {
    HeadAckIs(f);
    hide AckAfter, PlacerAfter, View.LowestEnd, AckStep, Serial.SerialDelta;
  }

  lemma OriginMeans(isn: Option<u32>, stream: seq<Record>, n: nat, origin: Option<u32>)
    requires n <= |stream| && OriginSays(isn, stream, n, origin)
    ensures origin.Some? ==> OriginIsAt(isn, stream, n, origin.value)
    ensures origin.None? ==> isn.None? && NoneHinted(stream, n)
  {
  }

  lemma NoOrigin(isn: Option<u32>, stream: seq<Record>, n: nat)
    requires n <= |stream| && isn.None? && NoneHinted(stream, n)
    ensures forall x: u32 :: !OriginIsAt(isn, stream, n, x)
  {
  }

  // ----- Which head goes next ------------------------------------------------------------------

  /** By time, then by participant. */
  predicate Earlier(x: Record, y: Record) {
    x.timestamp < y.timestamp || (x.timestamp == y.timestamp && x.senderPid < y.senderPid)
  }

  /** `f`'s head is free to go, and if `g`'s is too then `f`'s is the earlier. */
  ghost predicate GoesNext(f: View, g: View) {
    f.HasHead() && !HeldBack(f, g)
    && (g.HasHead() && !HeldBack(g, f) ==> Earlier(f.records[f.next], g.records[g.next]))
  }

  /** What is left of a stream once an order's first `k` records are out. */
  function After(v: View, order: seq<Record>, k: nat): View
    requires k <= |order|
  {
    v.(next := |Sent(order[..k], v.pid)|)
  }

  /** The order's `k`th record is the head that goes next once the first `k` are out. */
  ghost predicate StepIsNext(order: seq<Record>, k: nat, a: View, b: View)
    requires k < |order|
  {
    var f, g := After(a, order, k), After(b, order, k);
    || (GoesNext(f, g) && order[k] == f.records[f.next])
    || (GoesNext(g, f) && order[k] == g.records[g.next])
  }

  lemma PickGoesNext(f: View, g: View)
    requires f.Valid() && g.Valid() && f.next >= 0 && g.next >= 0 && f.pid != g.pid
    requires SentBy(f.pid, f.records) && SentBy(g.pid, g.records) && (PairReady(f, g) || PairReady(g, f))
    ensures if Picks(f, g) then GoesNext(f, g) else GoesNext(g, f)
  {
    ReadyHasHead(f, g);
    ReadyHasHead(g, f);
    if f.HasHead() {
      ReadyIffNotHeld(f, g);
    }
    if g.HasHead() {
      ReadyIffNotHeld(g, f);
    }
    hide PairReady, HeldBack;
  }

  /** The views stand after what has been emitted. */
  lemma AfterEmitted(order: seq<Record>, emitted: seq<Record>, f: View, g: View)
    requires f.Valid() && g.Valid() && f.next >= 0 && g.next >= 0 && EmittedSoFar(emitted, f, g)
    requires |emitted| <= |order| && order[..|emitted|] == emitted
    ensures After(f, order, |emitted|) == f && After(g, order, |emitted|) == g
  {
  }

  lemma {:induction false} StepsFrom(emitted: seq<Record>, f: View, g: View, k: nat)
    requires f.Valid() && g.Valid() && f.pid != g.pid && f.next >= 0 && g.next >= 0
    requires SentBy(f.pid, f.records) && SentBy(g.pid, g.records) && EmittedSoFar(emitted, f, g)
    requires |emitted| <= k < |emitted + MergeFrom(f, g).emitted|
    ensures StepIsNext(emitted + MergeFrom(f, g).emitted, k, f, g)
    decreases |f.records| - f.next + |g.records| - g.next
  {
    hide PairReady, View.InOrder, KeyLess, SentBy, EmittedSoFar, GoesNext, Picks;
    var whole := emitted + MergeFrom(f, g).emitted;
    PickGoesNext(f, g);
    assert whole[..|emitted|] == emitted;
    AfterEmitted(whole, emitted, f, g);
    if Picks(f, g) {
      ReadyHasHead(f, g);
      PickIsReady(f, g);
      var r := f.records[f.next];
      EmitDelivers(emitted, f, g);
      assert whole == (emitted + [r]) + MergeFrom(f.Advanced(), g).emitted;
      if k > |emitted| {
        StepsFrom(emitted + [r], f.Advanced(), g, k);
      }
    } else {
      ReadyHasHead(g, f);
      PickIsReady(f, g);
      var r := g.records[g.next];
      Exchanged(emitted, f, g);
      EmitDelivers(emitted, g, f);
      assert whole == (emitted + [r]) + MergeFrom(f, g.Advanced()).emitted;
      if k > |emitted| {
        StepsFrom(emitted + [r], f, g.Advanced(), k);
      }
    }
  }

  lemma PickIsReady(f: View, g: View)
    requires f.Valid() && g.Valid() && (PairReady(f, g) || PairReady(g, f))
    ensures if Picks(f, g) then PairReady(f, g) else PairReady(g, f)
  {
    hide PairReady;
  }

  /**
   * Every record the merge emits is, of the two heads standing then, the earliest by time and
   * participant among those not held back by the other; and a stall holds both heads back.
   */
  lemma EveryStepIsNext(a: View, b: View)
    requires a.next == b.next == 0 && a.pid != b.pid && SentBy(a.pid, a.records) && SentBy(b.pid, b.records)
    ensures var m := MergeOf(a, b);
      && (forall k :: 0 <= k < |m.emitted| ==> StepIsNext(m.emitted, k, a, b))
      && m.left == After(a, m.emitted, |m.emitted|) && m.right == After(b, m.emitted, |m.emitted|)
      && (m.outcome == Stalled ==>
            m.left.HasHead() && m.right.HasHead() && HeldBack(m.left, m.right) && HeldBack(m.right, m.left))
  {
    hide MergeFrom, StepIsNext, HeldBack, PairReady, SentBy, Sent, EmittedSoFar, View.InOrder;
    var m := MergeOf(a, b);
    NothingEmitted(None, map[], a, b);
    assert [] + m.emitted == m.emitted;
    forall k | 0 <= k < |m.emitted| ensures StepIsNext(m.emitted, k, a, b) {
      StepsFrom([], a, b, k);
    }
    DeliversFrom([], a, b);
    AfterEmitted(m.emitted, m.emitted, m.left, m.right);
    HowItEnds(a, b);
    if m.outcome == Stalled {
      ReadyIffNotHeld(m.left, m.right);
      ReadyIffNotHeld(m.right, m.left);
    }
  }
}
