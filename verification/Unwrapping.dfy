/** The unwrapping walks recover true positions, at any stream length. */
module Unwrapping {
  import opened Prelude
  import opened Blocks
  import opened Serial
  import opened Placement

  /** `at[i]` is the true, unbounded position behind record `i`'s sequence number. */
  predicate CarriesPositions(stream: seq<Record>, at: seq<int>) {
    && |stream| == |at|
    && forall i :: 0 <= i < |stream| && stream[i].seqStart.Some? ==> stream[i].seqStart.value == Wrap(at[i])
  }

  /** The furthest position reached by the first `n` hinted records, from the origin on. */
  function Furthest(stream: seq<Record>, at: seq<int>, origin: int, n: nat): (high: int)
    requires n <= |stream| == |at|
    ensures high >= origin
    ensures !Hinted(stream, n) ==> high == origin
  {
    if n == 0 then origin
    else
      var before := Furthest(stream, at, origin, n - 1);
      if stream[n - 1].seqStart.None? then before else Max(before, at[n - 1])
  }

  /** Every hinted record is within 2^31 of the furthest one before it. */
  predicate NearbySteps(stream: seq<Record>, at: seq<int>, origin: int)
    requires |stream| == |at|
  {
    forall i :: 0 <= i < |stream| && stream[i].seqStart.Some? ==>
      -SEQ_HIGH_BIT <= at[i] - Furthest(stream, at, origin, i) < SEQ_HIGH_BIT
  }

  predicate Hinted(stream: seq<Record>, n: nat)
    requires n <= |stream|
  {
    n > 0 && (stream[n - 1].seqStart.Some? || Hinted(stream, n - 1))
  }

  /** The origin is `isn + 1`, or the first hinted record's position. */
  predicate OriginIs(isn: Option<u32>, stream: seq<Record>, at: seq<int>, origin: int)
    requires |stream| == |at|
  {
    if isn.Some? then Wrap(isn.value + 1) == Wrap(origin)
    else forall i :: 0 <= i < |stream| && stream[i].seqStart.Some? && !Hinted(stream, i) ==> at[i] == origin
  }

  /** One step of the walk, from a state that stands for the true position `high`. */
  lemma StepIsExact(r: Record, p: int, origin: int, high: int)
    requires r.seqStart == Some(Wrap(p)) && -SEQ_HIGH_BIT <= p - high < SEQ_HIGH_BIT
    ensures var st := Anchored(Wrap(origin), Wrap(high), high - origin);
            && Place(st, r) == (if p >= high then Some(p - origin) else None)
            && PlaceStep(st, r) == Anchored(Wrap(origin), Wrap(Max(high, p)), Max(high, p) - origin)
  {
    DeltaOfWrapped(p, high);
  }

  /** The first hinted record of an unanchored stream sits at 0. */
  lemma FirstIsExact(r: Record)
    ensures Place(Unanchored, r) == if r.seqStart.Some? then Some(0) else None
    ensures forall st :: r.seqStart.None? ==> Place(st, r) == None
  {
  }

  /** Where the walk truly stands after `n` records. */
  function TrueState(isn: Option<u32>, stream: seq<Record>, at: seq<int>, origin: int, n: nat): PlacerState
    requires n <= |stream| == |at|
  {
    if isn.None? && !Hinted(stream, n) then Unanchored
    else
      var high := Furthest(stream, at, origin, n);
      Anchored(Wrap(origin), Wrap(high), high - origin)
  }

  /** What the hypotheses say of one hinted record. */
  lemma HintIsTrue(isn: Option<u32>, stream: seq<Record>, at: seq<int>, origin: int, i: nat)
    requires CarriesPositions(stream, at) && NearbySteps(stream, at, origin) && OriginIs(isn, stream, at, origin)
    requires i < |stream| && stream[i].seqStart.Some?
    ensures stream[i].seqStart == Some(Wrap(at[i]))
    ensures -SEQ_HIGH_BIT <= at[i] - Furthest(stream, at, origin, i) < SEQ_HIGH_BIT
    ensures isn.None? && !Hinted(stream, i) ==> at[i] == origin
  {
    hide Wrap, Furthest, Hinted;
  }

  /** One record further on. */
  lemma FurthestStep(stream: seq<Record>, at: seq<int>, origin: int, n: nat)
    requires n < |stream| == |at|
    ensures Furthest(stream, at, origin, n + 1)
         == if stream[n].seqStart.None? then Furthest(stream, at, origin, n) else Max(Furthest(stream, at, origin, n), at[n])
    ensures Hinted(stream, n + 1) <==> stream[n].seqStart.Some? || Hinted(stream, n)
  {
  }

  lemma WalkStep(isn: Option<u32>, stream: seq<Record>, at: seq<int>, origin: int, n: nat)
    requires CarriesPositions(stream, at) && NearbySteps(stream, at, origin) && OriginIs(isn, stream, at, origin)
    requires n < |stream| == |at|
    ensures PlaceStep(TrueState(isn, stream, at, origin, n), stream[n]) == TrueState(isn, stream, at, origin, n + 1)
  {
    hide Place, PlaceStep, Wrap, Furthest, Hinted, CarriesPositions, NearbySteps, OriginIs;
    var r, high := stream[n], Furthest(stream, at, origin, n);
    FurthestStep(stream, at, origin, n);
    if r.seqStart.Some? {
      HintIsTrue(isn, stream, at, origin, n);
      StepIsExact(r, at[n], origin, high);
      FirstStep(r, at[n]);
    } else {
      UnhintedStays(r);
    }
  }

  lemma {:induction false} WalkIsExact(isn: Option<u32>, stream: seq<Record>, at: seq<int>, origin: int, n: nat)
    requires n <= |stream|
    requires CarriesPositions(stream, at) && NearbySteps(stream, at, origin)
    requires OriginIs(isn, stream, at, origin)
    ensures PlacerAfter(isn, stream[..n])
         == if isn.None? && !Hinted(stream, n) then Unanchored
            else var high := Furthest(stream, at, origin, n);
                 Anchored(Wrap(origin), Wrap(high), high - origin)
  {
    hide Place, PlaceStep, Wrap, Furthest, Hinted, NearbySteps, OriginIs, PlacerAfter;
    if n == 0 {
      StartIsTrue(isn, stream, at, origin);
    } else {
      WalkIsExact(isn, stream, at, origin, n - 1);
      assert stream[..n] == stream[..n - 1] + [stream[n - 1]];
      PlacerSnoc(isn, stream[..n - 1], stream[n - 1]);
      WalkStep(isn, stream, at, origin, n - 1);
    }
  }

  lemma StartIsTrue(isn: Option<u32>, stream: seq<Record>, at: seq<int>, origin: int)
    requires |stream| == |at| && OriginIs(isn, stream, at, origin)
    ensures PlacerAfter(isn, stream[..0]) == TrueState(isn, stream, at, origin, 0)
  {
    hide Wrap;
  }

  lemma UnhintedStays(r: Record)
    requires r.seqStart.None?
    ensures forall st :: PlaceStep(st, r) == st
  {
  }

  lemma FirstStep(r: Record, p: int)
    requires r.seqStart == Some(Wrap(p))
    ensures PlaceStep(Unanchored, r) == Anchored(Wrap(p), Wrap(p), 0)
  {
    assert SerialDelta(Wrap(p), Wrap(p)) == 0;
  }

  /**
   * A hinted record is placed at its true distance from the origin iff nothing before it
   * reached further; otherwise it is unplaceable and moves nothing.
   */
  lemma UnwrappingIsExact(isn: Option<u32>, stream: seq<Record>, at: seq<int>, origin: int, i: nat)
    requires i < |stream|
    requires CarriesPositions(stream, at) && NearbySteps(stream, at, origin)
    requires OriginIs(isn, stream, at, origin)
    ensures OffsetAt(isn, stream, i)
         == if stream[i].seqStart.Some? && at[i] >= Furthest(stream, at, origin, i)
            then Some(at[i] - origin) else None
  {
    hide Place, PlacerAfter, SerialDelta, Furthest, Hinted, Wrap, Anchor;
    var r, high := stream[i], Furthest(stream, at, origin, i);
    assert r.seqStart.Some? ==> r.seqStart == Some(Wrap(at[i])) && -SEQ_HIGH_BIT <= at[i] - high < SEQ_HIGH_BIT;
    assert isn.None? && r.seqStart.Some? && !Hinted(stream, i) ==> at[i] == origin;
    WalkIsExact(isn, stream, at, origin, i);
    FirstIsExact(r);
    hide CarriesPositions, NearbySteps, OriginIs;
    if r.seqStart.Some? {
      StepIsExact(r, at[i], origin, high);
    }
  }

  lemma UnplaceableMovesNothing(isn: Option<u32>, stream: seq<Record>, i: nat)
    requires i < |stream|
    requires OffsetAt(isn, stream, i).None?
    ensures PlacerAfter(isn, stream[..i + 1]) == PlacerAfter(isn, stream[..i])
  {
    assert stream[..i + 1] == stream[..i] + [stream[i]];
    PlacerSnoc(isn, stream[..i], stream[i]);
  }

  // ----- Acknowledgements --------------------------------------------------

  /** `at[i]` is the true position of record `i`'s ack. */
  predicate CarriesAcks(stream: seq<Record>, at: seq<int>) {
    && |stream| == |at|
    && forall i :: 0 <= i < |stream| && stream[i].ack.Some? ==> stream[i].ack.value == Wrap(at[i])
  }

  /** The latest acknowledged position among the first `n` records, or the peer's origin. */
  function LatestAck(stream: seq<Record>, at: seq<int>, origin: int, n: nat): int
    requires n <= |stream| == |at|
  {
    if n == 0 then origin
    else if stream[n - 1].ack.Some? then at[n - 1]
    else LatestAck(stream, at, origin, n - 1)
  }

  predicate NearbyAcks(stream: seq<Record>, at: seq<int>, origin: int)
    requires |stream| == |at|
  {
    forall i :: 0 <= i < |stream| && stream[i].ack.Some? ==>
      -SEQ_HIGH_BIT <= at[i] - LatestAck(stream, at, origin, i) < SEQ_HIGH_BIT
  }

  /** An ack's position in the peer's offset space, from the state right after it. */
  function AckedOffset(st: AckState, origin: u32): int
    requires st.Acked?
  {
    SerialDelta(st.first, origin) + st.position
  }

  lemma {:induction false} AckWalkIsExact(stream: seq<Record>, at: seq<int>, origin: int, n: nat)
    requires n <= |stream|
    requires CarriesAcks(stream, at) && NearbyAcks(stream, at, origin)
    ensures AckAfter(stream[..n]).Acked? ==>
        && AckAfter(stream[..n]).value == Wrap(LatestAck(stream, at, origin, n))
        && AckedOffset(AckAfter(stream[..n]), Wrap(origin)) == LatestAck(stream, at, origin, n) - origin
    ensures AckAfter(stream[..n]).NoAck? ==> LatestAck(stream, at, origin, n) == origin
    ensures n > 0 && stream[n - 1].ack.Some? ==> AckAfter(stream[..n]).Acked?
  {
    if n == 0 {
    } else {
      AckWalkIsExact(stream, at, origin, n - 1);
      assert stream[..n] == stream[..n - 1] + [stream[n - 1]];
      AckSnoc(stream[..n - 1], stream[n - 1]);
      if stream[n - 1].ack.Some? {
        DeltaOfWrapped(at[n - 1], LatestAck(stream, at, origin, n - 1));
      }
    }
  }

  /** The same walk with the peer's origin known from the start. */
  function EagerAckPosition(origin: u32, stored: seq<Record>): (u32, int) {
    if stored == [] then (origin, 0)
    else
      var (value, position) := EagerAckPosition(origin, stored[..|stored| - 1]);
      var r := stored[|stored| - 1];
      if r.ack.None? then (value, position)
      else (r.ack.value, position + SerialDelta(r.ack.value, value))
  }

  /** Applying the peer's origin late gives the position the eager walk would have. */
  lemma {:induction false} LateOriginIsExact(origin: u32, stored: seq<Record>)
    ensures var st := AckAfter(stored);
            EagerAckPosition(origin, stored)
            == if st.NoAck? then (origin, 0) else (st.value, AckedOffset(st, origin))
  {
    if stored == [] {
    } else {
      LateOriginIsExact(origin, stored[..|stored| - 1]);
    }
  }
}
