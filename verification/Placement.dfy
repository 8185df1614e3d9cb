/**
 * Where a stream's records and acknowledgements sit: the unwrapping walks.
 *
 * The functions over stored prefixes are the specification; the classes are the
 * incremental walks of `src/zpf/order.py`, each proved to follow its function.
 */
module Placement {
  import opened Prelude
  import opened Blocks
  import opened Serial

  // ----- Specification: the state a walk has after a stored prefix ---------

  datatype PlacerState =
    | Unanchored
    | Anchored(origin: u32, value: u32, position: int)

  function OriginOf(st: PlacerState): Option<u32> {
    if st.Anchored? then Some(st.origin) else None
  }

  function StartState(isn: Option<u32>): PlacerState {
    if isn.Some? then Anchored(Wrap(isn.value + 1), Wrap(isn.value + 1), 0) else Unanchored
  }

  /** The first sequence number an unanchored stream carries becomes its origin. */
  function Anchor(st: PlacerState, seqStart: u32): PlacerState {
    if st.Unanchored? then Anchored(seqStart, seqStart, 0) else st
  }

  /** The record's offset after the walk state `st`, or None if it is unplaceable. */
  function Place(st: PlacerState, r: Record): (off: Option<int>)
    ensures off.Some? && st.Anchored? ==> off.value >= st.position
    ensures off.Some? && st.Unanchored? ==> off.value == 0
  {
    if r.seqStart.None? then None
    else
      var anchored := Anchor(st, r.seqStart.value);
      var delta := SerialDelta(r.seqStart.value, anchored.value);
      if delta < 0 then None else Some(anchored.position + delta)
  }

  function PlaceStep(st: PlacerState, r: Record): PlacerState {
    var off := Place(st, r);
    if off.None? then st
    else Anchored(Anchor(st, r.seqStart.value).origin, r.seqStart.value, off.value)
  }

  function PlacerAfter(isn: Option<u32>, stored: seq<Record>): PlacerState {
    if stored == [] then StartState(isn)
    else PlaceStep(PlacerAfter(isn, stored[..|stored| - 1]), stored[|stored| - 1])
  }

  /** The offset of the `i`th record of a stream. */
  function OffsetAt(isn: Option<u32>, stream: seq<Record>, i: nat): Option<int>
    requires i < |stream|
  {
    Place(PlacerAfter(isn, stream[..i]), stream[i])
  }

  /**
   * One past the last sequence number a record occupies. A pure ACK or a bare RST
   * occupies none, and so does an unplaceable record.
   */
  function SequenceEnd(r: Record, offset: Option<int>): Option<int> {
    if offset.None? then None
    else if r.payload != [] then Some(offset.value + |r.payload|)
    else if r.Syn() then Some(offset.value)
    else if r.Fin() then Some(offset.value + 1)
    else None
  }

  function EndAt(isn: Option<u32>, stream: seq<Record>, i: nat): Option<int>
    requires i < |stream|
  {
    SequenceEnd(stream[i], OffsetAt(isn, stream, i))
  }

  datatype AckState =
    | NoAck
    | Acked(first: u32, value: u32, position: int, highest: int)

  function AckStep(st: AckState, ack: u32): AckState {
    match st
    case NoAck => Acked(ack, ack, 0, 0)
    case Acked(first, value, position, highest) =>
      var next := position + SerialDelta(ack, value);
      Acked(first, ack, next, Max(highest, next))
  }

  function AckAfter(stored: seq<Record>): AckState {
    if stored == [] then NoAck
    else
      var before := AckAfter(stored[..|stored| - 1]);
      var r := stored[|stored| - 1];
      if r.ack.None? then before else AckStep(before, r.ack.value)
  }

  lemma Snoc<T>(s: seq<T>, x: T)
    ensures (s + [x])[..|s + [x]| - 1] == s
  {
  }

  lemma PlacerSnoc(isn: Option<u32>, s: seq<Record>, r: Record)
    ensures PlacerAfter(isn, s + [r]) == PlaceStep(PlacerAfter(isn, s), r)
  {
    Snoc(s, r);
  }

  lemma AckSnoc(s: seq<Record>, r: Record)
    ensures AckAfter(s + [r])
         == if r.ack.None? then AckAfter(s) else AckStep(AckAfter(s), r.ack.value)
  {
    Snoc(s, r);
  }

  // ----- The walks ---------------------------------------------------------

  /**
   * Unwrap a run of 32-bit values: each position is the previous one's plus a delta.
   * A walk belongs to exactly one owner below, which keeps it as a field.
   */
  datatype Walk = Walk(value: u32, position: int)
  {
    function Delta(next: int): int {
      SerialDelta(next, value)
    }

    function Step(next: int, delta: int): Walk {
      Walk(Wrap(next), position + delta)
    }
  }

  /** A placer whose origin is already fixed. */
  class Placer {
    var walk: Walk

    constructor (origin: int)
      ensures walk == Walk(Wrap(origin), 0)
      ensures State(Wrap(origin)) == Anchored(Wrap(origin), Wrap(origin), 0)
    {
      walk := Walk(Wrap(origin), 0);
    }

    ghost function State(origin: u32): PlacerState
      reads this
    {
      Anchored(origin, walk.value, walk.position)
    }

    method PlaceRecord(r: Record, ghost origin: u32) returns (off: Option<int>)
      modifies this
      ensures off == Place(old(State(origin)), r)
      ensures State(origin) == PlaceStep(old(State(origin)), r)
    {
      if r.seqStart.None? {
        return None;
      }
      var delta := walk.Delta(r.seqStart.value);
      if delta < 0 {
        return None;
      }
      walk := walk.Step(r.seqStart.value, delta);
      off := Some(walk.position);
    }
  }

  /** A placer whose origin is fixed by what arrives. */
  class StreamPlacer {
    ghost const pid: u16
    var origin: Option<u32>
    var walk: Walk

    ghost function State(): PlacerState
      reads this
    {
      if origin.None? then Unanchored else Anchored(origin.value, walk.value, walk.position)
    }

    constructor (ghost pid: u16, isn: Option<u32>)
      ensures this.pid == pid && State() == StartState(isn)
    {
      this.pid := pid;
      if isn.Some? {
        origin, walk := Some(Wrap(isn.value + 1)), Walk(Wrap(isn.value + 1), 0);
      } else {
        origin, walk := None, Walk(0, 0);
      }
    }

    method PlaceRecord(r: Record) returns (off: Option<int>)
      modifies this
      ensures off == Place(old(State()), r)
      ensures State() == PlaceStep(old(State()), r)
    {
      if r.seqStart.None? {
        return None;
      }
      if origin.None? {
        origin, walk := r.seqStart, Walk(r.seqStart.value, 0);
      }
      var delta := walk.Delta(r.seqStart.value);
      if delta < 0 {
        return None;
      }
      walk := walk.Step(r.seqStart.value, delta);
      off := Some(walk.position);
    }
  }

  /** One participant's acks, unwrapped relative to its first one. */
  class AckWalk {
    ghost const pid: u16
    var first: Option<u32>
    var walk: Walk
    var highest: int

    ghost function State(): AckState
      reads this
    {
      if first.None? then NoAck else Acked(first.value, walk.value, walk.position, highest)
    }

    constructor (ghost pid: u16)
      ensures this.pid == pid && State() == NoAck
    {
      this.pid := pid;
      first, walk, highest := None, Walk(0, 0), 0;
    }

    method Observe(ack: u32) returns (relative: int)
      modifies this
      ensures State() == AckStep(old(State()), ack)
      ensures relative == State().position
    {
      if first.None? {
        first := Some(ack);
        walk := Walk(ack, 0);
        relative := 0;
        highest := relative;
      } else {
        walk := walk.Step(ack, walk.Delta(ack));
        relative := walk.position;
        if relative > highest {
          highest := relative;
        }
      }
    }

    /** A relative position, moved into the peer's offset space. */
    function Position(relative: int, origin: u32): int
      requires first.Some?
      reads this
    {
      SerialDelta(first.value, origin) + relative
    }
  }
}
