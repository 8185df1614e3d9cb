/** The reassembly view of a stream: runs, holes, contributions and the measurement. */
module Reassembly {
  import opened Prelude
  import opened Blocks
  import opened Placement
  import opened Intervals
  import opened OffsetSpace
  import opened FirstStored

  /** The bytes one input record contributed to a run, after overlap trimming. */
  datatype Contribution = Contribution(offStart: int, offEnd: int, ts: int, tsFirst: int)
  {
    predicate Has(x: int) {
      offStart <= x < offEnd
    }
  }

  datatype Chunk =
    | Segment(offStart: int, offEnd: int, data: seq<byte>, ts: int, contributors: seq<Contribution>)
    | Gap(offStart: int, offEnd: int)

  datatype Measured = Measured(extent: int, holes: seq<Range>, fins: seq<int>)

  function FirstArrival(r: Record): int {
    if r.tsFirst.Some? then r.tsFirst.value else r.timestamp
  }

  /** Cut from the front of a payload what lies before the cursor. */
  function TrimOverlap(payload: seq<byte>, off: int, cursor: int): (seq<byte>, int) {
    if off >= cursor then (payload, off)
    else (payload[Min(cursor - off, |payload|)..], cursor)
  }

  function TrailingHole(cursor: int, reach: int, fins: set<int>): Option<Range> {
    var start := if cursor in fins then cursor + 1 else cursor;
    if start < reach then Some(Range(start, reach)) else None
  }

  // ----- What a walk must have produced ---------------------------------------------

  /** One record holds every offset of the contribution and not the next one; the times are its. */
  predicate Faithful(isn: Option<u32>, records: seq<Record>, c: Contribution) {
    && c.offStart < c.offEnd
    && (forall x :: c.offStart <= x < c.offEnd ==> HeldWith(isn, records, x, c.ts, c.tsFirst))
    && (forall x :: c.offStart <= x < c.offEnd ==> Holder(isn, records, x) == Holder(isn, records, c.offStart))
    && Holder(isn, records, c.offEnd) != Holder(isn, records, c.offStart)
  }

  /** The record offset `x` belongs to carries these times. */
  predicate HeldWith(isn: Option<u32>, records: seq<Record>, x: int, ts: int, tsFirst: int) {
    var i := Holder(isn, records, x);
    && i.Some? && records[i.value].timestamp == ts
    && tsFirst == if records[i.value].tsFirst.Some? then records[i.value].tsFirst.value else records[i.value].timestamp
  }

  /** The contributions cover `[start, end)` end to end, in ascending order. */
  predicate Consecutive(parts: seq<Contribution>, start: int, end: int) {
    && parts != [] && parts[0].offStart == start && parts[|parts| - 1].offEnd == end
    && forall k :: 0 <= k < |parts| - 1 ==> parts[k].offEnd == parts[k + 1].offStart
  }

  predicate LatestOf(ts: int, parts: seq<Contribution>) {
    && (forall k :: 0 <= k < |parts| ==> parts[k].ts <= ts)
    && (exists k :: 0 <= k < |parts| && parts[k].ts == ts)
  }

  predicate IsRun(isn: Option<u32>, records: seq<Record>, c: Chunk)
    requires c.Segment?
  {
    && c.offStart < c.offEnd && |c.data| == c.offEnd - c.offStart
    && BytesHeld(isn, records, c.offStart, c.data)
    && Consecutive(c.contributors, c.offStart, c.offEnd)
    && (forall k :: 0 <= k < |c.contributors| ==> Faithful(isn, records, c.contributors[k]))
    && LatestOf(c.ts, c.contributors)
  }

  /** The bytes from `start` on are the first stored ones. */
  predicate BytesHeld(isn: Option<u32>, records: seq<Record>, start: int, data: seq<byte>) {
    forall k :: 0 <= k < |data| ==> HoldsByte(isn, records, start + k, data[k])
  }

  predicate HoldsByte(isn: Option<u32>, records: seq<Record>, x: int, b: byte) {
    Holder(isn, records, x).Some? && ByteAt(isn, records, x) == b
  }

  predicate IsHole(isn: Option<u32>, records: seq<Record>, c: Chunk) {
    && c.offStart < c.offEnd
    && forall x :: c.offStart <= x < c.offEnd ==> Holder(isn, records, x).None?
  }

  predicate IsPart(isn: Option<u32>, records: seq<Record>, c: Chunk) {
    if c.Segment? then IsRun(isn, records, c) else IsHole(isn, records, c)
  }

  /** The chunks lie end to end from 0 to `end`, runs and holes alternating. */
  predicate Tile(chunks: seq<Chunk>, end: int) {
    && (chunks == [] ==> end == 0)
    && (chunks != [] ==> chunks[0].offStart == 0 && chunks[|chunks| - 1].offEnd == end)
    && forall k :: 0 <= k < |chunks| - 1 ==>
         chunks[k].offEnd == chunks[k + 1].offStart && chunks[k].Segment? != chunks[k + 1].Segment?
  }

  /** Runs and holes that tile `[0, end)`, each what the first stored records make it. */
  predicate Reassembles(isn: Option<u32>, records: seq<Record>, chunks: seq<Chunk>, end: int) {
    && Tile(chunks, end)
    && forall k :: 0 <= k < |chunks| ==> IsPart(isn, records, chunks[k])
  }

  function HolesOf(chunks: seq<Chunk>): seq<Range> {
    if chunks == [] then []
    else
      var before, c := HolesOf(chunks[..|chunks| - 1]), chunks[|chunks| - 1];
      if c.Gap? then before + [Range(c.offStart, c.offEnd)] else before
  }

  /** What a complete walk yields: the tiling, then the lost tail if there is one. */
  ghost predicate WalkResult(isn: Option<u32>, records: seq<Record>, chunks: seq<Chunk>) {
    var n := |records|;
    var end := DataEnd(isn, records, n);
    var tail := TrailingHole(end, Reach(isn, records, n), FinsBelow(isn, records, n));
    if tail.None? then Reassembles(isn, records, chunks, end)
    else
      && chunks != [] && chunks[|chunks| - 1] == Gap(tail.value.start, tail.value.end)
      && Reassembles(isn, records, chunks[..|chunks| - 1], end)
      && (chunks[..|chunks| - 1] != [] ==> chunks[|chunks| - 2].Segment?)
  }

  function Measure(isn: Option<u32>, records: seq<Record>, chunks: seq<Chunk>): Measured {
    Measured(Reach(isn, records, |records|), HolesOf(chunks), FinsInside(isn, records))
  }

  // ----- One step of the walk -----------------------------------------------------------

  function PartOf(r: Record, off: int, payload: seq<byte>): Contribution {
    Contribution(off, off + |payload|, r.timestamp, FirstArrival(r))
  }

  lemma HeldByte(isn: Option<u32>, records: seq<Record>, n: nat, x: int)
    requires Holder(isn, records, x) == Some(n)
    ensures Holds(isn, records, n, x)
    ensures HoldsByte(isn, records, x, records[n].payload[x - OffsetAt(isn, records, n).value])
  {
    hide OffsetAt;
  }

  /** What one record holds for good is one truthful part. */
  lemma OnePart(isn: Option<u32>, records: seq<Record>, n: nat, off: int, payload: seq<byte>)
    requires n < |records| && payload != [] && Holder(isn, records, off + |payload|) != Some(n)
    requires forall x :: off <= x < off + |payload| ==> Holder(isn, records, x) == Some(n)
    ensures Faithful(isn, records, PartOf(records[n], off, payload))
  {
    hide Holder;
  }

  /** What trimming leaves: the bytes from the cursor on, each where it was. */
  lemma TrimSays(whole: seq<byte>, place: int, cursor: int, payload: seq<byte>, off: int)
    requires (payload, off) == TrimOverlap(whole, place, cursor)
    ensures off == Max(place, cursor)
    ensures if place + |whole| <= off then payload == [] else off + |payload| == place + |whole|
    ensures forall k :: 0 <= k < |payload| ==> 0 <= off + k - place < |whole| && payload[k] == whole[off + k - place]
  {
  }

  lemma BytesAre(isn: Option<u32>, records: seq<Record>, off: int, payload: seq<byte>)
    requires forall k :: 0 <= k < |payload| ==> HoldsByte(isn, records, off + k, payload[k])
    ensures BytesHeld(isn, records, off, payload)
  {
    hide HoldsByte;
  }

  lemma NotPastItsEnd(isn: Option<u32>, records: seq<Record>, n: nat, x: int)
    requires n < |records| && OffsetAt(isn, records, n).Some?
    requires x >= OffsetAt(isn, records, n).value + |records[n].payload|
    ensures Holder(isn, records, x) != Some(n)
  {
    HolderHolds(isn, records, n, x);
    hide OffsetAt, Holder;
  }

  /** The bytes record `n` adds, and the hole it leaves before them. */
  lemma Added(isn: Option<u32>, records: seq<Record>, n: nat, payload: seq<byte>, off: int)
    requires n < |records| && OffsetAt(isn, records, n).Some? && records[n].payload != []
    requires (payload, off) == TrimOverlap(records[n].payload, OffsetAt(isn, records, n).value, DataEnd(isn, records, n))
    ensures DataEnd(isn, records, n) <= off
    ensures DataEnd(isn, records, n + 1) == if payload == [] then DataEnd(isn, records, n) else off + |payload|
    ensures BytesHeld(isn, records, off, payload)
    ensures payload != [] ==> Faithful(isn, records, PartOf(records[n], off, payload))
    ensures payload != [] ==> forall x :: DataEnd(isn, records, n) <= x < off ==> Holder(isn, records, x).None?
  {
    hide *;
    var r, place := records[n], OffsetAt(isn, records, n).value;
    DataEndStep(isn, records, n);
    TrimSays(r.payload, place, DataEnd(isn, records, n), payload, off);
    forall x | off <= x < off + |payload| ensures Holder(isn, records, x) == Some(n) {
      NewHolder(isn, records, n, x);
    }
    forall k | 0 <= k < |payload| ensures HoldsByte(isn, records, off + k, payload[k]) {
      HeldByte(isn, records, n, off + k);
    }
    BytesAre(isn, records, off, payload);
    if payload != [] {
      NotPastItsEnd(isn, records, n, off + |payload|);
      OnePart(isn, records, n, off, payload);
    }
    forall x | payload != [] && DataEnd(isn, records, n) <= x < off ensures Holder(isn, records, x).None? {
      NewHolder(isn, records, n, x);
    }
  }

  /** A whole tiling, with one more chunk after it. */
  lemma Append(isn: Option<u32>, records: seq<Record>, chunks: seq<Chunk>, end: int, c: Chunk)
    requires Reassembles(isn, records, chunks, end) && IsPart(isn, records, c) && c.offStart == end
    requires chunks != [] ==> chunks[|chunks| - 1].Segment? != c.Segment?
    ensures Reassembles(isn, records, chunks + [c], c.offEnd)
  {
    hide IsPart;
    var all := chunks + [c];
    forall k | 0 <= k < |all| ensures IsPart(isn, records, all[k]) {
      assert all[k] == if k < |chunks| then chunks[k] else c;
    }
  }

  /** Extending the run by the bytes a record added right after it. */
  lemma ExtendRun(isn: Option<u32>, records: seq<Record>, c: Chunk, payload: seq<byte>, part: Contribution, ts: int)
    requires c.Segment? && IsRun(isn, records, c) && payload != []
    requires part.offStart == c.offEnd && part.offEnd == c.offEnd + |payload| && Faithful(isn, records, part)
    requires BytesHeld(isn, records, c.offEnd, payload)
    requires ts == Max(c.ts, part.ts)
    ensures IsRun(isn, records, Segment(c.offStart, part.offEnd, c.data + payload, ts, c.contributors + [part]))
  {
    hide HoldsByte, Faithful;
    var grown := c.contributors + [part];
    assert forall k :: 0 <= k < |c.contributors| ==> grown[k] == c.contributors[k];
    assert grown[|c.contributors|] == part;
    assert LatestOf(ts, grown) by {
      var k :| 0 <= k < |c.contributors| && c.contributors[k].ts == c.ts;
      assert grown[k].ts == c.ts;
    }
  }

  /** A run that starts with the bytes one record added. */
  lemma StartRun(isn: Option<u32>, records: seq<Record>, payload: seq<byte>, part: Contribution)
    requires payload != [] && part.offEnd == part.offStart + |payload| && Faithful(isn, records, part)
    requires BytesHeld(isn, records, part.offStart, payload)
    ensures IsRun(isn, records, Segment(part.offStart, part.offEnd, payload, part.ts, [part]))
  {
    assert [part][0].ts == part.ts;
  }

  // ----- Cases of a step --------------------------------------------------------------

  lemma JoinsRun(isn: Option<u32>, records: seq<Record>, chunks: seq<Chunk>, run: Chunk, payload: seq<byte>,
                 part: Contribution, ts: int)
    requires run.Segment? && Reassembles(isn, records, chunks + [run], run.offEnd) && payload != []
    requires part.offStart == run.offEnd && part.offEnd == run.offEnd + |payload| && Faithful(isn, records, part)
    requires BytesHeld(isn, records, run.offEnd, payload) && ts == Max(run.ts, part.ts)
    ensures Reassembles(isn, records,
      chunks + [Segment(run.offStart, part.offEnd, run.data + payload, ts, run.contributors + [part])], part.offEnd)
  {
    hide IsRun, IsHole, Faithful, BytesHeld;
    var grown := Segment(run.offStart, part.offEnd, run.data + payload, ts, run.contributors + [part]);
    var was, all := chunks + [run], chunks + [grown];
    assert IsPart(isn, records, was[|chunks|]);
    ExtendRun(isn, records, run, payload, part, ts);
    assert forall k :: 0 <= k < |chunks| ==> all[k] == was[k];
  }

  lemma StartsAfterHole(isn: Option<u32>, records: seq<Record>, chunks: seq<Chunk>, cursor: int, payload: seq<byte>,
                        part: Contribution)
    requires Reassembles(isn, records, chunks, cursor) && (chunks != [] ==> chunks[|chunks| - 1].Segment?)
    requires cursor < part.offStart && IsHole(isn, records, Gap(cursor, part.offStart)) && payload != []
    requires part.offEnd == part.offStart + |payload| && Faithful(isn, records, part)
    requires BytesHeld(isn, records, part.offStart, payload)
    ensures Reassembles(isn, records,
      chunks + [Gap(cursor, part.offStart)] + [Segment(part.offStart, part.offEnd, payload, part.ts, [part])], part.offEnd)
  {
    StartRun(isn, records, payload, part);
    hide IsRun, IsHole, Faithful, BytesHeld, Reassembles;
    Append(isn, records, chunks, cursor, Gap(cursor, part.offStart));
    Append(isn, records, chunks + [Gap(cursor, part.offStart)], part.offStart,
           Segment(part.offStart, part.offEnd, payload, part.ts, [part]));
  }

  lemma StartsAtOrigin(isn: Option<u32>, records: seq<Record>, payload: seq<byte>, part: Contribution)
    requires part.offStart == 0 && payload != [] && part.offEnd == |payload| && Faithful(isn, records, part)
    requires BytesHeld(isn, records, 0, payload)
    ensures Reassembles(isn, records, [Segment(0, part.offEnd, payload, part.ts, [part])], part.offEnd)
  {
    StartRun(isn, records, payload, part);
  }

  lemma HolesSnoc(chunks: seq<Chunk>, c: Chunk)
    ensures HolesOf(chunks + [c]) == HolesOf(chunks) + if c.Gap? then [Range(c.offStart, c.offEnd)] else []
  {
    Snoc(chunks, c);
  }

  /** Everything the walk keeps, before record `n`. */
  ghost predicate WalkInvariant(isn: Option<u32>, records: seq<Record>, n: nat, chunks: seq<Chunk>, holes: seq<Range>,
                                run: Chunk, cursor: int)
    requires run.Segment?
  {
    && n <= |records| && cursor == DataEnd(isn, records, n) && holes == HolesOf(chunks) && run.offEnd == cursor
    && (if run.data == [] then chunks == [] && cursor == 0
        else Reassembles(isn, records, chunks + [run], cursor))
  }

  /** The next bytes start a new run, after a hole or at the very beginning. */
  lemma NewRunStep(isn: Option<u32>, records: seq<Record>, n: nat, chunks: seq<Chunk>, holes: seq<Range>,
                   run: Chunk, cursor: int, payload: seq<byte>, off: int)
    requires run.Segment? && WalkInvariant(isn, records, n, chunks, holes, run, cursor) && n < |records|
    requires OffsetAt(isn, records, n).Some? && records[n].payload != [] && payload != []
    requires (payload, off) == TrimOverlap(records[n].payload, OffsetAt(isn, records, n).value, cursor)
    requires off > cursor || run.data == []
    ensures var part := PartOf(records[n], off, payload);
            var emitted := chunks + (if off > cursor && run.data != [] then [run] else [])
                                  + (if off > cursor then [Gap(cursor, off)] else []);
            WalkInvariant(isn, records, n + 1, emitted, holes + (if off > cursor then [Range(cursor, off)] else []),
                          Segment(off, part.offEnd, payload, part.ts, [part]), part.offEnd)
  {
    hide HolderAmong, Consecutive, LatestOf, Faithful;
    Added(isn, records, n, payload, off);
    var part := PartOf(records[n], off, payload);
    hide OffsetAt, TrimOverlap, Holder, BytesHeld, DataEnd;
    if off > cursor {
      var before := if run.data == [] then chunks else chunks + [run];
      assert IsHole(isn, records, Gap(cursor, off));
      hide IsHole;
      assert run.data == [] ==> before == [] && Reassembles(isn, records, before, cursor);
      StartsAfterHole(isn, records, before, cursor, payload, part);
      HolesSnoc(chunks, run);
      HolesSnoc(before, Gap(cursor, off));
      hide Reassembles, HolesOf, IsRun;
      assert before == chunks + if off > cursor && run.data != [] then [run] else [];
    } else {
      StartsAtOrigin(isn, records, payload, part);
      assert chunks + [] + [] == chunks && [] + [Segment(0, part.offEnd, payload, part.ts, [part])]
          == [Segment(0, part.offEnd, payload, part.ts, [part])];
    }
  }

  /** The next bytes continue the run. */
  lemma SameRunStep(isn: Option<u32>, records: seq<Record>, n: nat, chunks: seq<Chunk>, holes: seq<Range>,
                    run: Chunk, cursor: int, payload: seq<byte>, off: int)
    requires run.Segment? && WalkInvariant(isn, records, n, chunks, holes, run, cursor) && n < |records|
    requires OffsetAt(isn, records, n).Some? && records[n].payload != [] && payload != []
    requires (payload, off) == TrimOverlap(records[n].payload, OffsetAt(isn, records, n).value, cursor)
    requires off <= cursor && run.data != []
    ensures var part := PartOf(records[n], off, payload);
            WalkInvariant(isn, records, n + 1, chunks, holes,
              Segment(run.offStart, part.offEnd, run.data + payload, Max(run.ts, part.ts), run.contributors + [part]),
              part.offEnd)
  {
    Added(isn, records, n, payload, off);
    var part := PartOf(records[n], off, payload);
    hide OffsetAt, TrimOverlap, Holder, Faithful, BytesHeld, DataEnd, Reassembles;
    JoinsRun(isn, records, chunks, run, payload, part, Max(run.ts, part.ts));
  }

  /** A record that adds no byte leaves the walk as it is. */
  lemma SilentStep(isn: Option<u32>, records: seq<Record>, n: nat, chunks: seq<Chunk>, holes: seq<Range>,
                   run: Chunk, cursor: int)
    requires run.Segment? && WalkInvariant(isn, records, n, chunks, holes, run, cursor) && n < |records|
    requires var off := OffsetAt(isn, records, n);
      off.None? || records[n].payload == [] || TrimOverlap(records[n].payload, off.value, cursor).0 == []
    ensures WalkInvariant(isn, records, n + 1, chunks, holes, run, cursor)
  {
    hide Reassembles, HolesOf, OffsetAt;
  }

  /** The finished walk's runs and holes, up to its last byte. */
  lemma BodyEnds(isn: Option<u32>, records: seq<Record>, chunks: seq<Chunk>, holes: seq<Range>, run: Chunk, cursor: int)
    requires run.Segment? && WalkInvariant(isn, records, |records|, chunks, holes, run, cursor)
    ensures var body := if run.data != [] then chunks + [run] else chunks;
            && Reassembles(isn, records, body, cursor) && HolesOf(body) == holes
            && (body != [] ==> body[|body| - 1].Segment?) && cursor == DataEnd(isn, records, |records|)
  {
    hide IsPart, DataEnd, HolesOf;
    HolesSnoc(chunks, run);
  }

  /** A tiling up to the last byte and the lost tail, if any, make a walk's result. */
  lemma WithTail(isn: Option<u32>, records: seq<Record>, body: seq<Chunk>, tail: Option<Range>)
    requires Reassembles(isn, records, body, DataEnd(isn, records, |records|))
    requires body != [] ==> body[|body| - 1].Segment?
    requires tail == TrailingHole(DataEnd(isn, records, |records|), Reach(isn, records, |records|),
                                  FinsBelow(isn, records, |records|))
    ensures WalkResult(isn, records, Emitted(body, tail))
    ensures HolesOf(Emitted(body, tail)) == if tail.Some? then HolesOf(body) + [tail.value] else HolesOf(body)
  {
    hide Reassembles, DataEnd, Reach, FinsBelow, TrailingHole, HolesOf;
    if tail.Some? {
      var last := Gap(tail.value.start, tail.value.end);
      HolesSnoc(body, last);
      Snoc(body, last);
    }
  }

  function Emitted(body: seq<Chunk>, tail: Option<Range>): seq<Chunk> {
    if tail.Some? then body + [Gap(tail.value.start, tail.value.end)] else body
  }

  // ----- The measurement ---------------------------------------------------------------

  /** Offset `x` lies in the stream, and neither a byte nor the trailing FIN is there. */
  predicate IsLost(isn: Option<u32>, records: seq<Record>, x: int) {
    var n := |records|;
    && 0 <= x < Reach(isn, records, n) && Holder(isn, records, x).None?
    && !(x == DataEnd(isn, records, n) && x in FinsBelow(isn, records, n))
  }

  /** An offset is held iff some record's range covers it. */
  lemma HeldIffInRange(isn: Option<u32>, records: seq<Record>, x: int)
    ensures Holder(isn, records, x).Some? <==> Covers(PlacedRanges(isn, records, |records|), x)
  {
    var ranges := PlacedRanges(isn, records, |records|);
    if Covers(ranges, x) {
      var i := CoveringIndex(ranges, x);
      assert Holds(isn, records, i, x);
    }
    if Holder(isn, records, x).Some? {
      var i := Holder(isn, records, x).value;
      assert Holds(isn, records, i, x) && ranges[i] in ranges;
    }
  }

  /** A tiling without its last chunk. */
  lemma TilingBefore(isn: Option<u32>, records: seq<Record>, chunks: seq<Chunk>, end: int)
    requires Reassembles(isn, records, chunks, end) && chunks != []
    ensures var rest, c := chunks[..|chunks| - 1], chunks[|chunks| - 1];
      Reassembles(isn, records, rest, c.offStart) && IsPart(isn, records, c) && c.offEnd == end
  {
    hide IsPart;
    var rest := chunks[..|chunks| - 1];
    assert forall k :: 0 <= k < |rest| ==> rest[k] == chunks[k];
    if |chunks| >= 2 {
      assert chunks[|chunks| - 2].offEnd == chunks[|chunks| - 1].offStart;
    }
  }

  /** Inside a tiling, the holes are the offsets nobody holds. */
  lemma {:induction false} HolesOfTiling(isn: Option<u32>, records: seq<Record>, chunks: seq<Chunk>, end: int, x: int)
    requires Reassembles(isn, records, chunks, end)
    ensures Covers(HolesOf(chunks), x) <==> 0 <= x < end && Holder(isn, records, x).None?
    ensures forall r :: r in HolesOf(chunks) ==> r.start < r.end
    ensures end >= 0
  {
    hide Faithful, HolderAmong, Consecutive, LatestOf;
    if chunks != [] {
      var rest, c := chunks[..|chunks| - 1], chunks[|chunks| - 1];
      TilingBefore(isn, records, chunks, end);
      HolesOfTiling(isn, records, rest, c.offStart, x);
      CoversSnoc(HolesOf(rest), Range(c.offStart, c.offEnd), x);
      if c.Segment? && c.offStart <= x < c.offEnd {
        assert HoldsByte(isn, records, c.offStart + (x - c.offStart), c.data[x - c.offStart]);
      }
      hide Reassembles, IsRun, Holder;
    }
  }

  /** What a complete walk measures is what the separate definitions say. */
  lemma MeasurementIsExact(isn: Option<u32>, records: seq<Record>, chunks: seq<Chunk>, x: int)
    requires WalkResult(isn, records, chunks)
    ensures Covers(HolesOf(chunks), x) <==> IsLost(isn, records, x)
    ensures forall r :: r in HolesOf(chunks) ==> r.start < r.end
  {
    hide Reassembles, HolderAmong, PlacerAfter, DataEnd, Reach, FinsBelow, Covers;
    var n := |records|;
    var end := DataEnd(isn, records, n);
    var tail := TrailingHole(end, Reach(isn, records, n), FinsBelow(isn, records, n));
    HeldSoFar(isn, records, n, x);
    DataEndIsReached(isn, records, n);
    if tail.None? {
      HolesOfTiling(isn, records, chunks, end, x);
    } else {
      HolesOfTiling(isn, records, chunks[..|chunks| - 1], end, x);
      CoversSnoc(HolesOf(chunks[..|chunks| - 1]), tail.value, x);
    }
  }

  /** On a placed stream the measured extent is `stream_extent`, and a lost offset is one no record range covers. */
  lemma MeasurementIsTheDefinition(isn: Option<u32>, blocks: seq<StreamBlock>, x: int)
    requires !IsPositional(isn, RecordsOf(blocks), Transport)
    ensures var records := RecordsOf(blocks);
      && Reach(isn, records, |records|) == StreamExtent(isn, blocks, Transport)
      && (IsLost(isn, records, x) <==>
          && 0 <= x < StreamExtent(isn, blocks, Transport) && !Covers(Ranges(isn, blocks, Transport), x)
          && !(x == DataEnd(isn, records, |records|) && x in FinsInside(isn, records)))
  {
    var records := RecordsOf(blocks);
    PlacedExtent(isn, records, |records|);
    HeldIffInRange(isn, records, x);
    hide Holder, PlacedRanges, Reach, DataEnd, FinsBelow;
  }

  // ----- Timestamps ------------------------------------------------------------------------

  function PartsOf(chunks: seq<Chunk>): seq<Contribution> {
    if chunks == [] then []
    else
      var before, c := PartsOf(chunks[..|chunks| - 1]), chunks[|chunks| - 1];
      if c.Segment? then before + c.contributors else before
  }

  /** Every part says truly who holds its offsets, and every held offset is in a part. */
  ghost predicate PartsExact(isn: Option<u32>, records: seq<Record>, parts: seq<Contribution>) {
    && (forall k :: 0 <= k < |parts| ==> Faithful(isn, records, parts[k]))
    && (forall x :: Accounted(isn, records, parts, x))
  }

  /** If some record holds `x`, a part says so. */
  predicate Accounted(isn: Option<u32>, records: seq<Record>, parts: seq<Contribution>, x: int) {
    Holder(isn, records, x).Some? ==> InSomePart(parts, x)
  }

  predicate InSomePart(parts: seq<Contribution>, x: int) {
    exists k :: 0 <= k < |parts| && parts[k].Has(x)
  }

  lemma {:induction false} InConsecutive(parts: seq<Contribution>, start: int, end: int, x: int)
    requires Consecutive(parts, start, end) && start <= x < end
    ensures InSomePart(parts, x)
  {
    var last := parts[|parts| - 1];
    if !last.Has(x) && |parts| > 1 {
      var rest := parts[..|parts| - 1];
      if x < last.offStart {
        assert parts[|parts| - 2].offEnd == last.offStart;
        InConsecutive(rest, start, last.offStart, x);
        var k :| 0 <= k < |rest| && rest[k].Has(x);
        assert parts[k].Has(x);
      }
    }
  }

  lemma InEither(a: seq<Contribution>, b: seq<Contribution>, x: int)
    requires InSomePart(a, x) || InSomePart(b, x)
    ensures InSomePart(a + b, x)
  {
    if InSomePart(a, x) {
      var k :| 0 <= k < |a| && a[k].Has(x);
      assert (a + b)[k].Has(x);
    } else {
      var k :| 0 <= k < |b| && b[k].Has(x);
      assert (a + b)[|a| + k].Has(x);
    }
  }

  /** The parts of a tiling cover every held offset, and each says truly who holds it. */
  lemma {:induction false} PartsOfTiling(isn: Option<u32>, records: seq<Record>, chunks: seq<Chunk>, end: int, x: int)
    requires Reassembles(isn, records, chunks, end)
    ensures forall k :: 0 <= k < |PartsOf(chunks)| ==> Faithful(isn, records, PartsOf(chunks)[k])
    ensures 0 <= x < end ==> Accounted(isn, records, PartsOf(chunks), x)
  {
    if chunks != [] {
      var rest, c := chunks[..|chunks| - 1], chunks[|chunks| - 1];
      TilingBefore(isn, records, chunks, end);
      PartsOfTiling(isn, records, rest, c.offStart, x);
      if c.Segment? && 0 <= x < end && Holder(isn, records, x).Some? {
        if c.offStart <= x {
          InConsecutive(c.contributors, c.offStart, c.offEnd, x);
        }
        InEither(PartsOf(rest), c.contributors, x);
      }
      hide Faithful, Holder, InSomePart, Reassembles, BytesHeld;
    }
  }
}
