/** The reassembly view of one participant's stream: its walks and what they cache. */
module StreamViews {
  import opened Prelude
  import opened Blocks
  import opened Serial
  import opened Placement
  import opened Intervals
  import opened OffsetSpace
  import opened FirstStored
  import opened Reassembly
  import opened StreamUnits

  /** Times of the parts that overlap a range: their maximum, or None if there is none. */
  ghost predicate IsLatest(parts: seq<Contribution>, offStart: int, offEnd: int, ts: Option<int>) {
    && (ts.Some? ==> exists k :: 0 <= k < |parts| && Overlaps(parts[k], offStart, offEnd) && parts[k].ts == ts.value)
    && forall k :: 0 <= k < |parts| && Overlaps(parts[k], offStart, offEnd) ==> ts.Some? && parts[k].ts <= ts.value
  }

  predicate Overlaps(c: Contribution, offStart: int, offEnd: int) {
    c.offStart < offEnd && offStart < c.offEnd
  }

  /** The record offset `x` belongs to is stamped at or before `ts`. */
  predicate StampedBy(isn: Option<u32>, records: seq<Record>, x: int, ts: int) {
    Holder(isn, records, x).Some? ==> records[Holder(isn, records, x).value].timestamp <= ts
  }

  predicate StampedAt(isn: Option<u32>, records: seq<Record>, x: int, ts: int) {
    Holder(isn, records, x).Some? && records[Holder(isn, records, x).value].timestamp == ts
  }

  lemma NoneYet(parts: seq<Contribution>, offStart: int, offEnd: int)
    requires parts == []
    ensures IsLatest(parts, offStart, offEnd, None)
  {
  }

  lemma OneLater(parts: seq<Contribution>, c: Contribution, offStart: int, offEnd: int, ts: Option<int>)
    requires IsLatest(parts, offStart, offEnd, ts)
    ensures IsLatest(parts + [c], offStart, offEnd,
      if c.offStart < offEnd && offStart < c.offEnd then
        if ts.None? then Some(c.ts) else Some(Max(ts.value, c.ts))
      else ts)
  {
    var all := parts + [c];
    assert all[|parts|] == c && forall k :: 0 <= k < |parts| ==> all[k] == parts[k];
  }

  /** `ts` is the completion time of `[offStart, offEnd)`: the latest record its bytes belong to. */
  ghost predicate CompletedAt(isn: Option<u32>, records: seq<Record>, offStart: int, offEnd: int, ts: Option<int>) {
    && (ts.Some? ==>
          && (exists x :: offStart <= x < offEnd && StampedAt(isn, records, x, ts.value))
          && (forall x :: offStart <= x < offEnd ==> StampedBy(isn, records, x, ts.value)))
    && (ts.None? ==> forall x :: offStart <= x < offEnd ==> Holder(isn, records, x).None?)
  }

  /** The maximum over overlapping parts is the maximum over the offsets of the range. */
  lemma LatestIsCompletion(isn: Option<u32>, records: seq<Record>, parts: seq<Contribution>,
                           offStart: int, offEnd: int, ts: Option<int>)
    requires PartsExact(isn, records, parts) && offStart < offEnd && IsLatest(parts, offStart, offEnd, ts)
    ensures CompletedAt(isn, records, offStart, offEnd, ts)
  {
    hide Holder, FirstArrival;
    if ts.Some? {
      var k :| 0 <= k < |parts| && Overlaps(parts[k], offStart, offEnd) && parts[k].ts == ts.value;
      var x := Max(offStart, parts[k].offStart);
      assert Faithful(isn, records, parts[k]) && HeldWith(isn, records, x, parts[k].ts, parts[k].tsFirst);
      assert StampedAt(isn, records, x, ts.value);
    }
    forall x | offStart <= x < offEnd && Holder(isn, records, x).Some?
      ensures ts.Some? && StampedBy(isn, records, x, ts.value)
    {
      assert Accounted(isn, records, parts, x);
      var k :| 0 <= k < |parts| && parts[k].Has(x);
      assert Faithful(isn, records, parts[k]) && HeldWith(isn, records, x, parts[k].ts, parts[k].tsFirst);
      assert Overlaps(parts[k], offStart, offEnd);
    }
  }

  /** A retransmit that adds no byte leaves every completion time alone, whatever is stored after it. */
  lemma RetransmitMovesNoTime(isn: Option<u32>, before: seq<Record>, r: Record, after: seq<Record>,
                              offStart: int, offEnd: int, ts: Option<int>)
    requires Covered(isn, before, r) && GoesOn(isn, before, r, after)
    ensures CompletedAt(isn, before + [r] + after, offStart, offEnd, ts)
       <==> CompletedAt(isn, before + after, offStart, offEnd, ts)
  {
    hide *;
    var one, other := before + [r] + after, before + after;
    forall x ensures SameTimeAt(isn, one, other, x) && SameTimeAt(isn, other, one, x) {
      TimeStays(isn, before, r, after, x);
    }
    SameTimes(isn, one, other, offStart, offEnd, ts);
    SameTimes(isn, other, one, offStart, offEnd, ts);
  }

  /** In both streams offset `x` is held or not, and by a record of the same time. */
  predicate SameTimeAt(isn: Option<u32>, one: seq<Record>, other: seq<Record>, x: int) {
    var i, j := Holder(isn, one, x), Holder(isn, other, x);
    i.Some? == j.Some? && (i.Some? ==> one[i.value].timestamp == other[j.value].timestamp)
  }

  lemma TimeStays(isn: Option<u32>, before: seq<Record>, r: Record, after: seq<Record>, x: int)
    requires Covered(isn, before, r) && GoesOn(isn, before, r, after)
    ensures SameTimeAt(isn, before + [r] + after, before + after, x)
    ensures SameTimeAt(isn, before + after, before + [r] + after, x)
  {
    CoveredRetransmit(isn, before, r, after, x);
    hide HolderAmong, Covered, GoesOn;
  }

  lemma SameTimes(isn: Option<u32>, one: seq<Record>, other: seq<Record>, offStart: int, offEnd: int, ts: Option<int>)
    requires forall x :: SameTimeAt(isn, one, other, x)
    ensures CompletedAt(isn, one, offStart, offEnd, ts) ==> CompletedAt(isn, other, offStart, offEnd, ts)
  {
    hide Holder;
    if CompletedAt(isn, one, offStart, offEnd, ts) && ts.Some? {
      var x :| offStart <= x < offEnd && StampedAt(isn, one, x, ts.value);
      assert SameTimeAt(isn, one, other, x) && StampedAt(isn, other, x, ts.value);
      forall y | offStart <= y < offEnd ensures StampedBy(isn, other, y, ts.value) {
        assert SameTimeAt(isn, one, other, y) && StampedBy(isn, one, y, ts.value);
      }
    } else if CompletedAt(isn, one, offStart, offEnd, ts) {
      forall y | offStart <= y < offEnd ensures Holder(isn, other, y).None? {
        assert SameTimeAt(isn, one, other, y);
      }
    }
  }

  /**
   * What a part must share with a range to count towards its time: an offset, or, if one of them
   * is empty, a place strictly inside the other.
   */
  lemma WhatOverlaps(c: Contribution, offStart: int, offEnd: int)
    requires c.offStart <= c.offEnd && offStart <= offEnd
    ensures Overlaps(c, offStart, offEnd)
       <==> || (exists x :: offStart <= x < offEnd && c.Has(x))
            || (c.offStart == c.offEnd && offStart < c.offStart < offEnd)
            || (offStart == offEnd && c.offStart < offStart < c.offEnd)
  {
    if Overlaps(c, offStart, offEnd) && c.offStart < c.offEnd && offStart < offEnd {
      assert c.Has(Max(offStart, c.offStart));
    }
  }

  /** An empty range has no time exactly when no part runs across it. */
  lemma EmptyRangeIsNoneIff(parts: seq<Contribution>, at: int, ts: Option<int>)
    requires IsLatest(parts, at, at, ts)
    ensures ts.None? <==> forall c :: c in parts ==> !(c.offStart < at < c.offEnd)
  {
    if ts.None? {
      forall c | c in parts ensures !(c.offStart < at < c.offEnd) {
        var k :| 0 <= k < |parts| && parts[k] == c;
        assert !Overlaps(parts[k], at, at);
      }
    }
  }

  /** On a byte stream it has one exactly when one record holds the offsets on both sides. */
  lemma EmptyRangeIsInsideARecord(isn: Option<u32>, records: seq<Record>, parts: seq<Contribution>,
                                  at: int, ts: Option<int>)
    requires PartsExact(isn, records, parts) && IsLatest(parts, at, at, ts)
    ensures ts.Some? <==> Holder(isn, records, at).Some? && Holder(isn, records, at) == Holder(isn, records, at - 1)
    ensures ts.Some? ==> StampedAt(isn, records, at, ts.value)
  {
    hide Holder, FirstArrival;
    if ts.Some? {
      var k :| 0 <= k < |parts| && Overlaps(parts[k], at, at) && parts[k].ts == ts.value;
      assert Faithful(isn, records, parts[k]);
      assert HeldWith(isn, records, at, parts[k].ts, parts[k].tsFirst);
    }
    if Holder(isn, records, at).Some? && Holder(isn, records, at) == Holder(isn, records, at - 1) {
      assert Accounted(isn, records, parts, at - 1);
      var k :| 0 <= k < |parts| && parts[k].Has(at - 1);
      assert Faithful(isn, records, parts[k]);
      assert Overlaps(parts[k], at, at);
    }
  }

  lemma OneCompletion(isn: Option<u32>, records: seq<Record>, offStart: int, offEnd: int, ts: Option<int>, other: Option<int>)
    requires CompletedAt(isn, records, offStart, offEnd, ts) && CompletedAt(isn, records, offStart, offEnd, other)
    ensures ts == other
  {
    hide Holder;
    if ts.Some? {
      var x :| offStart <= x < offEnd && StampedAt(isn, records, x, ts.value);
      assert StampedAt(isn, records, x, ts.value);
    }
    if other.Some? {
      var x :| offStart <= x < offEnd && StampedAt(isn, records, x, other.value);
      assert StampedAt(isn, records, x, other.value);
      assert ts.Some? && StampedBy(isn, records, x, ts.value);
    }
    if ts.Some? && other.Some? {
      var x :| offStart <= x < offEnd && StampedAt(isn, records, x, ts.value);
      assert StampedBy(isn, records, x, other.value);
    }
  }

  /** `ts_for` answers alike with and without a retransmit that adds no byte. */
  lemma RetransmitKeepsTsFor(isn: Option<u32>, before: seq<Record>, r: Record, after: seq<Record>,
                             parts: seq<Contribution>, without: seq<Contribution>,
                             offStart: int, offEnd: int, ts: Option<int>, tsWithout: Option<int>)
    requires Covered(isn, before, r) && GoesOn(isn, before, r, after) && offStart <= offEnd
    requires PartsExact(isn, before + [r] + after, parts) && IsLatest(parts, offStart, offEnd, ts)
    requires PartsExact(isn, before + after, without) && IsLatest(without, offStart, offEnd, tsWithout)
    ensures ts == tsWithout
  {
    hide *;
    var one, other := before + [r] + after, before + after;
    if offStart < offEnd {
      LatestIsCompletion(isn, one, parts, offStart, offEnd, ts);
      LatestIsCompletion(isn, other, without, offStart, offEnd, tsWithout);
      RetransmitMovesNoTime(isn, before, r, after, offStart, offEnd, ts);
      OneCompletion(isn, other, offStart, offEnd, ts, tsWithout);
    } else {
      EmptyRangeIsInsideARecord(isn, one, parts, offStart, ts);
      EmptyRangeIsInsideARecord(isn, other, without, offStart, tsWithout);
      CoveredRetransmit(isn, before, r, after, offStart);
      CoveredRetransmit(isn, before, r, after, offStart - 1);
      ShiftedIsOneToOne(Holder(isn, other, offStart), Holder(isn, other, offStart - 1), |before|);
      TimeStays(isn, before, r, after, offStart);
      if ts.Some? {
        SameStamp(isn, one, other, offStart, ts.value, tsWithout.value);
      }
    }
  }

  lemma ShiftedIsOneToOne(i: Option<nat>, j: Option<nat>, n: nat)
    ensures Shifted(i, n) == Shifted(j, n) <==> i == j
    ensures Shifted(i, n).Some? <==> i.Some?
  {
  }

  lemma SameStamp(isn: Option<u32>, one: seq<Record>, other: seq<Record>, x: int, ts: int, otherTs: int)
    requires SameTimeAt(isn, one, other, x) && StampedAt(isn, one, x, ts) && StampedAt(isn, other, x, otherTs)
    ensures ts == otherTs
  {
    hide Holder;
  }

  /** One datagram of two bytes, and the empty range between them: a time all the same. */
  lemma EmptyRangeIsAnswered(r: Record, ts: Option<int>)
    requires |r.payload| == 2
    requires IsLatest(PacketParts([r], [Range(0, 2)]), 1, 1, ts)
    ensures ts == Some(r.timestamp)
  {
    var parts := PacketParts([r], [Range(0, 2)]);
    assert Overlaps(parts[0], 1, 1);
  }

  /** The part has a byte in the range. */
  predicate SharesByte(c: Contribution, offStart: int, offEnd: int) {
    exists x :: offStart <= x < offEnd && c.Has(x)
  }

  /** The documented answer: the maximum over the parts that have a byte in the range. */
  ghost predicate IsLatestSharing(parts: seq<Contribution>, offStart: int, offEnd: int, ts: Option<int>) {
    && (ts.Some? ==> exists k :: 0 <= k < |parts| && SharesByte(parts[k], offStart, offEnd) && parts[k].ts == ts.value)
    && forall k :: 0 <= k < |parts| && SharesByte(parts[k], offStart, offEnd) ==> ts.Some? && parts[k].ts <= ts.value
  }

  predicate EmptyInside(c: Contribution, offStart: int, offEnd: int) {
    c.offStart == c.offEnd && offStart < c.offStart < offEnd
  }

  /** Some part with a byte in the range is at least as late as `c`. */
  predicate NotAlone(parts: seq<Contribution>, offStart: int, offEnd: int, c: Contribution) {
    exists l :: 0 <= l < |parts| && SharesByte(parts[l], offStart, offEnd) && c.ts <= parts[l].ts
  }

  /**
   * The answer is the documented one exactly when no empty datagram strictly inside the range is
   * later than everything that has a byte in it.
   */
  lemma DocumentedTimeIff(parts: seq<Contribution>, offStart: int, offEnd: int, ts: Option<int>)
    requires offStart < offEnd && IsLatest(parts, offStart, offEnd, ts)
    requires forall c :: c in parts ==> c.offStart <= c.offEnd
    ensures IsLatestSharing(parts, offStart, offEnd, ts)
       <==> forall c :: c in parts && EmptyInside(c, offStart, offEnd) ==> NotAlone(parts, offStart, offEnd, c)
  {
    forall k | 0 <= k < |parts| ensures CountsRightly(parts[k], offStart, offEnd) {
      assert parts[k] in parts;
      WhatOverlaps(parts[k], offStart, offEnd);
    }
    hide Overlaps, SharesByte, EmptyInside;
    if IsLatestSharing(parts, offStart, offEnd, ts) {
      forall c | c in parts && EmptyInside(c, offStart, offEnd) ensures NotAlone(parts, offStart, offEnd, c) {
        var k :| 0 <= k < |parts| && parts[k] == c;
        assert CountsRightly(parts[k], offStart, offEnd);
      }
    }
    if forall c :: c in parts && EmptyInside(c, offStart, offEnd) ==> NotAlone(parts, offStart, offEnd, c) {
      LatestIsShared(parts, offStart, offEnd, ts);
    }
  }

  /** If every empty datagram inside the range is matched, the maximum is taken by a byte's part. */
  lemma LatestIsShared(parts: seq<Contribution>, offStart: int, offEnd: int, ts: Option<int>)
    requires IsLatest(parts, offStart, offEnd, ts)
    requires forall k :: 0 <= k < |parts| ==> CountsRightly(parts[k], offStart, offEnd)
    requires forall c :: c in parts && EmptyInside(c, offStart, offEnd) ==> NotAlone(parts, offStart, offEnd, c)
    ensures IsLatestSharing(parts, offStart, offEnd, ts)
  {
    hide Overlaps, SharesByte, EmptyInside;
    if ts.Some? {
      var k :| 0 <= k < |parts| && Overlaps(parts[k], offStart, offEnd) && parts[k].ts == ts.value;
      assert CountsRightly(parts[k], offStart, offEnd);
      if !SharesByte(parts[k], offStart, offEnd) {
        assert parts[k] in parts && NotAlone(parts, offStart, offEnd, parts[k]);
        var l :| 0 <= l < |parts| && SharesByte(parts[l], offStart, offEnd) && parts[k].ts <= parts[l].ts;
        assert CountsRightly(parts[l], offStart, offEnd);
      }
    }
  }

  /** `WhatOverlaps`, for a range that is not empty. */
  predicate CountsRightly(c: Contribution, offStart: int, offEnd: int) {
    Overlaps(c, offStart, offEnd) <==> SharesByte(c, offStart, offEnd) || EmptyInside(c, offStart, offEnd)
  }

  /** Two datagrams of two bytes and a later, empty one between them: the empty one's time. */
  lemma EmptyDatagramDecides(first: Record, empty: Record, last: Record, ts: Option<int>)
    requires |first.payload| == 2 && empty.payload == [] && |last.payload| == 2
    requires first.timestamp < empty.timestamp && last.timestamp < empty.timestamp
    requires IsLatest(PacketParts([first, empty, last], [Range(0, 2), Range(2, 2), Range(2, 4)]), 0, 4, ts)
    ensures ts == Some(empty.timestamp)
    ensures !IsLatestSharing(PacketParts([first, empty, last], [Range(0, 2), Range(2, 2), Range(2, 4)]), 0, 4, ts)
  {
    var parts := PacketParts([first, empty, last], [Range(0, 2), Range(2, 2), Range(2, 4)]);
    assert |parts| == 3 && Overlaps(parts[1], 0, 4);
    forall k | 0 <= k < |parts| && SharesByte(parts[k], 0, 4) ensures parts[k].ts < empty.timestamp {
      assert k == 0 || k == 1 || k == 2;
    }
  }

  /** A packet-oriented stream: every record is one part, at its own range. */
  function PacketParts(records: seq<Record>, ranges: seq<Range>): (parts: seq<Contribution>)
    requires |records| == |ranges|
    ensures |parts| == |records|
    ensures forall k :: 0 <= k < |parts| ==>
      parts[k] == Contribution(ranges[k].start, ranges[k].end, records[k].timestamp, FirstArrival(records[k]))
  {
    if records == [] then []
    else
      var n := |records| - 1;
      PacketParts(records[..n], ranges[..n])
      + [Contribution(ranges[n].start, ranges[n].end, records[n].timestamp, FirstArrival(records[n]))]
  }

  function DatagramParts(datagrams: seq<StreamUnit>): (parts: seq<Contribution>)
    requires forall k :: 0 <= k < |datagrams| ==> datagrams[k].Datagram?
    ensures |parts| == |datagrams|
    ensures forall k :: 0 <= k < |parts| ==> parts[k] == PartOfDatagram(datagrams[k])
  {
    seq(|datagrams|, k requires 0 <= k < |datagrams| => PartOfDatagram(datagrams[k]))
  }

  function PartOfDatagram(d: StreamUnit): Contribution
    requires d.Datagram?
  {
    Contribution(d.offStart, d.offEnd, d.record.timestamp, FirstArrival(d.record))
  }

  /** A packet-oriented stream's datagrams are its records at their ranges. */
  lemma PacketPartsAre(isn: Option<u32>, blocks: seq<StreamBlock>)
    ensures DatagramParts(DatagramsOf(UnitsUpTo(isn, blocks, |blocks|, false, false)))
         == PacketParts(RecordsOf(blocks), PositionalRanges(blocks))
  {
    assert blocks[..|blocks|] == blocks;
    PacketDatagrams(isn, blocks, |blocks|, false);
    hide UnitsUpTo, DatagramsOf, PositionalRanges, RecordsOf;
    var datagrams := DatagramsOf(UnitsUpTo(isn, blocks, |blocks|, false, false));
    forall k | 0 <= k < |datagrams|
      ensures PartOfDatagram(datagrams[k]) == PacketParts(RecordsOf(blocks), PositionalRanges(blocks))[k]
    {
      assert IsDatagram(datagrams[k], RecordsOf(blocks)[k], PositionalRanges(blocks)[k]);
    }
  }

  /** A finished walk's parts are exactly who holds what. */
  lemma WalkParts(isn: Option<u32>, records: seq<Record>, chunks: seq<Chunk>)
    requires WalkResult(isn, records, chunks)
    ensures PartsExact(isn, records, PartsOf(chunks))
  {
    var n := |records|;
    var end := DataEnd(isn, records, n);
    var tail := TrailingHole(end, Reach(isn, records, n), FinsBelow(isn, records, n));
    var body := if tail.None? then chunks else chunks[..|chunks| - 1];
    var parts := PartsOf(body);
    assert PartsOf(chunks) == parts;
    PartsOfTiling(isn, records, body, end, 0);
    forall x ensures Accounted(isn, records, parts, x) {
      PartsOfTiling(isn, records, body, end, x);
      HeldSoFar(isn, records, n, x);
    }
    hide Accounted, Faithful, PartsOf, WalkResult;
  }

  // ----- Facts the walk is verified with ------------------------------------------------

  lemma WalkStarts(isn: Option<u32>, records: seq<Record>)
    ensures WalkInvariant(isn, records, 0, [], [], Segment(0, 0, [], 0, []), 0)
    ensures Reach(isn, records, 0) == 0 && FinsBelow(isn, records, 0) == {}
    ensures PlacerAfter(isn, records[..0]) == StartState(isn)
    ensures StartState(isn) == if isn.Some? then var o := Wrap(isn.value + 1); Anchored(o, o, 0) else Unanchored
  {
  }

  lemma PlacesNext(isn: Option<u32>, records: seq<Record>, n: nat)
    requires n < |records|
    ensures OffsetAt(isn, records, n) == Place(PlacerAfter(isn, records[..n]), records[n])
    ensures PlacerAfter(isn, records[..n + 1]) == PlaceStep(PlacerAfter(isn, records[..n]), records[n])
  {
    assert records[..n + 1] == records[..n] + [records[n]];
    PlacerSnoc(isn, records[..n], records[n]);
  }

  /** What record `n` does to the reach and the FIN positions. */
  lemma MeasuresNext(isn: Option<u32>, records: seq<Record>, n: nat)
    requires n < |records|
    ensures var off, r := OffsetAt(isn, records, n), records[n];
      && (off.None? ==>
            Reach(isn, records, n + 1) == Reach(isn, records, n)
            && FinsBelow(isn, records, n + 1) == FinsBelow(isn, records, n))
      && (off.Some? ==>
            Reach(isn, records, n + 1) == Max(Reach(isn, records, n), off.value + |r.payload|)
            && (FinsBelow(isn, records, n + 1)
                == FinsBelow(isn, records, n) + if r.Fin() then {off.value + |r.payload|} else {}))
  {
    hide OffsetAt;
    FinsStep(isn, records, n);
    hide FinsBelow;
  }

  lemma TailEmitted(body: seq<Chunk>, tail: Option<Range>)
    ensures Emitted(body, tail) == if tail.Some? then body + [Gap(tail.value.start, tail.value.end)] else body
  {
  }

  lemma PartIs(r: Record)
    ensures forall off, payload {:trigger PartOf(r, off, payload)} ::
      PartOf(r, off, payload) == Contribution(off, off + |payload|, r.timestamp, FirstArrival(r))
  {
  }

  /** Place a record, creating the placer at the first hint if no `isn` anchored it. */
  method PlaceLazily(placer: Placer?, ghost origin: u32, record: Record, ghost st: PlacerState)
    returns (next: Placer?, ghost from: u32, off: Option<int>)
    requires placer == null ==> st.Unanchored?
    requires placer != null ==> st.Anchored? && placer.State(origin) == st
    modifies placer
    ensures off == Place(st, record)
    ensures next == null ==> PlaceStep(st, record).Unanchored?
    ensures next != null ==> PlaceStep(st, record).Anchored? && next.State(from) == PlaceStep(st, record)
    ensures next != null && next != placer ==> fresh(next)
  {
    next, from := placer, origin;
    hide SerialDelta;
    if placer == null && record.seqStart.Some? {
      WrapOfValue(record.seqStart.value);
      hide Wrap;
      next := new Placer(record.seqStart.value);
      from := record.seqStart.value;
    }
    if next == null {
      return next, from, None;
    }
    off := next.PlaceRecord(record, from);
  }

  /** A packet-oriented stream ends where its last record does, and has neither holes nor FINs. */
  lemma PacketMeasure(isn: Option<u32>, blocks: seq<StreamBlock>)
    requires !Oriented(isn, blocks)
    ensures var ranges := PositionalRanges(blocks);
      Measures(isn, blocks, Measured(if ranges == [] then 0 else ranges[|ranges| - 1].end, [], []))
  {
    hide PositionalRanges, IsLost, Total;
    PositionalExtent(blocks);
  }

  /** A finished walk's measurement is a true one. */
  lemma FinalMeasure(isn: Option<u32>, blocks: seq<StreamBlock>, chunks: seq<Chunk>, cursor: int)
    requires var records := RecordsOf(blocks);
      && !IsPositional(isn, records, Transport) && WalkResult(isn, records, chunks)
      && cursor == DataEnd(isn, records, |records|)
    ensures var records, m := RecordsOf(blocks), Measure(isn, RecordsOf(blocks), chunks);
      && Max(cursor, Reach(isn, records, |records|)) == m.extent == StreamExtent(isn, blocks, Transport)
      && (forall x :: Covers(m.holes, x) <==> IsLost(isn, records, x))
      && (forall r :: r in m.holes ==> r.start < r.end)
      && m.holes == HolesOf(chunks)
      && m.fins == FinsInside(isn, records)
      && Below(FinsBelow(isn, records, |records|), m.extent) == m.fins
  {
    var records := RecordsOf(blocks);
    DataEndIsReached(isn, records, |records|);
    PlacedExtent(isn, records, |records|);
    forall x ensures Covers(HolesOf(chunks), x) <==> IsLost(isn, records, x) {
      MeasurementIsExact(isn, records, chunks, x);
    }
    MeasurementIsExact(isn, records, chunks, 0);
    hide WalkResult, HolesOf, IsLost, Covers, RecordsOf, DataEnd, FinsBelow;
  }

  // ----- What a stream measures ----------------------------------------------------------

  /** A byte stream: the handshake fixed an `isn`, or its first record is hinted. */
  predicate Oriented(isn: Option<u32>, blocks: seq<StreamBlock>) {
    isn.Some? || (RecordsOf(blocks) != [] && RecordsOf(blocks)[0].seqStart.Some?)
  }

  /** Record `i` carries the stream's first sequence number, with unhinted records before it. */
  predicate HintedLate(blocks: seq<StreamBlock>, i: nat) {
    && 0 < i < |RecordsOf(blocks)| && RecordsOf(blocks)[i].seqStart.Some?
    && forall k :: 0 <= k < i ==> RecordsOf(blocks)[k].seqStart.None?
  }

  /**
   * The view calls a stream a byte stream iff its records are placed by sequence number, except
   * where neither an `isn` nor the first record has one and a later record does: that stream is
   * placed and yet called packet-oriented.
   */
  lemma OrientedIffPlaced(isn: Option<u32>, blocks: seq<StreamBlock>)
    ensures (Oriented(isn, blocks) <==> TransportOrigin(isn, RecordsOf(blocks)).Some?)
       <==> isn.Some? || forall i: nat :: !HintedLate(blocks, i)
  {
    hide RecordsOf;
    var records := RecordsOf(blocks);
    if isn.None? && FirstHint(records).Some? {
      var i := FirstHinted(records);
      if i > 0 {
        assert HintedLate(blocks, i);
      }
    }
  }

  lemma {:induction false} FirstHinted(records: seq<Record>) returns (i: nat)
    requires FirstHint(records).Some?
    ensures i < |records| && records[i].seqStart.Some? && forall k :: 0 <= k < i ==> records[k].seqStart.None?
  {
    i := 0;
    while records[i].seqStart.None?
      invariant i < |records| && forall k :: 0 <= k < i ==> records[k].seqStart.None?
      decreases |records| - i
    {
      i := i + 1;
    }
  }

  function ExtentOf(isn: Option<u32>, blocks: seq<StreamBlock>): nat {
    StreamExtent(isn, blocks, if Oriented(isn, blocks) then Transport else Decoded)
  }

  /** The FIN positions inside the extent, which are owed nothing. */
  function FinsOf(isn: Option<u32>, blocks: seq<StreamBlock>): seq<int> {
    if Oriented(isn, blocks) then FinsInside(isn, RecordsOf(blocks)) else []
  }

  /** `x` lies in a reassembly hole; a packet-oriented stream has none. */
  predicate Lost(isn: Option<u32>, blocks: seq<StreamBlock>, x: int) {
    Oriented(isn, blocks) && IsLost(isn, RecordsOf(blocks), x)
  }

  /** The measurement is what the stream's own offset space says. */
  ghost predicate Measures(isn: Option<u32>, blocks: seq<StreamBlock>, m: Measured) {
    && m.extent == ExtentOf(isn, blocks) && m.fins == FinsOf(isn, blocks)
    && (forall x :: Covers(m.holes, x) <==> Lost(isn, blocks, x))
    && (forall r :: r in m.holes ==> r.start < r.end)
  }

  class StreamView {
    const isn: Option<u32>
    const blocks: seq<StreamBlock>
    var measured: Option<Measured>
    var contributed: Option<seq<Contribution>>

    ghost function Records(): seq<Record> {
      RecordsOf(blocks)
    }

    predicate IsStreamOriented() {
      Oriented(isn, blocks)
    }

    ghost predicate MeasuresStream(m: Measured) {
      Measures(isn, blocks, m)
    }

    ghost predicate IsContributions(parts: seq<Contribution>) {
      if IsStreamOriented() then PartsExact(isn, Records(), parts)
      else parts == PacketParts(Records(), PositionalRanges(blocks))
    }

    /** What is cached is true of the stream. */
    ghost predicate Valid()
      reads this
    {
      && (measured.Some? ==> MeasuresStream(measured.value))
      && (contributed.Some? ==> IsContributions(contributed.value))
    }

    constructor (isn: Option<u32>, blocks: seq<StreamBlock>)
      ensures Valid() && this.isn == isn && this.blocks == blocks
    {
      this.isn, this.blocks := isn, blocks;
      measured, contributed := None, None;
    }

    /** A stream-oriented view is a sequence-anchored transport stream. */
    lemma OrientedIsPlaced()
      requires IsStreamOriented()
      ensures !IsPositional(isn, Records(), Transport)
    {
      hide StreamExtent;
    }

    /** One placed record's bytes: trimmed, then joined to the run or started after a hole. */
    method Take(n: nat, placed: int, out0: seq<Chunk>, holes0: seq<Range>, cursor0: int, run0: seq<byte>,
                runStart0: int, runTs0: int, parts0: seq<Contribution>)
      returns (out: seq<Chunk>, holes: seq<Range>, cursor: int, run: seq<byte>, runStart: int, runTs: int,
               parts: seq<Contribution>)
      requires n < |RecordsOf(blocks)| && OffsetAt(isn, RecordsOf(blocks), n) == Some(placed)
      requires WalkInvariant(isn, RecordsOf(blocks), n, out0, holes0, Segment(runStart0, cursor0, run0, runTs0, parts0), cursor0)
      requires run0 == [] ==> parts0 == []
      ensures WalkInvariant(isn, RecordsOf(blocks), n + 1, out, holes, Segment(runStart, cursor, run, runTs, parts), cursor)
      ensures run == [] ==> parts == []
    {
      hide *;
      var records := RecordsOf(blocks);
      var record := records[n];
      PartIs(record);
      out, holes, cursor, run, runStart, runTs, parts := out0, holes0, cursor0, run0, runStart0, runTs0, parts0;
      ghost var before := Segment(runStart, cursor, run, runTs, parts);
      if record.payload == [] {
        SilentStep(isn, records, n, out, holes, before, cursor);
        return;
      }
      var (payload, off) := TrimOverlap(record.payload, placed, cursor);
      if payload == [] {
        SilentStep(isn, records, n, out, holes, before, cursor);
        return;
      }
      assert out + [] == out && [] + payload == payload && holes + [] == holes;
      if off > cursor || run == [] {
        NewRunStep(isn, records, n, out, holes, before, cursor, payload, off);
      } else {
        SameRunStep(isn, records, n, out, holes, before, cursor, payload, off);
      }
      if off > cursor {
        if run != [] {
          out := out + [Segment(runStart, cursor, run, runTs, parts)];
          run := [];
          parts := [];
        }
        holes := holes + [Range(cursor, off)];
        out := out + [Gap(cursor, off)];
      }
      if run != [] {
        runTs := Max(runTs, record.timestamp);
      } else {
        runStart, runTs := off, record.timestamp;
      }
      var part := Contribution(off, off + |payload|, record.timestamp, FirstArrival(record));
      assert [] + [part] == [part];
      parts := parts + [part];
      run := run + payload;
      cursor := off + |payload|;
    }

    /** The walk itself, to exhaustion: what it emits, and what it keeps on the way past. */
    method Walk() returns (out: seq<Chunk>, holes: seq<Range>, cursor: int, reach: int, fins: set<int>)
      ensures WalkResult(isn, RecordsOf(blocks), out) && holes == HolesOf(out)
      ensures cursor == DataEnd(isn, RecordsOf(blocks), |RecordsOf(blocks)|)
      ensures reach == Reach(isn, RecordsOf(blocks), |RecordsOf(blocks)|) && fins == FinsBelow(isn, RecordsOf(blocks), |RecordsOf(blocks)|)
    {
      hide *;
      var records := RecordsOf(blocks);
      out, holes := [], [];
      var runStart, runTs := 0, 0;
      cursor, reach, fins := 0, 0, {};
      var run: seq<byte>, parts: seq<Contribution> := [], [];
      var placer: Placer? := null;
      ghost var origin: u32 := 0;
      WalkStarts(isn, records);
      if isn.Some? {
        placer := new Placer(isn.value + 1);
        origin := Wrap(isn.value + 1);
      }
      for n := 0 to |records|
        invariant placer == null ==> PlacerAfter(isn, records[..n]).Unanchored?
        invariant placer != null ==> fresh(placer) && placer.State(origin) == PlacerAfter(isn, records[..n])
        invariant placer != null ==> PlacerAfter(isn, records[..n]).Anchored?
        invariant reach == Reach(isn, records, n) && fins == FinsBelow(isn, records, n)
        invariant run == [] ==> parts == []
        invariant WalkInvariant(isn, records, n, out, holes, Segment(runStart, cursor, run, runTs, parts), cursor)
      {
        var record := records[n];
        ghost var before := Segment(runStart, cursor, run, runTs, parts);
        PlacesNext(isn, records, n);
        MeasuresNext(isn, records, n);
        var placed;
        placer, origin, placed := PlaceLazily(placer, origin, record, PlacerAfter(isn, records[..n]));
        if placed.None? {
          SilentStep(isn, records, n, out, holes, before, cursor);
          continue;
        }
        reach := Max(reach, placed.value + |record.payload|);
        if record.Fin() {
          fins := fins + {placed.value + |record.payload|};
        }
        out, holes, cursor, run, runStart, runTs, parts :=
          Take(n, placed.value, out, holes, cursor, run, runStart, runTs, parts);
      }
      BodyEnds(isn, records, out, holes, Segment(runStart, cursor, run, runTs, parts), cursor);
      if run != [] {
        out := out + [Segment(runStart, cursor, run, runTs, parts)];
      }
      var trailing := TrailingHole(cursor, reach, fins);
      WithTail(isn, records, out, trailing);
      TailEmitted(out, trailing);
      if trailing.Some? {
        holes := holes + [trailing.value];
        out := out + [Gap(trailing.value.start, trailing.value.end)];
      }
    }

    /**
     * The stream as runs and holes, in one pass; None if it is packet-oriented.
     * A complete walk also leaves the measurement behind.
     */
    method Chunks() returns (chunks: Option<seq<Chunk>>)
      requires Valid()
      modifies this
      ensures Valid() && contributed == old(contributed)
      ensures chunks.Some? <==> IsStreamOriented()
      ensures chunks.None? ==> measured == old(measured)
      ensures chunks.Some? ==> WalkResult(isn, Records(), chunks.value)
      ensures chunks.Some? ==> measured == Some(Measure(isn, Records(), chunks.value))
    {
      hide WalkResult, HolesOf, IsLost, Covers, FinsInside, IsContributions, StreamExtent, IsPositional;
      hide RecordsOf, DataEnd, Reach, FinsBelow, Below;
      if !IsStreamOriented() {
        return None;
      }
      OrientedIsPlaced();
      var out, holes, cursor, reach, fins := Walk();
      FinalMeasure(isn, blocks, out, cursor);
      var extent := Max(cursor, reach);
      measured := Some(Measured(extent, holes, Below(fins, extent)));
      return Some(out);
    }

    /**
     * The stream's datagrams and the breaks between them; `seams` if it is a unit sequence. A
     * packet-oriented stream's walk also leaves its measurement behind.
     */
    method Units(seams: bool) returns (units: seq<StreamUnit>)
      requires Valid()
      modifies this
      ensures Valid() && contributed == old(contributed)
      ensures if IsStreamOriented() then measured == old(measured) else measured.Some?
      ensures units == UnitsUpTo(isn, blocks, |blocks|, IsStreamOriented(), seams)
    {
      var hinted := IsStreamOriented();
      hide IsContributions, Oriented, Measures, UnitsUpTo, Walked, PlacesBlocks, PlacerAfter, RecordsOf, Wrap, LastEndOf;
      units := [];
      var cursor, lastEnd := 0, 0;
      var emitted := false;
      var placer: Placer? := null;
      ghost var origin: u32 := 0;
      NothingWalked(isn, blocks, hinted, seams);
      HintedOrUndeclared();
      if isn.Some? {
        placer := new Placer(isn.value + 1);
        origin := Wrap(isn.value + 1);
      }
      FirstPlacer(hinted, placer, origin);
      for n := 0 to |blocks|
        invariant Valid() && measured == old(measured) && contributed == old(contributed)
        invariant Walked(blocks, n, hinted, cursor, lastEnd, emitted)
        invariant units == UnitsUpTo(isn, blocks, n, hinted, seams)
        invariant placer != null ==> fresh(placer)
        invariant PlacesBlocks(n, hinted, placer, origin)
      {
        var more;
        more, cursor, lastEnd, emitted, placer, origin :=
          UnitsOfBlock(n, hinted, seams, cursor, lastEnd, emitted, placer, origin);
        units := units + more;
      }
      if !hinted {
        WalkedEnd(blocks, cursor, lastEnd, emitted);
        PacketEnd(lastEnd);
        measured := Some(Measured(lastEnd, [], []));
      }
    }

    /** A hinted walk's placer stands where the records of the first `n` blocks leave it. */
    ghost predicate PlacesBlocks(n: nat, hinted: bool, placer: Placer?, origin: u32)
      requires n <= |blocks|
      reads placer
    {
      var st := PlacerAfter(isn, RecordsOf(blocks[..n]));
      && (placer != null ==> hinted && st.Anchored? && placer.State(origin) == st)
      && (placer == null && hinted ==> st.Unanchored?)
    }

    lemma FirstPlacer(hinted: bool, placer: Placer?, origin: u32)
      requires isn.Some? ==> hinted && origin == Wrap(isn.value + 1)
      requires isn.Some? ==> placer != null && placer.State(origin) == Anchored(origin, origin, 0)
      requires isn.None? ==> placer == null
      requires PlacerAfter(isn, RecordsOf(blocks[..0])) == StartState(isn)
      ensures PlacesBlocks(0, hinted, placer, origin)
    {
      hide Wrap, PlacerAfter, RecordsOf;
    }

    /** What one block yields, and what the walk keeps after it. */
    method UnitsOfBlock(n: nat, hinted: bool, seams: bool, cursor0: int, lastEnd0: int, emitted0: bool,
                        placer0: Placer?, ghost origin0: u32)
      returns (more: seq<StreamUnit>, cursor: int, lastEnd: int, emitted: bool, placer: Placer?, ghost origin: u32)
      requires n < |blocks| && Walked(blocks, n, hinted, cursor0, lastEnd0, emitted0)
      requires PlacesBlocks(n, hinted, placer0, origin0)
      modifies placer0
      ensures UnitsUpTo(isn, blocks, n + 1, hinted, seams) == UnitsUpTo(isn, blocks, n, hinted, seams) + more
      ensures Walked(blocks, n + 1, hinted, cursor, lastEnd, emitted)
      ensures PlacesBlocks(n + 1, hinted, placer, origin)
      ensures placer != null && placer != placer0 ==> fresh(placer)
    {
      hide *;
      NextUnit(isn, blocks, n, hinted, seams, cursor0, lastEnd0, emitted0);
      WhatPlaces(n, hinted, placer0, origin0);
      more, cursor, lastEnd, emitted, placer, origin := [], cursor0, lastEnd0, emitted0, placer0, origin0;
      ghost var before := UnitsUpTo(isn, blocks, n, hinted, seams);
      match blocks[n] {
      case Break(brk) =>
        more := [Seam(cursor, brk.width, brk.reason, true)];
        if !hinted {
          cursor := cursor + brk.Width();
        }
      case Unit(record) =>
        if seams && emitted {
          more := [Seam(cursor, None, None, false)];
        }
        emitted := true;
        var off;
        if hinted {
          placer, origin, off := PlaceLazily(placer, origin, record, PlacerAfter(isn, RecordsOf(blocks[..n])));
        } else {
          off := Some(cursor);
          cursor := cursor + |record.payload|;
        }
        assert before + more + [] == before + more && before + [] == before;
        if off.Some? {
          lastEnd := off.value + |record.payload|;
          more := more + [Datagram(record, off.value, off.value + |record.payload|)];
        }
      }
      PlacesNow(n + 1, hinted, placer, origin);
    }

    lemma WhatPlaces(n: nat, hinted: bool, placer: Placer?, origin: u32)
      requires n <= |blocks| && PlacesBlocks(n, hinted, placer, origin)
      ensures var st := PlacerAfter(isn, RecordsOf(blocks[..n]));
        && (placer != null ==> hinted && st.Anchored? && placer.State(origin) == st)
        && (placer == null && hinted ==> st.Unanchored?)
    {
    }

    lemma PlacesNow(n: nat, hinted: bool, placer: Placer?, origin: u32)
      requires n <= |blocks|
      requires var st := PlacerAfter(isn, RecordsOf(blocks[..n]));
        && (placer != null ==> hinted && st.Anchored? && placer.State(origin) == st)
        && (placer == null && hinted ==> st.Unanchored?)
      ensures PlacesBlocks(n, hinted, placer, origin)
    {
    }

    /** A stream with no declared origin and no hint on its first record is walked by its lengths. */
    lemma HintedOrUndeclared()
      ensures isn.Some? ==> IsStreamOriented()
    {
    }

    lemma PacketEnd(lastEnd: int)
      requires !IsStreamOriented() && lastEnd == LastEndOf(blocks)
      ensures MeasuresStream(Measured(lastEnd, [], []))
    {
      PacketMeasure(isn, blocks);
      hide Measures;
    }

    /** The stream's datagrams alone, without the breaks between them. */
    method Datagrams() returns (out: seq<StreamUnit>)
      requires Valid()
      modifies this
      ensures Valid() && contributed == old(contributed)
      ensures if IsStreamOriented() then measured == old(measured) else measured.Some?
      ensures out == DatagramsOf(UnitsUpTo(isn, blocks, |blocks|, IsStreamOriented(), false))
    {
      hide Valid, UnitsUpTo, IsStreamOriented;
      var units := Units(false);
      out := [];
      assert units[..0] == [];
      for n := 0 to |units|
        invariant out == DatagramsOf(units[..n])
      {
        assert units[..n + 1][..n] == units[..n];
        if units[n].Datagram? {
          out := out + [units[n]];
        }
      }
      assert units[..|units|] == units;
    }

    /** The measurement, from the cache or from a walk made now. */
    method Measurement() returns (m: Measured)
      requires Valid()
      modifies this
      ensures Valid() && MeasuresStream(m) && contributed == old(contributed)
    {
      hide Measures, IsContributions, Oriented, WalkResult, Measure;
      if measured.None? {
        if IsStreamOriented() {
          var _ := Chunks();
        } else {
          var _ := Units(false);
        }
      }
      return measured.value;
    }

    method ExtentAndGaps() returns (extent: int, holes: seq<Range>)
      requires Valid()
      modifies this
      ensures Valid()
      ensures extent == ExtentOf(isn, blocks) && forall x :: Covers(holes, x) <==> Lost(isn, blocks, x)
    {
      hide IsContributions, Oriented, ExtentOf, FinsOf, Lost, Covers;
      var m := Measurement();
      return m.extent, m.holes;
    }

    /** Every record's accepted bytes, computed once and kept. */
    method Contributions() returns (parts: seq<Contribution>)
      requires Valid()
      modifies this
      ensures Valid() && IsContributions(parts)
    {
      hide Measures, WalkResult, Measure, PartsExact;
      if contributed.None? {
        if IsStreamOriented() {
          var chunks := Chunks();
          WalkParts(isn, Records(), chunks.value);
          contributed := Some(PartsOf(chunks.value));
        } else {
          var datagrams := Datagrams();
          var parts := [];
          for n := 0 to |datagrams|
            invariant parts == DatagramParts(datagrams[..n])
            invariant Valid() && measured.Some?
          {
            var d := datagrams[n];
            parts := parts + [Contribution(d.offStart, d.offEnd, d.record.timestamp, FirstArrival(d.record))];
          }
          assert datagrams[..|datagrams|] == datagrams;
          PacketPartsAre(isn, blocks);
          contributed := Some(parts);
        }
      }
      return contributed.value;
    }

    lemma ContributionsAreExact(parts: seq<Contribution>)
      requires IsContributions(parts) && IsStreamOriented()
      ensures PartsExact(isn, Records(), parts)
    {
      hide PartsExact;
    }

    /** The completion time of a range of the stream, or None if no part counts towards it. */
    method TsFor(offStart: int, offEnd: int) returns (ts: Option<int>)
      requires Valid()
      modifies this
      ensures Valid()
      ensures IsStreamOriented() && offStart < offEnd ==> CompletedAt(isn, Records(), offStart, offEnd, ts)
      ensures exists parts :: IsContributions(parts) && IsLatest(parts, offStart, offEnd, ts)
    {
      hide *;
      var parts := Contributions();
      NoneYet(parts[..0], offStart, offEnd);
      ts := None;
      for n := 0 to |parts|
        invariant Valid() && IsLatest(parts[..n], offStart, offEnd, ts)
      {
        OneLater(parts[..n], parts[n], offStart, offEnd, ts);
        assert parts[..n + 1] == parts[..n] + [parts[n]];
        if parts[n].offStart < offEnd && offStart < parts[n].offEnd {
          ts := if ts.None? then Some(parts[n].ts) else Some(Max(ts.value, parts[n].ts));
        }
      }
      assert parts[..|parts|] == parts;
      assert IsContributions(parts) && IsLatest(parts, offStart, offEnd, ts);
      if IsStreamOriented() && offStart < offEnd {
        ContributionsAreExact(parts);
        LatestIsCompletion(isn, Records(), parts, offStart, offEnd, ts);
      }
    }
  }
}
