/**
 * The merge of two one-direction captures into one sequenced file: the records of both in causal
 * order, each at the offsets it had, and the input accounted for.
 */
module FileMerge {
  import opened Prelude
  import opened Blocks
  import opened Serial
  import opened Placement
  import opened Intervals
  import opened OffsetSpace
  import opened FirstStored
  import Reassembly
  import Fills
  import opened Ledgers
  import opened CoverageCheck
  import opened Stages
  import opened CausalRule
  import opened CausalMerge
  import opened MergeTheorems
  import opened HonestRun

  /** One input: a transport file of one stream, and what the output calls them. */
  datatype Side = Side(source: u16, key: Key, stored: StoredStream, outPid: u16)
  {
    function Records(): seq<Record> {
      RecordsOf(stored.blocks)
    }

    function Placed(): (ranges: seq<Range>)
      ensures |ranges| == |Records()|
    {
      Ranges(stored.isn, stored.blocks, Transport)
    }

    function Extent(): nat {
      StreamExtent(stored.isn, stored.blocks, Transport)
    }

    /** The input's offsets fit the fields of a span. */
    predicate Fits() {
      Extent() < U64_END
    }

    /** A placed stream, or one whose offsets no break moves; a transport stream carries none. */
    predicate NothingMoves() {
      TransportOrigin(stored.isn, Records()).Some? || forall i :: 0 <= i < |stored.blocks| ==> stored.blocks[i].Unit?
    }

    function File(): InputFile {
      InputFile(map[key := stored], map[key := Transport], [key])
    }
  }

  lemma RangesForward(side: Side)
    ensures forall r :: r in side.Placed() ==> 0 <= r.start <= r.end <= side.Extent()
  {
    var isn, records, ranges := side.stored.isn, side.Records(), side.Placed();
    forall r | r in ranges ensures 0 <= r.start <= r.end {
      if IsPositional(isn, records, Transport) {
        PositionalExtent(side.stored.blocks);
      } else {
        var i :| 0 <= i < |ranges| && ranges[i] == r;
        PositionNonNegative(isn, records[..i]);
      }
    }
  }

  // ----- Re-addressing ---------------------------------------------------------------------------

  /** The record under the output's ids, citing the range it occupied. */
  function Readdressed(side: Side, session: u64, r: Record, range: Range): Record
    requires 0 <= range.start <= range.end < U64_END
  {
    r.(sessionId := session, senderPid := side.outPid, sourceId := side.source,
       spans := [Span(side.source, side.key.sessionId, side.key.pid, range.start, range.end)])
  }

  /**
   * The output's record is the input's in everything it says of the traffic; only the ids are the
   * output's own, and the one span names where the input had it.
   */
  predicate CarriesOver(side: Side, session: u64, out: Record, r: Record, range: Range) {
    && out.sessionId == session && out.senderPid == side.outPid && out.sourceId == side.source
    && out.timestamp == r.timestamp && out.tsFirst == r.tsFirst && out.payload == r.payload && out.flags == r.flags
    && out.seqStart == r.seqStart && out.ack == r.ack && out.decoderId == r.decoderId
    && out.contentType == r.contentType && out.role == r.role && out.comment == r.comment
    && out.extraOptions == r.extraOptions
    && CitesItself(side, out, range)
  }

  /** Every record of one side, in stored order. */
  predicate AllCarriedOver(side: Side, session: u64, out: seq<Record>) {
    |out| == |side.Records()|
    && forall i :: 0 <= i < |out| ==> CarriesOver(side, session, out[i], side.Records()[i], side.Placed()[i])
  }

  function ReissuedStream(side: Side, session: u64): (out: seq<Record>)
    requires side.Fits()
    ensures |out| == |side.Records()| == |side.Placed()|
  {
    RangesForward(side);
    var records, ranges := side.Records(), side.Placed();
    seq(|records|, i requires 0 <= i < |records| =>
      assert ranges[i] in ranges;
      Readdressed(side, session, records[i], ranges[i]))
  }

  lemma ReissuedCarriesOver(side: Side, session: u64)
    requires side.Fits()
    ensures AllCarriedOver(side, session, ReissuedStream(side, session))
  {
  }

  /** `_reissued`: every record with an identity span. */
  method Reissued(side: Side, session: u64) returns (out: seq<Record>)
    requires side.Fits()
    ensures out == ReissuedStream(side, session) && AllCarriedOver(side, session, out)
  {
    ReissuedCarriesOver(side, session);
    RangesForward(side);
    ghost var whole := ReissuedStream(side, session);
    var records := RecordsOf(side.stored.blocks);
    hide RecordsOf, Ranges, StreamExtent, AllCarriedOver;
    var ranges := RecordRanges(side.stored.isn, side.stored.blocks, Transport);
    out := [];
    for n := 0 to |records|
      invariant out == whole[..n]
    {
      assert ranges.value[n] in side.Placed();
      out := out + [Readdressed(side, session, records[n], ranges.value[n])];
    }
  }

  /** The fields that decide where a record goes and what it holds. */
  predicate SameHints(a: Record, b: Record) {
    && a.payload == b.payload && a.flags == b.flags && a.seqStart == b.seqStart && a.ack == b.ack
    && a.timestamp == b.timestamp
  }

  predicate SameStream(a: seq<Record>, b: seq<Record>) {
    |a| == |b| && forall i :: 0 <= i < |a| ==> SameHints(a[i], b[i])
  }

  lemma SameLength(a: seq<Record>, b: seq<Record>)
    requires SameStream(a, b)
    ensures |a| == |b|
  {
  }

  lemma {:induction false} PlacedAlike(isn: Option<u32>, a: seq<Record>, b: seq<Record>, n: nat)
    requires SameStream(a, b) && n <= |a|
    ensures PlacerAfter(isn, a[..n]) == PlacerAfter(isn, b[..n])
  {
    hide PlaceStep, Place, SameStream, SameHints;
    SameLength(a, b);
    if n > 0 {
      PlacedAlike(isn, a, b, n - 1);
      assert a[..n] == a[..n - 1] + [a[n - 1]] && b[..n] == b[..n - 1] + [b[n - 1]];
      PlacerSnoc(isn, a[..n - 1], a[n - 1]);
      PlacerSnoc(isn, b[..n - 1], b[n - 1]);
      StepAlike(PlacerAfter(isn, a[..n - 1]), a, b, n - 1);
    } else {
      assert a[..0] == b[..0];
    }
  }

  lemma StepAlike(st: PlacerState, a: seq<Record>, b: seq<Record>, i: nat)
    requires SameStream(a, b) && i < |a|
    ensures PlaceStep(st, a[i]) == PlaceStep(st, b[i])
  {
    hide SerialDelta, Anchor;
    assert SameHints(a[i], b[i]);
  }

  lemma AlikeAt(isn: Option<u32>, a: seq<Record>, b: seq<Record>, i: nat)
    requires SameStream(a, b) && i < |a|
    ensures OffsetAt(isn, a, i) == OffsetAt(isn, b, i) && EndAt(isn, a, i) == EndAt(isn, b, i)
    ensures SameHints(a[i], b[i])
  {
    hide PlacerAfter, SerialDelta;
    PlacedAlike(isn, a, b, i);
    assert SameHints(a[i], b[i]);
  }

  lemma {:induction false} PlacedRangesAlike(isn: Option<u32>, a: seq<Record>, b: seq<Record>, n: nat)
    requires SameStream(a, b) && n <= |a|
    ensures PlacedRanges(isn, a, n) == PlacedRanges(isn, b, n) && Reach(isn, a, n) == Reach(isn, b, n)
  {
    hide OffsetAt, SameStream;
    SameLength(a, b);
    if n > 0 {
      PlacedRangesAlike(isn, a, b, n - 1);
      NextRangeAlike(isn, a, b, n - 1);
    }
  }

  lemma NextRangeAlike(isn: Option<u32>, a: seq<Record>, b: seq<Record>, n: nat)
    requires SameStream(a, b) && n < |a| && Reach(isn, a, n) == Reach(isn, b, n)
    ensures PlacedRange(isn, a, n) == PlacedRange(isn, b, n) && Reach(isn, a, n + 1) == Reach(isn, b, n + 1)
  {
    hide OffsetAt, EndAt;
    AlikeAt(isn, a, b, n);
  }

  lemma {:induction false} FirstHintAlike(a: seq<Record>, b: seq<Record>)
    requires SameStream(a, b)
    ensures FirstHint(a) == FirstHint(b)
  {
    if a != [] {
      assert SameHints(a[0], b[0]);
      forall i | 0 <= i < |a[1..]| ensures SameHints(a[1..][i], b[1..][i]) {
        assert SameHints(a[i + 1], b[i + 1]);
      }
      FirstHintAlike(a[1..], b[1..]);
    }
  }

  /** The hypotheses of a safe merge look only at those fields. */
  lemma WellBehavedAlike(isn: Option<u32>, a: seq<Record>, b: seq<Record>)
    requires SameStream(a, b) && WellBehaved(isn, a)
    ensures WellBehaved(isn, b)
  {
    forall i | 0 <= i < |a|
      ensures OffsetAt(isn, a, i) == OffsetAt(isn, b, i) && EndAt(isn, a, i) == EndAt(isn, b, i)
      ensures SameHints(a[i], b[i])
    {
      AlikeAt(isn, a, b, i);
    }
    hide OffsetAt, EndAt;
  }

  function Units(records: seq<Record>): (blocks: seq<StreamBlock>)
    ensures |blocks| == |records| && forall i :: 0 <= i < |blocks| ==> blocks[i] == Unit(records[i])
  {
    seq(|records|, i requires 0 <= i < |records| => Unit(records[i]))
  }

  lemma {:induction false} UnitsHoldTheRecords(records: seq<Record>)
    ensures RecordsOf(Units(records)) == records
  {
    if records != [] {
      var n := |records| - 1;
      UnitsHoldTheRecords(records[..n]);
      assert Units(records)[..n] == Units(records[..n]);
      assert records == records[..n] + [records[n]];
    }
  }

  lemma {:induction false} PositionalAlike(blocks: seq<StreamBlock>, records: seq<Record>)
    requires SameStream(RecordsOf(blocks), records)
    requires forall i :: 0 <= i < |blocks| ==> blocks[i].Unit?
    ensures PositionalRanges(Units(records)) == PositionalRanges(blocks) && Total(Units(records)) == Total(blocks)
  {
    if blocks == [] {
    } else {
      var rest, before := blocks[..|blocks| - 1], RecordsOf(blocks);
      var n := |records| - 1;
      assert before == RecordsOf(rest) + [blocks[|blocks| - 1].record];
      forall i | 0 <= i < n ensures SameHints(RecordsOf(rest)[i], records[..n][i]) {
        assert SameHints(before[i], records[i]);
      }
      PositionalAlike(rest, records[..n]);
      assert SameHints(before[n], records[n]);
      assert Units(records)[..n] == Units(records[..n]);
    }
  }

  lemma ReissuedAlike(side: Side, session: u64)
    requires side.Fits()
    ensures SameStream(side.Records(), ReissuedStream(side, session))
    ensures SentBy(side.outPid, ReissuedStream(side, session))
  {
  }

  lemma RangesAlike(isn: Option<u32>, blocks: seq<StreamBlock>, out: seq<Record>)
    requires SameStream(RecordsOf(blocks), out)
    requires TransportOrigin(isn, RecordsOf(blocks)).Some? || forall i :: 0 <= i < |blocks| ==> blocks[i].Unit?
    ensures Ranges(isn, Units(out), Transport) == Ranges(isn, blocks, Transport)
  {
    hide RecordsOf, PositionalRanges, PlacedRanges, FirstHint, SameStream, Units, Total;
    var records := RecordsOf(blocks);
    SameLength(records, out);
    UnitsHoldTheRecords(out);
    FirstHintAlike(records, out);
    PlacedRangesAlike(isn, records, out, |records|);
    if TransportOrigin(isn, records).None? {
      PositionalAlike(blocks, out);
    }
  }

  /** Record `i` cites its own range of the input, and nothing else. */
  predicate CitesItself(side: Side, r: Record, range: Range) {
    && |r.spans| == 1 && r.spans[0].sourceId == side.source
    && r.spans[0].sessionId == side.key.sessionId && r.spans[0].participantId == side.key.pid
    && r.spans[0].offStart == range.start && r.spans[0].offEnd == range.end
  }

  lemma SpansAreIdentity(side: Side, session: u64)
    requires side.Fits()
    ensures var out := ReissuedStream(side, session);
      forall i :: 0 <= i < |out| ==> CitesItself(side, out[i], side.Placed()[i])
  {
  }

  /** A reader of the output finds each record where it was, and its span names that range. */
  lemma OffsetSpaceKept(side: Side, session: u64)
    requires side.Fits() && side.NothingMoves()
    ensures var out := ReissuedStream(side, session);
      && Ranges(side.stored.isn, Units(out), Transport) == side.Placed()
      && forall i :: 0 <= i < |out| ==> CitesItself(side, out[i], Ranges(side.stored.isn, Units(out), Transport)[i])
  {
    ReissuedAlike(side, session);
    SpansAreIdentity(side, session);
    hide *;
    RangesOf(side);
    RangesAlike(side.stored.isn, side.stored.blocks, ReissuedStream(side, session));
  }

  lemma RangesOf(side: Side)
    requires side.NothingMoves()
    ensures side.Placed() == Ranges(side.stored.isn, side.stored.blocks, Transport)
    ensures side.Records() == RecordsOf(side.stored.blocks)
    ensures TransportOrigin(side.stored.isn, RecordsOf(side.stored.blocks)).Some?
         || forall i :: 0 <= i < |side.stored.blocks| ==> side.stored.blocks[i].Unit?
  {
  }

  // ----- Accounting for the input ------------------------------------------------------------------

  function MissingMark(side: Side, r: Range): Undecoded {
    Undecoded(side.source, side.key.sessionId, side.key.pid, r.start, r.end, Some(Fills.GAP), None)
  }

  /** The blocks are `gap` markers of this side's stream. */
  predicate AllMissing(side: Side, marks: seq<Undecoded>) {
    forall k :: 0 <= k < |marks| ==>
      marks[k].offStart < marks[k].offEnd && marks[k] == MissingMark(side, Range(marks[k].offStart, marks[k].offEnd))
  }

  /** They name exactly the offsets of the stream that no record occupies. */
  ghost predicate MarksTheRest(side: Side, marks: seq<Undecoded>) {
    forall key, x :: MarkedBy(marks, side.source, key, x)
                <==> key == side.key && 0 <= x < side.Extent() && !Covers(side.Placed(), x)
  }

  function DeclaredFor(side: Side): InputExtent {
    InputExtent(side.source, side.key.sessionId, side.key.pid, side.Extent())
  }

  /** `_account_for_input`: mark what no record occupies, and measure the stream. */
  method AccountForInput(side: Side) returns (marks: seq<Undecoded>, declared: InputExtent)
    ensures AllMissing(side, marks) && MarksTheRest(side, marks)
    ensures declared == DeclaredFor(side)
  {
    RangesForward(side);
    hide Covers, MarkedBy, RecordsOf, Ranges, Sorted, SortedByStart, Ascending;
    var placed := RecordRanges(side.stored.isn, side.stored.blocks, Transport);
    var ranges := placed.value;
    var extent := MaxEnd(ranges);
    forall x ensures Covers(Sorted(ranges), x) <==> Covers(ranges, x) {
      SortedCovers(ranges, x);
    }
    NoneReversedSorted(ranges);
    var gaps := Complement(Sorted(ranges), extent);
    marks := [];
    NoMarks(side.source);
    NoRange(gaps[..0]);
    for n := 0 to |gaps|
      invariant AllMissing(side, marks)
      invariant forall key, x :: MarkedBy(marks, side.source, key, x) <==> key == side.key && Covers(gaps[..n], x)
    {
      assert gaps[n] in gaps;
      assert gaps[..n + 1] == gaps[..n] + [gaps[n]];
      var mark := MissingMark(side, gaps[n]);
      forall key, x
        ensures MarkedBy(marks + [mark], side.source, key, x) <==> key == side.key && Covers(gaps[..n + 1], x)
      {
        MarkedConcat(marks, [mark], side.source, key, x);
        MarkedOne(mark, side.source, key, x);
        CoversSnoc(gaps[..n], gaps[n], x);
      }
      marks := marks + [mark];
    }
    assert gaps[..|gaps|] == gaps;
    declared := InputExtent(side.source, side.key.sessionId, side.key.pid, extent);
  }

  lemma NoMarks(source: u16)
    ensures forall key, x :: !MarkedBy([], source, key, x)
  {
  }

  lemma NoRange(ranges: seq<Range>)
    requires ranges == []
    ensures forall x :: !Covers(ranges, x)
  {
  }

  /** On a placed stream the marked offsets are the lost ones, and a FIN at the last byte's end. */
  lemma MarksAreLost(side: Side, marks: seq<Undecoded>, x: int)
    requires MarksTheRest(side, marks) && TransportOrigin(side.stored.isn, side.Records()).Some?
    ensures var isn, records := side.stored.isn, side.Records();
      MarkedBy(marks, side.source, side.key, x) <==>
        || Reassembly.IsLost(isn, records, x)
        || (x == DataEnd(isn, records, |records|) && x in FinsInside(isn, records))
  {
    hide Covers, MarkedBy, Reassembly.IsLost, FinsInside, RecordsOf, DataEnd, FirstHint;
    Reassembly.MeasurementIsTheDefinition(side.stored.isn, side.stored.blocks, x);
    FinsAreUncovered(side, x);
    assert MarkedBy(marks, side.source, side.key, x)
      <==> 0 <= x < side.Extent() && !Covers(side.Placed(), x);
  }

  /** Nothing is stored at the position right after the last byte. */
  lemma FinsAreUncovered(side: Side, x: int)
    requires TransportOrigin(side.stored.isn, side.Records()).Some?
    ensures var isn, records := side.stored.isn, side.Records();
      x == DataEnd(isn, records, |records|) && x in FinsInside(isn, records) ==>
        0 <= x < side.Extent() && !Covers(side.Placed(), x)
  {
    var isn, records := side.stored.isn, side.Records();
    PlacedExtent(isn, records, |records|);
    Reassembly.HeldIffInRange(isn, records, x);
    HeldSoFar(isn, records, |records|, x);
  }

  /** Two bytes, a FIN after them, and a pure ACK after that: where each sits. */
  lemma FinThenAck(isn: u32, data: Record, fin: Record, ack: Record)
    requires |data.payload| == 2 && data.seqStart == Some(Wrap(isn + 1)) && !data.Fin()
    requires fin.payload == [] && fin.seqStart == Some(Wrap(isn + 3)) && fin.Fin()
    requires ack.payload == [] && ack.seqStart == Some(Wrap(isn + 4)) && !ack.Fin()
    ensures var records := [data, fin, ack];
      && OffsetAt(Some(isn), records, 0) == Some(0) && OffsetAt(Some(isn), records, 1) == Some(2)
      && OffsetAt(Some(isn), records, 2) == Some(3)
  {
    var records := [data, fin, ack];
    assert records[..0] == [] && records[..1] == [] + [data] && records[..2] == [data] + [fin];
    PlacerSnoc(Some(isn), [], data);
    PlacerSnoc(Some(isn), [data], fin);
    DeltaOfWrapped(isn + 1, isn + 1);
    DeltaOfWrapped(isn + 3, isn + 1);
    DeltaOfWrapped(isn + 4, isn + 3);
    hide SerialDelta, Wrap;
  }

  /** On that stream the merge marks the FIN's own position, which auto-fill leaves unmarked. */
  lemma FinIsMarked(side: Side, isn: u32, data: Record, fin: Record, ack: Record, marks: seq<Undecoded>)
    requires |data.payload| == 2 && data.seqStart == Some(Wrap(isn + 1)) && !data.Fin()
    requires fin.payload == [] && fin.seqStart == Some(Wrap(isn + 3)) && fin.Fin()
    requires ack.payload == [] && ack.seqStart == Some(Wrap(isn + 4)) && !ack.Fin()
    requires side.stored.isn == Some(isn) && side.Records() == [data, fin, ack] && MarksTheRest(side, marks)
    ensures MarkedBy(marks, side.source, side.key, 2) && !Reassembly.IsLost(Some(isn), side.Records(), 2)
  {
    var records := side.Records();
    FinThenAck(isn, data, fin, ack);
    hide OffsetAt, Record.Fin;
    assert PlacedFin(Some(isn), records, 1) && DataEndOf(Some(isn), records, 1) == 2;
    assert 2 in FinsBelow(Some(isn), records, 3);
    assert Reach(Some(isn), records, 3) == 3 by {
      assert Reach(Some(isn), records, 1) == 2;
      assert Reach(Some(isn), records, 2) == 2;
    }
    assert DataEnd(Some(isn), records, 3) == 2 by {
      assert DataEnd(Some(isn), records, 1) == 2;
      assert DataEnd(Some(isn), records, 2) == 2;
    }
    hide Reach, DataEnd, FinsBelow, RecordsOf, MarkedBy, MarksTheRest;
    MarksAreLost(side, marks, 2);
  }

  // ----- The whole merge ---------------------------------------------------------------------------

  /** The output as far as it says anything of its input. */
  datatype Output = Output(records: seq<Record>, marks: seq<Undecoded>, declared: seq<InputExtent>)

  function ViewOf(side: Side, session: u64): View
    requires side.Fits()
  {
    View(side.outPid, side.stored.isn, ReissuedStream(side, session), 0)
  }

  /** Two inputs the merge takes. */
  predicate TwoSides(a: Side, b: Side) {
    a.outPid < b.outPid && a.source != b.source && a.Fits() && b.Fits()
  }

  function IsnsOf(a: Side, b: Side): Isns {
    var one: Isns := if a.stored.isn.Some? then map[a.outPid := a.stored.isn.value] else map[];
    if b.stored.isn.Some? then one[b.outPid := b.stored.isn.value] else one
  }

  /** `merge_files`; None if the causal merge refuses the records. */
  method MergeFiles(a: Side, b: Side, session: u64) returns (out: Option<Output>)
    requires TwoSides(a, b)
    ensures out.Some? <==> MergeOf(ViewOf(a, session), ViewOf(b, session)).outcome == Complete
    ensures out.Some? ==> out.value.records == MergeOf(ViewOf(a, session), ViewOf(b, session)).emitted
    ensures out.Some? ==>
      && Delivers(a, b, session, out.value.records)
      && HoldsBoth(a, b, session, out.value.records) && AccountsForBoth(a, b, out.value)
      && SideIsClean(a, out.value) && SideIsClean(b, out.value)
    ensures out.Some? && WellBehaved(a.stored.isn, a.Records()) && WellBehaved(b.stored.isn, b.Records()) ==>
      CausalOrder(Some(2), IsnsOf(a, b), out.value.records)
  {
    var first := Reissued(a, session);
    var second := Reissued(b, session);
    ViewsOfSides(a, b, session);
    hide *;
    var records, outcome := Merge(View(a.outPid, a.stored.isn, first, 0), View(b.outPid, b.stored.isn, second, 0));
    if outcome != Complete {
      return None;
    }
    var marksA, declaredA := AccountForInput(a);
    var marksB, declaredB := AccountForInput(b);
    out := Some(Output(records, marksA + marksB, [declaredA, declaredB]));
    CompletedMerge(a, b, session);
    DeliveredHoldsBoth(a, b, session, records);
    AccountedForBoth(a, b, records, marksA, marksB);
    BothClean(a, b, session, records, marksA, marksB);
    if WellBehaved(a.stored.isn, a.Records()) && WellBehaved(b.stored.isn, b.Records()) {
      MergeIsCausal(a, b, session);
    }
  }

  lemma ViewsOfSides(a: Side, b: Side, session: u64)
    requires TwoSides(a, b)
    ensures a.outPid < b.outPid
    ensures ViewOf(a, session) == View(a.outPid, a.stored.isn, ReissuedStream(a, session), 0)
    ensures ViewOf(b, session) == View(b.outPid, b.stored.isn, ReissuedStream(b, session), 0)
  {
  }

  /** The output holds both re-addressed streams, each in its stored order, and nothing else. */
  predicate Delivers(a: Side, b: Side, session: u64, order: seq<Record>)
    requires TwoSides(a, b)
  {
    Interleaves(order, ViewOf(a, session), ViewOf(b, session))
  }

  /** Every record of the output is of one side, and each side's are its input's, one by one. */
  predicate HoldsBoth(a: Side, b: Side, session: u64, order: seq<Record>) {
    && (forall i :: 0 <= i < |order| ==> order[i].senderPid == a.outPid || order[i].senderPid == b.outPid)
    && AllCarriedOver(a, session, Sent(order, a.outPid)) && AllCarriedOver(b, session, Sent(order, b.outPid))
  }

  /** The declared length of one input is the extent its own reader measures. */
  predicate Declares(side: Side, e: InputExtent) {
    && e.sourceId == side.source && e.sessionId == side.key.sessionId && e.participantId == side.key.pid
    && e.extent == side.Extent()
  }

  /** Nothing but `gap` markers of the two inputs, and one declared length for each. */
  predicate AccountsForBoth(a: Side, b: Side, out: Output) {
    && (forall k :: 0 <= k < |out.marks| ==> AllMissing(a, [out.marks[k]]) || AllMissing(b, [out.marks[k]]))
    && |out.declared| == 2 && Declares(a, out.declared[0]) && Declares(b, out.declared[1])
  }

  lemma AccountedForBoth(a: Side, b: Side, order: seq<Record>, marksA: seq<Undecoded>, marksB: seq<Undecoded>)
    requires AllMissing(a, marksA) && AllMissing(b, marksB)
    ensures AccountsForBoth(a, b, Output(order, marksA + marksB, [DeclaredFor(a), DeclaredFor(b)]))
  {
  }

  lemma DeliveredHoldsBoth(a: Side, b: Side, session: u64, order: seq<Record>)
    requires TwoSides(a, b) && Delivers(a, b, session, order)
    ensures HoldsBoth(a, b, session, order)
  {
    ReissuedCarriesOver(a, session);
    ReissuedCarriesOver(b, session);
    hide AllCarriedOver, Sent, ReissuedStream;
  }

  lemma MergeableSide(isns: Isns, side: Side, session: u64)
    requires side.Fits() && IsnOf(isns, side.outPid) == side.stored.isn
    requires WellBehaved(side.stored.isn, side.Records())
    ensures Mergeable(isns, ViewOf(side, session))
  {
    ReissuedAlike(side, session);
    WellBehavedAlike(side.stored.isn, side.Records(), ReissuedStream(side, session));
    hide WellBehaved, SentBy, SameStream, ReissuedStream;
  }

  lemma CompletedMerge(a: Side, b: Side, session: u64)
    requires TwoSides(a, b)
    requires MergeOf(ViewOf(a, session), ViewOf(b, session)).outcome == Complete
    ensures Delivers(a, b, session, MergeOf(ViewOf(a, session), ViewOf(b, session)).emitted)
  {
    ReissuedAlike(a, session);
    ReissuedAlike(b, session);
    hide MergeOf, Interleaves, ReissuedStream, SentBy, SameStream;
    CompletedMergeDelivers(ViewOf(a, session), ViewOf(b, session));
  }

  lemma MergeIsCausal(a: Side, b: Side, session: u64)
    requires TwoSides(a, b)
    requires WellBehaved(a.stored.isn, a.Records()) && WellBehaved(b.stored.isn, b.Records())
    ensures CausalOrder(Some(2), IsnsOf(a, b), MergeOf(ViewOf(a, session), ViewOf(b, session)).emitted)
  {
    hide WellBehaved, CausalOrder, MergeOf, Interleaves, ReissuedStream, Mergeable;
    MergeableSide(IsnsOf(a, b), a, session);
    MergeableSide(IsnsOf(a, b), b, session);
    MergeIsSafe(Some(2), IsnsOf(a, b), ViewOf(a, session), ViewOf(b, session));
  }

  // ----- The validator finds nothing ---------------------------------------------------------------

  /** Checked against this side's file, the output meets the whole coverage guarantee. */
  ghost predicate SideIsClean(side: Side, out: Output) {
    FileClean(side.File(), side.source, AllSpans(out.records), out.marks, out.declared)
  }

  lemma {:induction false} SpanOfARecord(records: seq<Record>, sp: Span)
    ensures sp in AllSpans(records) <==> exists i :: 0 <= i < |records| && sp in records[i].spans
  {
    if records != [] {
      var n := |records| - 1;
      SpanOfARecord(records[..n], sp);
      assert records == records[..n] + [records[n]];
    }
  }

  lemma {:induction false} SentFromOrder(order: seq<Record>, pid: u16, r: Record)
    ensures r in Sent(order, pid) <==> r in order && r.senderPid == pid
  {
    if order != [] {
      var n := |order| - 1;
      SentFromOrder(order[..n], pid, r);
      assert order == order[..n] + [order[n]];
    }
  }

  /** Of one input, the output cites exactly the offsets its records occupy. */
  lemma CitesThePlaced(a: Side, b: Side, session: u64, order: seq<Record>, side: Side, key: Key, x: int)
    requires TwoSides(a, b) && Delivers(a, b, session, order) && (side == a || side == b)
    ensures CitedBy(AllSpans(order), side.source, key, x) <==> key == side.key && Covers(side.Placed(), x)
  {
    hide *;
    FitsBoth(a, b);
    CitedOnlyIfPlaced(a, b, session, order, side, key, x);
    if key == side.key && Covers(side.Placed(), x) {
      PlacedIsCited(a, b, session, order, side, x);
    }
  }

  lemma FitsBoth(a: Side, b: Side)
    requires TwoSides(a, b)
    ensures a.Fits() && b.Fits()
  {
  }

  lemma CitedOnlyIfPlaced(a: Side, b: Side, session: u64, order: seq<Record>, side: Side, key: Key, x: int)
    requires TwoSides(a, b) && Delivers(a, b, session, order) && (side == a || side == b)
    ensures CitedBy(AllSpans(order), side.source, key, x) ==> key == side.key && Covers(side.Placed(), x)
  {
    hide Delivers, AllSpans, ReissuedStream, Side.Placed, TwoSides;
    FitsBoth(a, b);
    var stream, ranges := ReissuedStream(side, session), side.Placed();
    if CitedBy(AllSpans(order), side.source, key, x) {
      var sp :| sp in AllSpans(order) && NamesOffset(sp, side.source, key, x);
      SpanOfARecord(order, sp);
      var i :| 0 <= i < |order| && sp in order[i].spans;
      CitingRecord(a, b, session, order, side, i, sp);
      var k :| 0 <= k < |stream| && stream[k] == order[i];
      SpansAreIdentity(side, session);
      assert CitesItself(side, stream[k], ranges[k]);
      assert ranges[k] in ranges && ranges[k].Has(x);
    }
  }

  lemma PlacedIsCited(a: Side, b: Side, session: u64, order: seq<Record>, side: Side, x: int)
    requires TwoSides(a, b) && Delivers(a, b, session, order) && (side == a || side == b)
    requires Covers(side.Placed(), x)
    ensures CitedBy(AllSpans(order), side.source, side.key, x)
  {
    hide AllSpans, ReissuedStream, Side.Placed, Sent;
    var stream, ranges := ReissuedStream(side, session), side.Placed();
    var k := CoveringIndex(ranges, x);
    SpansAreIdentity(side, session);
    assert CitesItself(side, stream[k], ranges[k]);
    var sp := stream[k].spans[0];
    assert Sent(order, side.outPid) == stream;
    SentFromOrder(order, side.outPid, stream[k]);
    var i :| 0 <= i < |order| && order[i] == stream[k];
    SpanOfARecord(order, sp);
    assert sp in AllSpans(order) && NamesOffset(sp, side.source, side.key, x);
  }

  /** A record that cites a side's source is one of that side's. */
  lemma CitingRecord(a: Side, b: Side, session: u64, order: seq<Record>, side: Side, i: nat, sp: Span)
    requires TwoSides(a, b) && Delivers(a, b, session, order) && (side == a || side == b)
    requires i < |order| && sp in order[i].spans && sp.sourceId == side.source
    ensures order[i] in ReissuedStream(side, session)
  {
    var other := if side == a then b else a;
    SentFromOrder(order, a.outPid, order[i]);
    SentFromOrder(order, b.outPid, order[i]);
    CitesItsSource(other, session, order[i], sp);
  }

  lemma CitesItsSource(side: Side, session: u64, r: Record, sp: Span)
    requires side.Fits()
    ensures r in ReissuedStream(side, session) && sp in r.spans ==> sp.sourceId == side.source
  {
    SpansAreIdentity(side, session);
    var out := ReissuedStream(side, session);
    if r in out && sp in r.spans {
      var k :| 0 <= k < |out| && out[k] == r;
      assert CitesItself(side, out[k], side.Placed()[k]);
    }
  }

  /** Neither side's markers name the other's input. */
  lemma MarksOfBoth(side: Side, own: seq<Undecoded>, others: seq<Undecoded>, other: Side, marks: seq<Undecoded>)
    requires marks == own + others || marks == others + own
    requires MarksTheRest(side, own) && AllMissing(other, others) && other.source != side.source
    ensures MarksTheRest(side, marks)
  {
    forall key, x ensures MarkedBy(marks, side.source, key, x) <==> MarkedBy(own, side.source, key, x) {
      MarkedConcat(own, others, side.source, key, x);
      MarkedConcat(others, own, side.source, key, x);
      ForeignMarks(other, others, side.source, key, x);
    }
    hide MarkedBy;
  }

  lemma ForeignMarks(side: Side, marks: seq<Undecoded>, source: u16, key: Key, x: int)
    requires AllMissing(side, marks) && source != side.source
    ensures !MarkedBy(marks, source, key, x)
  {
  }

  /** What is cited and what is marked are exactly the two halves of `[0, extent)`. */
  lemma CleanSide(side: Side, spans: seq<Span>, marks: seq<Undecoded>, declared: seq<InputExtent>)
    requires forall key, x :: CitedBy(spans, side.source, key, x) <==> key == side.key && Covers(side.Placed(), x)
    requires MarksTheRest(side, marks)
    requires forall k :: 0 <= k < |declared| && declared[k].sourceId == side.source ==> declared[k].extent == side.Extent()
    ensures FileClean(side.File(), side.source, spans, marks, declared)
  {
    var file, source := side.File(), side.source;
    RangesForward(side);
    forall x | Covers(side.Placed(), x) ensures 0 <= x < side.Extent() {
      var k := CoveringIndex(side.Placed(), x);
      assert side.Placed()[k] in side.Placed();
    }
    hide CitedBy, MarkedBy, Covers, StreamExtent, Ranges, RecordsOf, FinsInside, TransportOrigin, StreamClean;
    forall key ensures KeyClean(file, source, spans, marks, key) {
      CleanKey(side, spans, marks, key, file.Extent(key), file.Exempt(key));
    }
  }

  lemma CleanKey(side: Side, spans: seq<Span>, marks: seq<Undecoded>, key: Key, extent: int, exempt: seq<int>)
    requires extent == if key == side.key then side.Extent() else 0
    requires forall x :: CitedBy(spans, side.source, key, x) <==> key == side.key && Covers(side.Placed(), x)
    requires MarksTheRest(side, marks)
    requires forall x :: Covers(side.Placed(), x) ==> 0 <= x < side.Extent()
    ensures StreamClean(spans, marks, side.source, key, extent, exempt)
  {
    hide CitedBy, MarkedBy, Covers, Side.Extent, Side.Placed;
    forall x
      ensures 0 <= x < extent && x !in exempt ==> AccountedFor(spans, marks, side.source, key, x)
      ensures !(CitedBy(spans, side.source, key, x) && MarkedBy(marks, side.source, key, x))
      ensures AccountedFor(spans, marks, side.source, key, x) ==> x < extent
    {
    }
  }

  lemma BothClean(a: Side, b: Side, session: u64, order: seq<Record>, marksA: seq<Undecoded>, marksB: seq<Undecoded>)
    requires TwoSides(a, b) && Delivers(a, b, session, order)
    requires AllMissing(a, marksA) && MarksTheRest(a, marksA) && AllMissing(b, marksB) && MarksTheRest(b, marksB)
    ensures var out := Output(order, marksA + marksB, [DeclaredFor(a), DeclaredFor(b)]);
      SideIsClean(a, out) && SideIsClean(b, out)
  {
    hide *;
    Distinct(a, b);
    MarksOfBoth(a, marksA, marksB, b, marksA + marksB);
    MarksOfBoth(b, marksB, marksA, a, marksA + marksB);
    var out := Output(order, marksA + marksB, [DeclaredFor(a), DeclaredFor(b)]);
    OneClean(a, b, session, out, a);
    OneClean(a, b, session, out, b);
  }

  lemma Distinct(a: Side, b: Side)
    requires TwoSides(a, b)
    ensures a.source != b.source
  {
  }

  lemma OneClean(a: Side, b: Side, session: u64, out: Output, side: Side)
    requires TwoSides(a, b) && Delivers(a, b, session, out.records) && (side == a || side == b)
    requires MarksTheRest(side, out.marks) && out.declared == [DeclaredFor(a), DeclaredFor(b)]
    ensures SideIsClean(side, out)
  {
    forall key, x
      ensures CitedBy(AllSpans(out.records), side.source, key, x) <==> key == side.key && Covers(side.Placed(), x)
    {
      CitesThePlaced(a, b, session, out.records, side, key, x);
    }
    hide CitedBy, Covers, MarksTheRest, Delivers, AllSpans, FileClean, StreamExtent, Ranges;
    CleanSide(side, AllSpans(out.records), out.marks, out.declared);
  }

  // ----- No honest capture is refused ----------------------------------------------------------------

  lemma PrefixAlike(a: seq<Record>, b: seq<Record>, n: nat)
    requires SameStream(a, b) && n <= |a|
    ensures n <= |b| && SameStream(a[..n], b[..n])
  {
    forall i | 0 <= i < n ensures SameHints(a[..n][i], b[..n][i]) {
      assert SameHints(a[i], b[i]);
    }
  }

  /** The walks over a prefix that the merge keeps. */
  lemma {:induction false} WalksAlike(isn: Option<u32>, a: seq<Record>, b: seq<Record>)
    requires SameStream(a, b)
    ensures AckAfter(a) == AckAfter(b) && LastSeq(a) == LastSeq(b) && ReachedAfter(isn, a) == ReachedAfter(isn, b)
  {
    hide EndAt, SameStream;
    SameLength(a, b);
    if a != [] {
      var n := |a| - 1;
      PrefixAlike(a, b, n);
      WalksAlike(isn, a[..n], b[..n]);
      AlikeAt(isn, a, b, n);
    }
  }

  /** Two views of streams that differ in ids and spans alone. */
  predicate ViewsAlike(f: View, v: View) {
    f.isn == v.isn && f.next == v.next && SameStream(f.records, v.records)
  }

  /** What has been read and emitted of the two. */
  lemma ReadAlike(f: View, v: View)
    requires ViewsAlike(f, v) && f.Valid() && v.Valid() && f.next >= 0
    ensures f.HasHead() <==> v.HasHead()
    ensures AckAfter(f.Loaded()) == AckAfter(v.Loaded()) && f.Origin() == v.Origin()
    ensures f.Reached() == v.Reached() && LastSeq(f.Emitted()) == LastSeq(v.Emitted())
  {
    var n := Min(f.next + 1, |f.records|);
    SameLength(f.records, v.records);
    PrefixAlike(f.records, v.records, n);
    PrefixAlike(f.records, v.records, f.next);
    WalksAlike(f.isn, f.Loaded(), v.Loaded());
    WalksAlike(f.isn, f.Emitted(), v.Emitted());
    PlacedAlike(f.isn, f.records, v.records, n);
    hide AckAfter, PlacerAfter, LastSeq, ReachedAfter, SameStream;
  }

  lemma HeadIsAlike(f: View, v: View)
    requires ViewsAlike(f, v) && f.Valid() && v.Valid() && f.next >= 0 && f.HasHead() && v.HasHead()
    ensures f.HeadOffset() == v.HeadOffset() && f.HeadEnd() == v.HeadEnd()
    ensures SameHints(f.records[f.next], v.records[v.next])
  {
    AlikeAt(f.isn, f.records, v.records, f.next);
    hide OffsetAt, EndAt, SameStream, SameHints;
  }

  lemma HeadsAlike(f: View, v: View)
    requires ViewsAlike(f, v) && f.Valid() && v.Valid() && f.next >= 0
    ensures f.HasHead() <==> v.HasHead()
    ensures f.HeadAck() == v.HeadAck() && f.Origin() == v.Origin() && f.LowestEnd() == v.LowestEnd()
    ensures AckAfter(f.Loaded()) == AckAfter(v.Loaded())
    ensures f.HasHead() ==> SameHints(f.records[f.next], v.records[v.next])
    ensures f.InOrder() <==> v.InOrder()
  {
    ReadAlike(f, v);
    if f.HasHead() {
      HeadIsAlike(f, v);
    }
    hide AckAfter, PlacerAfter, LastSeq, ReachedAfter, OffsetAt, EndAt, SameStream, SeqLeq;
    hide View.Loaded, View.Reached, View.Origin;
    assert f.HasHead() ==> f.records[..f.next] == f.Emitted() && v.records[..v.next] == v.Emitted();
    assert !f.HasHead() ==> f.HeadOffset() == f.HeadEnd() == v.HeadOffset() == v.HeadEnd() == None;
  }

  lemma ChoiceAlike(f: View, g: View, v: View, w: View)
    requires ViewsAlike(f, v) && ViewsAlike(g, w) && f.next >= 0 && g.next >= 0
    requires f.Valid() && g.Valid() && v.Valid() && w.Valid() && (f.pid < g.pid <==> v.pid < w.pid)
    ensures PairReady(f, g) <==> PairReady(v, w)
    ensures PairReady(g, f) <==> PairReady(w, v)
    ensures Picks(f, g) <==> Picks(v, w)
  {
    HeadsAlike(f, v);
    HeadsAlike(g, w);
    hide AckAfter, View.HeadAck, View.Origin, View.LowestEnd, View.Loaded, View.InOrder;
  }

  /** How a merge ends depends on the hints, the stamps and which participant comes first. */
  lemma {:induction false} MergeAlike(f: View, g: View, v: View, w: View)
    requires ViewsAlike(f, v) && ViewsAlike(g, w) && f.next >= 0 && g.next >= 0
    requires f.Valid() && g.Valid() && v.Valid() && w.Valid() && (f.pid < g.pid <==> v.pid < w.pid)
    ensures MergeFrom(f, g).outcome == MergeFrom(v, w).outcome
    decreases |f.records| - f.next + |g.records| - g.next
  {
    ChoiceAlike(f, g, v, w);
    HeadsAlike(f, v);
    HeadsAlike(g, w);
    hide PairReady, View.InOrder, SameStream, View.HeadAck, View.Origin, View.LowestEnd;
    if PairReady(f, g) || PairReady(g, f) {
      if Picks(f, g) {
        HeadsAlike(f.Advanced(), v.Advanced());
        if f.Advanced().InOrder() {
          MergeAlike(f.Advanced(), g, v.Advanced(), w);
        }
      } else {
        HeadsAlike(g.Advanced(), w.Advanced());
        if g.Advanced().InOrder() {
          MergeAlike(f, g.Advanced(), v, w.Advanced());
        }
      }
    }
  }

  lemma AlikeTransitive(a: seq<Record>, b: seq<Record>, c: seq<Record>)
    requires SameStream(a, b) && SameStream(b, c)
    ensures SameStream(a, c)
  {
    forall i | 0 <= i < |a| ensures SameHints(a[i], c[i]) {
      assert SameHints(a[i], b[i]) && SameHints(b[i], c[i]);
    }
  }

  lemma HonestOutcome(s: Session, run: seq<Event>, ata: seq<nat>, va: View, atb: seq<nat>, vb: View)
    requires Honest(s, run) && Captured(s, run, ata, va, atb, vb) && va.pid < vb.pid
    ensures va.Valid() && vb.Valid() && va.next == vb.next == 0
    ensures MergeOf(va, vb).outcome == Complete
    ensures WellBehaved(va.isn, va.records) && WellBehaved(vb.isn, vb.records)
  {
    var one: Isns := if va.isn.Some? then map[va.pid := va.isn.value] else map[];
    var isns := if vb.isn.Some? then one[vb.pid := vb.isn.value] else one;
    CaptureIsMergeable(s, run, true, ata, va, TrueOrigin(s, run, false, atb, vb.isn));
    CaptureIsMergeable(s, run, false, atb, vb, TrueOrigin(s, run, true, ata, va.isn));
    hide Honest, MergeOf, CausalOrder, WellBehaved, Captures, TrueOrigin;
    HonestCaptureMerges(None, isns, s, run, ata, va, atb, vb);
  }

  /** One input holds what `v` captured, under ids of its own. */
  predicate HoldsCapture(side: Side, v: View) {
    side.stored.isn == v.isn && SameStream(v.records, side.Records())
  }

  /**
   * Two captured directions of an honest run are always merged, and the result is in causal order
   * and clean, whatever the timestamps and whatever was not captured.
   */
  lemma HonestCapturesAreMerged(a: Side, b: Side, session: u64, s: Session, run: seq<Event>,
                                ata: seq<nat>, va: View, atb: seq<nat>, vb: View)
    requires TwoSides(a, b) && Honest(s, run) && Captured(s, run, ata, va, atb, vb) && va.pid < vb.pid
    requires HoldsCapture(a, va) && HoldsCapture(b, vb)
    ensures MergeOf(ViewOf(a, session), ViewOf(b, session)).outcome == Complete
    ensures WellBehaved(a.stored.isn, a.Records()) && WellBehaved(b.stored.isn, b.Records())
  {
    HonestOutcome(s, run, ata, va, atb, vb);
    WellBehavedAlike(a.stored.isn, va.records, a.Records());
    WellBehavedAlike(b.stored.isn, vb.records, b.Records());
    ReissuedAlike(a, session);
    ReissuedAlike(b, session);
    AlikeTransitive(va.records, a.Records(), ReissuedStream(a, session));
    AlikeTransitive(vb.records, b.Records(), ReissuedStream(b, session));
    hide Honest, Captured, ReissuedStream, WellBehaved, SameHints;
    MergeAlike(va, vb, ViewOf(a, session), ViewOf(b, session));
  }
}
