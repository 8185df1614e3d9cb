/**
 * The offset range each record of a stream occupies, and the stream's extent.
 *
 * Which offset space applies is decided by the layer: a decoded stream concatenates
 * its payloads and declared widths, a hinted transport stream is placed by sequence
 * numbers.
 */
module OffsetSpace {
  import opened Prelude
  import opened Blocks
  import opened Serial
  import opened Placement
  import opened Intervals
  import Unwrapping

  datatype Layer = Transport | Decoded | Undefined(code: nat)

  function RecordsOf(blocks: seq<StreamBlock>): seq<Record> {
    if blocks == [] then []
    else
      var before, b := RecordsOf(blocks[..|blocks| - 1]), blocks[|blocks| - 1];
      if b.Unit? then before + [b.record] else before
  }

  // ----- The positional space -----------------------------------------------------

  /** What one block adds to a positional stream. */
  function Advance(b: StreamBlock): nat {
    if b.Unit? then |b.record.payload| else b.brk.Width()
  }

  /** Everything the blocks add: payload lengths and declared widths. */
  function Total(blocks: seq<StreamBlock>): nat {
    if blocks == [] then 0 else Total(blocks[..|blocks| - 1]) + Advance(blocks[|blocks| - 1])
  }

  function PositionalRanges(blocks: seq<StreamBlock>): (ranges: seq<Range>)
    ensures |ranges| == |RecordsOf(blocks)|
  {
    if blocks == [] then []
    else
      var rest, b := blocks[..|blocks| - 1], blocks[|blocks| - 1];
      if b.Unit? then PositionalRanges(rest) + [Range(Total(rest), Total(blocks))] else PositionalRanges(rest)
  }

  // ----- The sequence-anchored space --------------------------------------------------

  /** The sequence number of offset 0, if the stream is placed by sequence numbers. */
  function TransportOrigin(isn: Option<u32>, records: seq<Record>): Option<u32> {
    if isn.Some? then Some(Wrap(isn.value + 1)) else FirstHint(records)
  }

  function FirstHint(records: seq<Record>): (hint: Option<u32>)
    ensures hint.None? <==> forall i :: 0 <= i < |records| ==> records[i].seqStart.None?
  {
    if records == [] then None
    else if records[0].seqStart.Some? then records[0].seqStart
    else FirstHint(records[1..])
  }

  predicate Reaches(isn: Option<u32>, records: seq<Record>, i: nat, reach: int) {
    && i < |records| && OffsetAt(isn, records, i).Some?
    && OffsetAt(isn, records, i).value + |records[i].payload| == reach
  }

  /** The furthest point the first `n` records reach; an unplaceable record reaches nothing. */
  function Reach(isn: Option<u32>, records: seq<Record>, n: nat): (reach: nat)
    requires n <= |records|
  {
    if n == 0 then 0
    else
      var before, off := Reach(isn, records, n - 1), OffsetAt(isn, records, n - 1);
      if off.None? then before else Max(before, off.value + |records[n - 1].payload|)
  }

  /** No record reaches further, and some record reaches it. */
  lemma {:induction false} ReachIsFurthest(isn: Option<u32>, records: seq<Record>, n: nat)
    requires n <= |records|
    ensures forall i, end :: 0 <= i < n && Reaches(isn, records, i, end) ==> end <= Reach(isn, records, n)
    ensures Reach(isn, records, n) == 0
         || exists i :: 0 <= i < n && Reaches(isn, records, i, Reach(isn, records, n))
  {
    hide OffsetAt;
    if n > 0 {
      ReachIsFurthest(isn, records, n - 1);
      var end := Reach(isn, records, n);
      if end != Reach(isn, records, n - 1) {
        assert Reaches(isn, records, n - 1, end);
      }
    }
  }

  function PlacedRange(isn: Option<u32>, records: seq<Record>, i: nat): (r: Range)
    requires i < |records|
  {
    var off := OffsetAt(isn, records, i);
    if off.Some? then Range(off.value, off.value + |records[i].payload|)
    else Range(Reach(isn, records, i), Reach(isn, records, i))
  }

  /**
   * In true positions: a record that nothing before it reached past is at its distance from the
   * origin; any other has an empty range at the furthest end so far.
   */
  lemma RangesInTruth(isn: Option<u32>, records: seq<Record>, at: seq<int>, origin: int, i: nat)
    requires i < |records| && Unwrapping.CarriesPositions(records, at)
    requires Unwrapping.NearbySteps(records, at, origin) && Unwrapping.OriginIs(isn, records, at, origin)
    ensures var r := PlacedRange(isn, records, i);
      if records[i].seqStart.Some? && at[i] >= Unwrapping.Furthest(records, at, origin, i)
      then r == Range(at[i] - origin, at[i] - origin + |records[i].payload|)
      else
        && r.start == r.end
        && (forall j, end :: 0 <= j < i && Reaches(isn, records, j, end) ==> end <= r.start)
        && (r.start == 0 || exists j :: 0 <= j < i && Reaches(isn, records, j, r.start))
  {
    hide *;
    Unwrapping.UnwrappingIsExact(isn, records, at, origin, i);
    ReachIsFurthest(isn, records, i);
    EmptyAtReach(isn, records, i);
  }

  lemma EmptyAtReach(isn: Option<u32>, records: seq<Record>, i: nat)
    requires i < |records|
    ensures var r, off := PlacedRange(isn, records, i), OffsetAt(isn, records, i);
      if off.Some? then r.start == off.value && r.end == off.value + |records[i].payload|
      else r.start == r.end == Reach(isn, records, i)
  {
    hide OffsetAt, Reach;
  }

  function PlacedRanges(isn: Option<u32>, records: seq<Record>, n: nat): (ranges: seq<Range>)
    requires n <= |records|
    ensures |ranges| == n && forall i :: 0 <= i < n ==> ranges[i] == PlacedRange(isn, records, i)
  {
    if n == 0 then [] else PlacedRanges(isn, records, n - 1) + [PlacedRange(isn, records, n - 1)]
  }

  predicate IsPositional(isn: Option<u32>, records: seq<Record>, layer: Layer) {
    layer.Decoded? || TransportOrigin(isn, records).None?
  }

  /** One range per record, in the space the layer defines. */
  function Ranges(isn: Option<u32>, blocks: seq<StreamBlock>, layer: Layer): (ranges: seq<Range>)
    ensures |ranges| == |RecordsOf(blocks)|
  {
    var records := RecordsOf(blocks);
    if IsPositional(isn, records, layer) then PositionalRanges(blocks)
    else PlacedRanges(isn, records, |records|)
  }

  /** A walk started at the stream's origin, where the lazy one may not be anchored yet. */
  function Eager(st: PlacerState, origin: u32): PlacerState {
    if st.Anchored? then st else Anchored(origin, origin, 0)
  }

  lemma EagerStart(isn: Option<u32>, records: seq<Record>)
    requires TransportOrigin(isn, records).Some?
    ensures var origin := TransportOrigin(isn, records).value;
            Anchored(origin, origin, 0) == Eager(PlacerAfter(isn, records[..0]), origin)
  {
  }

  /** Starting at the origin or anchoring at the first hint places every record alike. */
  lemma EagerPlaces(isn: Option<u32>, records: seq<Record>, n: nat)
    requires n < |records| && TransportOrigin(isn, records).Some?
    ensures var origin, st := TransportOrigin(isn, records).value, PlacerAfter(isn, records[..n]);
      && Place(Eager(st, origin), records[n]) == Place(st, records[n])
      && PlaceStep(Eager(st, origin), records[n]) == Eager(PlacerAfter(isn, records[..n + 1]), origin)
  {
    assert records[..n + 1] == records[..n] + [records[n]];
    PlacerSnoc(isn, records[..n], records[n]);
    if PlacerAfter(isn, records[..n]).Unanchored? {
      NoHintYet(isn, records, n);
      FirstHintIs(records, n);
    }
  }

  lemma {:induction false} NoHintYet(isn: Option<u32>, records: seq<Record>, n: nat)
    requires n <= |records| && PlacerAfter(isn, records[..n]).Unanchored?
    ensures isn.None? && forall i :: 0 <= i < n ==> records[i].seqStart.None?
  {
    if n > 0 {
      assert records[..n] == records[..n - 1] + [records[n - 1]];
      PlacerSnoc(isn, records[..n - 1], records[n - 1]);
      NoHintYet(isn, records, n - 1);
    }
  }

  lemma {:induction false} FirstHintIs(records: seq<Record>, n: nat)
    requires n < |records| && forall i :: 0 <= i < n ==> records[i].seqStart.None?
    ensures records[n].seqStart.Some? ==> FirstHint(records) == records[n].seqStart
  {
    if n > 0 {
      FirstHintIs(records[1..], n - 1);
    }
  }

  /** `record_ranges`: refused for a layer that is not defined. */
  method RecordRanges(isn: Option<u32>, blocks: seq<StreamBlock>, layer: Layer)
    returns (ranges: Option<seq<Range>>)
    ensures ranges == if layer.Undefined? then None else Some(Ranges(isn, blocks, layer))
  {
    hide Place, PlaceStep, PlacerAfter, SerialDelta, Anchor, Wrap, RecordsOf, FirstHint, PositionalRanges;
    if layer.Undefined? {
      return None;
    }
    var records := RecordsOf(blocks);
    var origin := if layer.Decoded? then None else TransportOrigin(isn, records);
    if origin.None? {
      var positional := PositionalWalk(blocks);
      return Some(positional);
    }
    var out: seq<Range> := [];
    var end := 0;
    var placer := new Placer(origin.value);
    EagerStart(isn, records);
    WrapOfValue(origin.value);
    for n := 0 to |records|
      invariant out == PlacedRanges(isn, records, n) && end == Reach(isn, records, n)
      invariant fresh(placer)
      invariant placer.State(origin.value) == Eager(PlacerAfter(isn, records[..n]), origin.value)
    {
      EagerPlaces(isn, records, n);
      var start := placer.PlaceRecord(records[n], origin.value);
      if start.None? {
        out := out + [Range(end, end)];
      } else {
        var stop := start.value + |records[n].payload|;
        out := out + [Range(start.value, stop)];
        end := Max(end, stop);
      }
    }
    return Some(out);
  }

  method PositionalWalk(blocks: seq<StreamBlock>) returns (positional: seq<Range>)
    ensures positional == PositionalRanges(blocks)
  {
    positional := [];
    var cursor := 0;
    for n := 0 to |blocks|
      invariant positional == PositionalRanges(blocks[..n]) && cursor == Total(blocks[..n])
    {
      assert blocks[..n + 1][..n] == blocks[..n];
      match blocks[n]
      case Break(brk) =>
        cursor := cursor + brk.Width();
      case Unit(record) =>
        positional := positional + [Range(cursor, cursor + |record.payload|)];
        cursor := cursor + |record.payload|;
    }
    assert blocks[..|blocks|] == blocks;
  }

  // ----- The extent ----------------------------------------------------------------------

  function StreamExtent(isn: Option<u32>, blocks: seq<StreamBlock>, layer: Layer): nat {
    MaxEnd(Ranges(isn, blocks, layer))
  }

  /** A placed stream's extent is the furthest point its placeable records reach. */
  lemma {:induction false} PlacedExtent(isn: Option<u32>, records: seq<Record>, n: nat)
    requires n <= |records|
    ensures MaxEnd(PlacedRanges(isn, records, n)) == Reach(isn, records, n)
  {
    hide OffsetAt, MaxEnd;
    if n > 0 {
      PlacedExtent(isn, records, n - 1);
      MaxEndSnoc(PlacedRanges(isn, records, n - 1), PlacedRange(isn, records, n - 1));
    } else {
      MaxEndSnoc([], Range(0, 0));
    }
  }

  lemma MaxEndSnoc(ranges: seq<Range>, r: Range)
    ensures MaxEnd(ranges + [r]) == Max(MaxEnd(ranges), r.end) && MaxEnd([]) == 0
  {
    Snoc(ranges, r);
  }

  /** A positional stream's ranges ascend; its extent is its last record's end, not a trailing break's. */
  lemma {:induction false} PositionalExtent(blocks: seq<StreamBlock>)
    ensures var ranges := PositionalRanges(blocks);
      && MaxEnd(ranges) == (if ranges == [] then 0 else ranges[|ranges| - 1].end) <= Total(blocks)
      && (forall r :: r in ranges ==> 0 <= r.start <= r.end)
      && (forall k, l :: 0 <= k < l < |ranges| ==> ranges[k].end <= ranges[l].start)
  {
    if blocks != [] {
      var rest := blocks[..|blocks| - 1];
      PositionalExtent(rest);
      if blocks[|blocks| - 1].Unit? {
        Snoc(PositionalRanges(rest), Range(Total(rest), Total(blocks)));
        forall r | r in PositionalRanges(rest) ensures r.end <= Total(rest) {
        }
      }
    }
  }

  // ----- FIN positions ----------------------------------------------------------------------

  /** Record `i` is placed and carries FIN: its data end is the FIN's position. */
  predicate PlacedFin(isn: Option<u32>, records: seq<Record>, i: nat) {
    i < |records| && OffsetAt(isn, records, i).Some? && records[i].Fin()
  }

  function DataEndOf(isn: Option<u32>, records: seq<Record>, i: nat): int
    requires i < |records| && OffsetAt(isn, records, i).Some?
  {
    OffsetAt(isn, records, i).value + |records[i].payload|
  }

  function FinsBelow(isn: Option<u32>, records: seq<Record>, n: nat): set<int>
    requires n <= |records|
  {
    set i | 0 <= i < n && PlacedFin(isn, records, i) :: DataEndOf(isn, records, i)
  }

  lemma NoFinsYet(isn: Option<u32>, records: seq<Record>)
    ensures FinsBelow(isn, records, 0) == {}
  {
  }

  lemma FinsStep(isn: Option<u32>, records: seq<Record>, n: nat)
    requires n < |records|
    ensures FinsBelow(isn, records, n + 1)
         == FinsBelow(isn, records, n) + if PlacedFin(isn, records, n) then {DataEndOf(isn, records, n)} else {}
  {
  }

  /** The positions in `[0, extent)`, sorted. */
  function Below(positions: set<int>, extent: nat): (sorted: seq<int>)
    ensures forall p :: p in sorted <==> p in positions && 0 <= p < extent
    ensures forall k, l :: 0 <= k < l < |sorted| ==> sorted[k] < sorted[l]
  {
    if extent == 0 then []
    else
      var lower := Below(positions, extent - 1);
      assert forall k :: 0 <= k < |lower| ==> lower[k] in lower;
      if extent - 1 in positions then lower + [extent - 1] else lower
  }

  /** The FIN positions strictly inside the stream's extent. */
  function FinsInside(isn: Option<u32>, records: seq<Record>): seq<int> {
    Below(FinsBelow(isn, records, |records|), Reach(isn, records, |records|))
  }

  /** `fin_positions`: empty unless the stream is placed by sequence numbers. */
  method FinPositions(isn: Option<u32>, blocks: seq<StreamBlock>, layer: Layer) returns (fins: seq<int>)
    ensures var records := RecordsOf(blocks);
      fins == if layer.Transport? && TransportOrigin(isn, records).Some? then FinsInside(isn, records) else []
  {
    hide Place, PlaceStep, PlacerAfter, SerialDelta, Anchor, Wrap, RecordsOf, FirstHint, FinsBelow, Below;
    if !layer.Transport? {
      return [];
    }
    var records := RecordsOf(blocks);
    var origin := TransportOrigin(isn, records);
    if origin.None? {
      return [];
    }
    var placer := new Placer(origin.value);
    EagerStart(isn, records);
    WrapOfValue(origin.value);
    NoFinsYet(isn, records);
    var reach := 0;
    var seen: set<int> := {};
    for n := 0 to |records|
      invariant reach == Reach(isn, records, n) && seen == FinsBelow(isn, records, n)
      invariant fresh(placer)
      invariant placer.State(origin.value) == Eager(PlacerAfter(isn, records[..n]), origin.value)
    {
      EagerPlaces(isn, records, n);
      FinsStep(isn, records, n);
      var start := placer.PlaceRecord(records[n], origin.value);
      if start.None? {
        continue;
      }
      var stop := start.value + |records[n].payload|;
      reach := Max(reach, stop);
      if records[n].Fin() {
        seen := seen + {stop};
      }
    }
    fins := Below(seen, reach);
  }
}
