/** A stream as units: its datagrams, and the breaks no consumer may join across. */
module StreamUnits {
  import opened Prelude
  import opened Blocks
  import opened Placement
  import Intervals
  import opened OffsetSpace

  datatype StreamUnit =
    | Datagram(record: Record, offStart: int, offEnd: int)
    | Seam(offStart: int, width: Option<u64>, reason: Option<string>, declared: bool)

  // ----- What each block yields ------------------------------------------------------------

  /** Where the breaks of a stream stand: a hinted stream's offsets are not counted along. */
  function CursorAt(blocks: seq<StreamBlock>, n: nat, hinted: bool): nat
    requires n <= |blocks|
  {
    if hinted then 0 else Total(blocks[..n])
  }

  /** Where block `n`'s record sits: placed by its hint, or counted along. */
  function UnitOffset(isn: Option<u32>, blocks: seq<StreamBlock>, n: nat, hinted: bool): Option<int>
    requires n < |blocks| && blocks[n].Unit?
  {
    if hinted then Place(PlacerAfter(isn, RecordsOf(blocks[..n])), blocks[n].record)
    else Some(Total(blocks[..n]))
  }

  /** Before every record of a unit sequence but the first, a break that no block declares. */
  function ImpliedSeam(blocks: seq<StreamBlock>, n: nat, hinted: bool, seams: bool): seq<StreamUnit>
    requires n <= |blocks|
  {
    if seams && RecordsOf(blocks[..n]) != [] then [Seam(CursorAt(blocks, n, hinted), None, None, false)] else []
  }

  function UnitAt(isn: Option<u32>, blocks: seq<StreamBlock>, n: nat, hinted: bool, seams: bool): seq<StreamUnit>
    requires n < |blocks|
  {
    match blocks[n]
    case Break(brk) => [Seam(CursorAt(blocks, n, hinted), brk.width, brk.reason, true)]
    case Unit(record) =>
      var off := UnitOffset(isn, blocks, n, hinted);
      ImpliedSeam(blocks, n, hinted, seams)
      + if off.Some? then [Datagram(record, off.value, off.value + |record.payload|)] else []
  }

  function UnitsUpTo(isn: Option<u32>, blocks: seq<StreamBlock>, n: nat, hinted: bool, seams: bool): seq<StreamUnit>
    requires n <= |blocks|
  {
    if n == 0 then [] else UnitsUpTo(isn, blocks, n - 1, hinted, seams) + UnitAt(isn, blocks, n - 1, hinted, seams)
  }

  // ----- The datagrams are the records, at their own ranges --------------------------------------

  function DatagramsOf(units: seq<StreamUnit>): (out: seq<StreamUnit>)
    ensures forall k :: 0 <= k < |out| ==> out[k].Datagram?
  {
    if units == [] then []
    else
      var before, u := DatagramsOf(units[..|units| - 1]), units[|units| - 1];
      if u.Datagram? then before + [u] else before
  }

  lemma {:induction false} DatagramsConcat(a: seq<StreamUnit>, b: seq<StreamUnit>)
    ensures DatagramsOf(a + b) == DatagramsOf(a) + DatagramsOf(b)
  {
    if b == [] {
      assert a + b == a;
    } else {
      DatagramsConcat(a, b[..|b| - 1]);
      assert (a + b)[..|a + b| - 1] == a + b[..|b| - 1];
    }
  }

  lemma OneUnit(u: StreamUnit)
    ensures DatagramsOf([u]) == if u.Datagram? then [u] else []
    ensures DatagramsOf([]) == []
  {
    assert [u][..0] == [];
  }

  lemma DatagramsOfOne(isn: Option<u32>, blocks: seq<StreamBlock>, n: nat, hinted: bool, seams: bool)
    requires n < |blocks|
    ensures var out := DatagramsOf(UnitAt(isn, blocks, n, hinted, seams));
      if blocks[n].Break? || UnitOffset(isn, blocks, n, hinted).None? then out == []
      else
        var off := UnitOffset(isn, blocks, n, hinted).value;
        out == [Datagram(blocks[n].record, off, off + |blocks[n].record.payload|)]
  {
    hide DatagramsOf, UnitOffset, ImpliedSeam, CursorAt, Total, RecordsOf;
    match blocks[n]
    case Break(brk) =>
      OneUnit(Seam(CursorAt(blocks, n, hinted), brk.width, brk.reason, true));
    case Unit(record) =>
      NoDatagramImplied(blocks, n, hinted, seams);
      var off := UnitOffset(isn, blocks, n, hinted);
      var own := if off.Some? then [Datagram(record, off.value, off.value + |record.payload|)] else [];
      DatagramsConcat(ImpliedSeam(blocks, n, hinted, seams), own);
      OneUnit(Datagram(record, (if off.Some? then off.value else 0), (if off.Some? then off.value else 0) + |record.payload|));
  }

  lemma NoDatagramImplied(blocks: seq<StreamBlock>, n: nat, hinted: bool, seams: bool)
    requires n <= |blocks|
    ensures DatagramsOf(ImpliedSeam(blocks, n, hinted, seams)) == []
  {
    hide RecordsOf, Total, DatagramsOf;
    OneUnit(Seam(CursorAt(blocks, n, hinted), None, None, false));
  }

  // ----- The breaks are the blocks' own, and those a unit sequence implies ---------------------------

  /** The breaks among the units that a block declares, or those that none does. */
  function SeamsOf(units: seq<StreamUnit>, declared: bool): (out: seq<StreamUnit>)
    ensures forall k :: 0 <= k < |out| ==> out[k].Seam? && out[k].declared == declared
  {
    if units == [] then []
    else
      var before, u := SeamsOf(units[..|units| - 1], declared), units[|units| - 1];
      if u.Seam? && u.declared == declared then before + [u] else before
  }

  lemma {:induction false} SeamsConcat(a: seq<StreamUnit>, b: seq<StreamUnit>, declared: bool)
    ensures SeamsOf(a + b, declared) == SeamsOf(a, declared) + SeamsOf(b, declared)
  {
    if b == [] {
      assert a + b == a;
    } else {
      SeamsConcat(a, b[..|b| - 1], declared);
      assert (a + b)[..|a + b| - 1] == a + b[..|b| - 1];
    }
  }

  lemma OneSeam(u: StreamUnit, declared: bool)
    ensures SeamsOf([u], declared) == if u.Seam? && u.declared == declared then [u] else []
    ensures SeamsOf([], declared) == []
  {
    assert [u][..0] == [];
  }

  /** What one block contributes to either kind. */
  lemma SeamsOfOne(isn: Option<u32>, blocks: seq<StreamBlock>, n: nat, hinted: bool, seams: bool, declared: bool)
    requires n < |blocks|
    ensures SeamsOf(UnitAt(isn, blocks, n, hinted, seams), declared)
         == if declared
            then if blocks[n].Break? then UnitAt(isn, blocks, n, hinted, seams) else []
            else if blocks[n].Unit? then ImpliedSeam(blocks, n, hinted, seams) else []
  {
    hide SeamsOf, UnitOffset, CursorAt, Total, RecordsOf;
    match blocks[n]
    case Break(brk) =>
      OneSeam(Seam(CursorAt(blocks, n, hinted), brk.width, brk.reason, true), declared);
    case Unit(record) =>
      var off := UnitOffset(isn, blocks, n, hinted);
      var own := if off.Some? then [Datagram(record, off.value, off.value + |record.payload|)] else [];
      SeamsConcat(ImpliedSeam(blocks, n, hinted, seams), own, declared);
      OneSeam(Datagram(record, (if off.Some? then off.value else 0), (if off.Some? then off.value else 0) + |record.payload|), declared);
      OneSeam(Seam(CursorAt(blocks, n, hinted), None, None, false), declared);
  }

  /** The breaks the first `n` blocks declare: each with its own width and reason, at the offset reached. */
  function StoredBreaks(blocks: seq<StreamBlock>, n: nat, hinted: bool): seq<StreamUnit>
    requires n <= |blocks|
  {
    if n == 0 then []
    else
      StoredBreaks(blocks, n - 1, hinted)
      + if blocks[n - 1].Unit? then []
        else [Seam(if hinted then 0 else Total(blocks[..n - 1]), blocks[n - 1].brk.width, blocks[n - 1].brk.reason, true)]
  }

  /** Every stored break is reported as it is, in order. */
  lemma {:induction false} BreaksReported(isn: Option<u32>, blocks: seq<StreamBlock>, n: nat, hinted: bool, seams: bool)
    requires n <= |blocks|
    ensures SeamsOf(UnitsUpTo(isn, blocks, n, hinted, seams), true) == StoredBreaks(blocks, n, hinted)
  {
    hide UnitAt, SeamsOf, Total;
    if n > 0 {
      BreaksReported(isn, blocks, n - 1, hinted, seams);
      SeamsConcat(UnitsUpTo(isn, blocks, n - 1, hinted, seams), UnitAt(isn, blocks, n - 1, hinted, seams), true);
      SeamsOfOne(isn, blocks, n - 1, hinted, seams, true);
      if blocks[n - 1].Break? {
        BreakIs(isn, blocks, n - 1, hinted, seams);
      }
    } else {
      NoSeamYet();
    }
  }

  lemma BreakIs(isn: Option<u32>, blocks: seq<StreamBlock>, n: nat, hinted: bool, seams: bool)
    requires n < |blocks| && blocks[n].Break?
    ensures UnitAt(isn, blocks, n, hinted, seams)
         == [Seam(if hinted then 0 else Total(blocks[..n]), blocks[n].brk.width, blocks[n].brk.reason, true)]
  {
    hide Total;
  }

  lemma NoSeamYet()
    ensures SeamsOf([], true) == [] && SeamsOf([], false) == []
  {
  }

  /** Breaks of no width and no reason. */
  predicate Unexplained(units: seq<StreamUnit>) {
    forall k :: 0 <= k < |units| ==> units[k].Seam? && units[k].width.None? && units[k].reason.None?
  }

  /** A unit sequence is reported with a break before every record but its first, any other stream with none. */
  lemma {:induction false} ImpliedBreaks(isn: Option<u32>, blocks: seq<StreamBlock>, n: nat, hinted: bool, seams: bool)
    requires n <= |blocks|
    ensures var implied := SeamsOf(UnitsUpTo(isn, blocks, n, hinted, seams), false);
      Unexplained(implied) && |implied| == if seams then Max(|RecordsOf(blocks[..n])| - 1, 0) else 0
  {
    hide UnitAt, SeamsOf, Total, RecordsOf, ImpliedSeam;
    if n > 0 {
      ImpliedBreaks(isn, blocks, n - 1, hinted, seams);
      SeamsConcat(UnitsUpTo(isn, blocks, n - 1, hinted, seams), UnitAt(isn, blocks, n - 1, hinted, seams), false);
      SeamsOfOne(isn, blocks, n - 1, hinted, seams, false);
      ImpliedIs(blocks, n - 1, hinted, seams);
      NextPacket(blocks, n - 1);
    } else {
      NoPacketYet(blocks);
      NoSeamYet();
    }
  }

  lemma ImpliedIs(blocks: seq<StreamBlock>, n: nat, hinted: bool, seams: bool)
    requires n <= |blocks|
    ensures var implied := ImpliedSeam(blocks, n, hinted, seams);
      Unexplained(implied) && |implied| == if seams && |RecordsOf(blocks[..n])| > 0 then 1 else 0
  {
    hide RecordsOf, CursorAt;
  }

  /** The record as a datagram of this range. */
  predicate IsDatagram(u: StreamUnit, r: Record, range: Intervals.Range) {
    u == Datagram(r, range.start, range.end)
  }

  /** A packet-oriented stream yields one datagram per record, at its positional range. */
  lemma {:induction false} PacketDatagrams(isn: Option<u32>, blocks: seq<StreamBlock>, n: nat, seams: bool)
    requires n <= |blocks|
    ensures var records, ranges := RecordsOf(blocks[..n]), PositionalRanges(blocks[..n]);
      var out := DatagramsOf(UnitsUpTo(isn, blocks, n, false, seams));
      |out| == |records| && forall k :: 0 <= k < |out| ==> IsDatagram(out[k], records[k], ranges[k])
  {
    hide UnitAt, DatagramsOf, Total, RecordsOf, PositionalRanges;
    if n > 0 {
      PacketDatagrams(isn, blocks, n - 1, seams);
      DatagramsConcat(UnitsUpTo(isn, blocks, n - 1, false, seams), UnitAt(isn, blocks, n - 1, false, seams));
      DatagramsOfOne(isn, blocks, n - 1, false, seams);
      NextPacket(blocks, n - 1);
    } else {
      NoPacketYet(blocks);
    }
  }

  lemma NoPacketYet(blocks: seq<StreamBlock>)
    ensures RecordsOf(blocks[..0]) == [] && DatagramsOf([]) == []
  {
    assert blocks[..0] == [];
  }

  lemma NextPacket(blocks: seq<StreamBlock>, n: nat)
    requires n < |blocks|
    ensures RecordsOf(blocks[..n + 1])
         == RecordsOf(blocks[..n]) + if blocks[n].Unit? then [blocks[n].record] else []
    ensures PositionalRanges(blocks[..n + 1])
         == PositionalRanges(blocks[..n])
            + if blocks[n].Unit? then [Intervals.Range(Total(blocks[..n]), Total(blocks[..n]) + |blocks[n].record.payload|)] else []
  {
    assert blocks[..n + 1][..n] == blocks[..n];
  }

  /** The placed records of a stream, as datagrams. */
  function PlacedDatagrams(isn: Option<u32>, records: seq<Record>): seq<StreamUnit> {
    if records == [] then []
    else
      var n := |records| - 1;
      var before, off := PlacedDatagrams(isn, records[..n]), OffsetAt(isn, records, n);
      if off.None? then before
      else before + [Datagram(records[n], off.value, off.value + |records[n].payload|)]
  }

  /** A hinted stream yields one datagram per record that has a place, at that place. */
  lemma {:induction false} HintedDatagrams(isn: Option<u32>, blocks: seq<StreamBlock>, n: nat, seams: bool)
    requires n <= |blocks|
    ensures DatagramsOf(UnitsUpTo(isn, blocks, n, true, seams)) == PlacedDatagrams(isn, RecordsOf(blocks[..n]))
  {
    hide UnitAt, DatagramsOf, Total, RecordsOf, PositionalRanges, PlacedDatagrams, Place, PlacerAfter;
    if n > 0 {
      HintedDatagrams(isn, blocks, n - 1, seams);
      DatagramsConcat(UnitsUpTo(isn, blocks, n - 1, true, seams), UnitAt(isn, blocks, n - 1, true, seams));
      DatagramsOfOne(isn, blocks, n - 1, true, seams);
      NextPacket(blocks, n - 1);
      var records := RecordsOf(blocks[..n - 1]);
      assert records + [] == records;
      assert PlacedDatagrams(isn, records) + [] == PlacedDatagrams(isn, records);
      if blocks[n - 1].Unit? {
        PlacedSnoc(isn, RecordsOf(blocks[..n - 1]), blocks[n - 1].record);
      }
    } else {
      NoPacketYet(blocks);
      NonePlacedYet(isn);
    }
  }

  lemma NonePlacedYet(isn: Option<u32>)
    ensures PlacedDatagrams(isn, []) == []
  {
  }

  lemma PlacedSnoc(isn: Option<u32>, records: seq<Record>, r: Record)
    ensures var off := Place(PlacerAfter(isn, records), r);
      PlacedDatagrams(isn, records + [r])
      == PlacedDatagrams(isn, records) + if off.Some? then [Datagram(r, off.value, off.value + |r.payload|)] else []
  {
    hide Place, PlacerAfter;
    var all, n := records + [r], |records|;
    assert all[..n] == records && all[n] == r && |all| - 1 == n;
    assert OffsetAt(isn, all, n) == Place(PlacerAfter(isn, records), r);
    hide OffsetAt;
  }

  // ----- Nothing is joined across a break --------------------------------------------------------

  /** Nothing but records between blocks `i` and `j`. */
  predicate NoBreakBetween(blocks: seq<StreamBlock>, i: nat, j: nat) {
    i < j <= |blocks| && blocks[i].Unit? && forall k :: i < k < j ==> blocks[k].Unit?
  }

  /** The last unit yielded, if it is a datagram, came with no break after it. */
  predicate LastIs(blocks: seq<StreamBlock>, n: nat, u: StreamUnit) {
    u.Datagram? ==> exists i :: 0 <= i < n && NoBreakBetween(blocks, i, n) && blocks[i].record == u.record
  }

  /** Two datagrams yielded next to each other are of records with no break between them. */
  ghost predicate JoinsAt(blocks: seq<StreamBlock>, units: seq<StreamUnit>, k: nat) {
    k + 1 < |units| && units[k].Datagram? && units[k + 1].Datagram? ==>
      exists i: nat, j: nat :: NoBreakBetween(blocks, i, j) && j < |blocks| && blocks[j].Unit?
        && blocks[i].record == units[k].record && blocks[j].record == units[k + 1].record
  }

  /**
   * A consumer that flushes at every break joins only neighbouring records of a stream that may
   * be joined, and nothing at all of a unit sequence.
   */
  lemma {:induction false} BreaksAreVisible(isn: Option<u32>, blocks: seq<StreamBlock>, n: nat, hinted: bool, seams: bool, k: nat)
    requires n <= |blocks|
    ensures var units := UnitsUpTo(isn, blocks, n, hinted, seams);
      && JoinsAt(blocks, units, k)
      && (seams && k + 1 < |units| ==> !(units[k].Datagram? && units[k + 1].Datagram?))
      && (units != [] ==> LastIs(blocks, n, units[|units| - 1]))
      && (units != [] && units[|units| - 1].Datagram? ==> RecordsOf(blocks[..n]) != [])
  {
    hide RecordsOf, JoinsAt, LastIs, UnitAt;
    if n == 0 {
      NothingJoined(blocks, k);
    } else {
      BreaksAreVisible(isn, blocks, n - 1, hinted, seams, k);
      var before := UnitsUpTo(isn, blocks, n - 1, hinted, seams);
      StepIsVisible(isn, blocks, n - 1, hinted, seams, before, k);
    }
  }

  lemma NothingJoined(blocks: seq<StreamBlock>, k: nat)
    ensures JoinsAt(blocks, [], k)
  {
  }

  lemma StepIsVisible(isn: Option<u32>, blocks: seq<StreamBlock>, n: nat, hinted: bool, seams: bool,
                      before: seq<StreamUnit>, k: nat)
    requires n < |blocks| && JoinsAt(blocks, before, k)
    requires seams && k + 1 < |before| ==> !(before[k].Datagram? && before[k + 1].Datagram?)
    requires before != [] ==> LastIs(blocks, n, before[|before| - 1])
    requires before != [] && before[|before| - 1].Datagram? ==> RecordsOf(blocks[..n]) != []
    ensures var units := before + UnitAt(isn, blocks, n, hinted, seams);
      && JoinsAt(blocks, units, k)
      && (seams && k + 1 < |units| ==> !(units[k].Datagram? && units[k + 1].Datagram?))
      && (units != [] ==> LastIs(blocks, n + 1, units[|units| - 1]))
      && (units != [] && units[|units| - 1].Datagram? ==> RecordsOf(blocks[..n + 1]) != [])
  {
    assert blocks[..n + 1][..n] == blocks[..n];
    var added := UnitAt(isn, blocks, n, hinted, seams);
    var units := before + added;
    hide UnitOffset, Total, CursorAt;
    if added != [] && added[|added| - 1].Datagram? {
      assert NoBreakBetween(blocks, n, n + 1);
    }
    if before != [] && before[|before| - 1].Datagram? && blocks[n].Unit? {
      var i :| 0 <= i < n && NoBreakBetween(blocks, i, n) && blocks[i].record == before[|before| - 1].record;
      assert NoBreakBetween(blocks, i, n + 1);
    }
    if k + 1 < |before| {
      assert units[k] == before[k] && units[k + 1] == before[k + 1];
    }
  }

  // ----- The walk, step by step ------------------------------------------------------------------------

  function LastEndOf(blocks: seq<StreamBlock>): int {
    var ranges := PositionalRanges(blocks);
    if ranges == [] then 0 else ranges[|ranges| - 1].end
  }

  /** What the loop keeps, before block `n`. */
  predicate Walked(blocks: seq<StreamBlock>, n: nat, hinted: bool, cursor: int, lastEnd: int, emitted: bool) {
    && n <= |blocks| && cursor == CursorAt(blocks, n, hinted)
    && (emitted <==> RecordsOf(blocks[..n]) != [])
    && (!hinted ==> lastEnd == LastEndOf(blocks[..n]))
  }

  lemma NothingWalked(isn: Option<u32>, blocks: seq<StreamBlock>, hinted: bool, seams: bool)
    ensures Walked(blocks, 0, hinted, 0, 0, false) && UnitsUpTo(isn, blocks, 0, hinted, seams) == []
    ensures PlacerAfter(isn, RecordsOf(blocks[..0])) == StartState(isn)
  {
    assert blocks[..0] == [];
  }

  lemma NextUnit(isn: Option<u32>, blocks: seq<StreamBlock>, n: nat, hinted: bool, seams: bool,
                 cursor: int, lastEnd: int, emitted: bool)
    requires n < |blocks| && Walked(blocks, n, hinted, cursor, lastEnd, emitted)
    ensures var st := PlacerAfter(isn, RecordsOf(blocks[..n]));
      match blocks[n]
      case Break(brk) =>
        && UnitsUpTo(isn, blocks, n + 1, hinted, seams)
           == UnitsUpTo(isn, blocks, n, hinted, seams) + [Seam(cursor, brk.width, brk.reason, true)]
        && Walked(blocks, n + 1, hinted, if hinted then cursor else cursor + brk.Width(), lastEnd, emitted)
        && PlacerAfter(isn, RecordsOf(blocks[..n + 1])) == st
      case Unit(record) =>
        var off := if hinted then Place(st, record) else Some(cursor);
        && UnitsUpTo(isn, blocks, n + 1, hinted, seams)
           == UnitsUpTo(isn, blocks, n, hinted, seams)
              + (if seams && emitted then [Seam(cursor, None, None, false)] else [])
              + (if off.Some? then [Datagram(record, off.value, off.value + |record.payload|)] else [])
        && Walked(blocks, n + 1, hinted, if hinted then cursor else cursor + |record.payload|,
                  if off.Some? then off.value + |record.payload| else lastEnd, true)
        && PlacerAfter(isn, RecordsOf(blocks[..n + 1])) == PlaceStep(st, record)
  {
    hide *;
    NextYielded(isn, blocks, n, hinted, seams, cursor, lastEnd, emitted);
    NextPacket(blocks, n);
    if blocks[n].Unit? {
      var off := Place(PlacerAfter(isn, RecordsOf(blocks[..n])), blocks[n].record);
      var end := if off.Some? then off.value + |blocks[n].record.payload| else lastEnd;
      NextWalked(blocks, n, hinted, cursor, lastEnd, emitted, end);
      PlacerSnoc(isn, RecordsOf(blocks[..n]), blocks[n].record);
    } else {
      NextWalked(blocks, n, hinted, cursor, lastEnd, emitted, 0);
      assert RecordsOf(blocks[..n]) + [] == RecordsOf(blocks[..n]);
    }
  }

  /** At the end the loop has the last record's end. */
  lemma WalkedEnd(blocks: seq<StreamBlock>, cursor: int, lastEnd: int, emitted: bool)
    requires Walked(blocks, |blocks|, false, cursor, lastEnd, emitted)
    ensures lastEnd == LastEndOf(blocks)
  {
    assert blocks[..|blocks|] == blocks;
  }

  lemma NextYielded(isn: Option<u32>, blocks: seq<StreamBlock>, n: nat, hinted: bool, seams: bool,
                    cursor: int, lastEnd: int, emitted: bool)
    requires n < |blocks| && Walked(blocks, n, hinted, cursor, lastEnd, emitted)
    ensures var before := UnitsUpTo(isn, blocks, n, hinted, seams);
      match blocks[n]
      case Break(brk) =>
        UnitsUpTo(isn, blocks, n + 1, hinted, seams) == before + [Seam(cursor, brk.width, brk.reason, true)]
      case Unit(record) =>
        var off := if hinted then Place(PlacerAfter(isn, RecordsOf(blocks[..n])), record) else Some(cursor);
        UnitsUpTo(isn, blocks, n + 1, hinted, seams)
        == before
           + (if seams && emitted then [Seam(cursor, None, None, false)] else [])
           + (if off.Some? then [Datagram(record, off.value, off.value + |record.payload|)] else [])
  {
    hide Place, PlacerAfter, RecordsOf, Total, LastEndOf;
    var before, added := UnitsUpTo(isn, blocks, n, hinted, seams), UnitAt(isn, blocks, n, hinted, seams);
    assert UnitsUpTo(isn, blocks, n + 1, hinted, seams) == before + added;
    hide UnitsUpTo;
  }

  lemma NextWalked(blocks: seq<StreamBlock>, n: nat, hinted: bool, cursor: int, lastEnd: int, emitted: bool, end: int)
    requires n < |blocks| && Walked(blocks, n, hinted, cursor, lastEnd, emitted)
    ensures match blocks[n]
      case Break(brk) =>
        Walked(blocks, n + 1, hinted, if hinted then cursor else cursor + brk.Width(), lastEnd, emitted)
      case Unit(record) =>
        && (hinted ==> Walked(blocks, n + 1, hinted, cursor, end, true))
        && (!hinted ==> Walked(blocks, n + 1, hinted, cursor + |record.payload|, cursor + |record.payload|, true))
  {
    NextPacket(blocks, n);
    assert blocks[..n + 1][..n] == blocks[..n];
    assert Total(blocks[..n + 1]) == Total(blocks[..n]) + Advance(blocks[n]);
    assert PositionalRanges(blocks[..n]) + [] == PositionalRanges(blocks[..n]);
    hide PositionalRanges, RecordsOf, Total;
  }
}
