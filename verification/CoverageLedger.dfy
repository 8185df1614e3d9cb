/** The single-file coverage check: what one derived file says of each input stream it cites. */
module CoverageLedgers {
  import opened Prelude
  import opened Blocks
  import opened Intervals

  // ----- What a file says, read off its blocks -------------------------------------------

  /** The kind a Source was last declared with. */
  function KindOf(blocks: seq<FileBlock>, sourceId: u16): Option<SourceKind> {
    if blocks == [] then None
    else
      var last := blocks[|blocks| - 1];
      if last.SourceDescriptor? && last.sourceId == sourceId then Some(last.kind)
      else KindOf(blocks[..|blocks| - 1], sourceId)
  }

  ghost predicate SpanCites(spans: seq<Span>, key: StreamKey, x: int) {
    exists k :: 0 <= k < |spans| && SpanKey(spans[k]) == key && spans[k].offStart <= x < spans[k].offEnd
  }

  /** Block `i` cites offset `x`. */
  ghost predicate CitesAt(blocks: seq<FileBlock>, i: nat, key: StreamKey, x: int) {
    i < |blocks| && blocks[i].RecordBlock? && SpanCites(blocks[i].record.spans, key, x)
  }

  /** Block `i` marks offset `x`, and not against a capture. */
  ghost predicate MarksAt(blocks: seq<FileBlock>, i: nat, key: StreamKey, x: int) {
    && i < |blocks| && blocks[i].UndecodedBlock? && MarkKey(blocks[i].undecoded) == key
    && blocks[i].undecoded.offStart <= x < blocks[i].undecoded.offEnd
    && KindOf(blocks[..i], key.sourceId) != Some(Capture)
  }

  /** Block `b`, stored after `blocks`, marks offset `x`. */
  ghost predicate MarksNow(blocks: seq<FileBlock>, b: FileBlock, key: StreamKey, x: int) {
    && b.UndecodedBlock? && MarkKey(b.undecoded) == key && b.undecoded.offStart <= x < b.undecoded.offEnd
    && KindOf(blocks, key.sourceId) != Some(Capture)
  }

  ghost predicate Cited(blocks: seq<FileBlock>, key: StreamKey, x: int) {
    exists i :: 0 <= i < |blocks| && CitesAt(blocks, i, key, x)
  }

  ghost predicate Marked(blocks: seq<FileBlock>, key: StreamKey, x: int) {
    exists i :: 0 <= i < |blocks| && MarksAt(blocks, i, key, x)
  }

  /** The source is declared, and every block that declares it calls it a capture. */
  ghost predicate IsCapture(blocks: seq<FileBlock>, sourceId: u16) {
    && (exists d :: 0 <= d < |blocks| && blocks[d].SourceDescriptor? && blocks[d].sourceId == sourceId)
    && forall d :: 0 <= d < |blocks| && blocks[d].SourceDescriptor? && blocks[d].sourceId == sourceId ==> blocks[d].kind == Capture
  }

  lemma {:induction false} CaptureIsKnown(blocks: seq<FileBlock>, sourceId: u16)
    requires IsCapture(blocks, sourceId)
    ensures KindOf(blocks, sourceId) == Some(Capture)
  {
    var last := blocks[|blocks| - 1];
    if !(last.SourceDescriptor? && last.sourceId == sourceId) {
      CaptureIsKnown(blocks[..|blocks| - 1], sourceId);
    }
  }

  /** Markers of a declared capture account for nothing. */
  lemma CapturesMarkNothing(blocks: seq<FileBlock>, key: StreamKey, x: int)
    requires forall i :: 0 <= i < |blocks| && blocks[i].UndecodedBlock? && MarkKey(blocks[i].undecoded) == key ==>
      IsCapture(blocks[..i], key.sourceId)
    ensures !Marked(blocks, key, x)
  {
    forall i: nat | i < |blocks| ensures !MarksAt(blocks, i, key, x) {
      if blocks[i].UndecodedBlock? && MarkKey(blocks[i].undecoded) == key {
        CaptureIsKnown(blocks[..i], key.sourceId);
      }
    }
    hide MarksAt;
  }

  /** One block more. */
  lemma CitedSnoc(blocks: seq<FileBlock>, b: FileBlock, key: StreamKey, x: int)
    ensures Cited(blocks + [b], key, x) <==> Cited(blocks, key, x) || (b.RecordBlock? && SpanCites(b.record.spans, key, x))
  {
    hide SpanCites;
    var all := blocks + [b];
    assert all[|blocks|] == b;
    assert forall i :: 0 <= i < |blocks| ==> all[i] == blocks[i];
    if i :| 0 <= i < |blocks| && CitesAt(blocks, i, key, x) {
      assert CitesAt(all, i, key, x);
    }
    if b.RecordBlock? && SpanCites(b.record.spans, key, x) {
      assert CitesAt(all, |blocks|, key, x);
    }
    if i :| 0 <= i < |all| && CitesAt(all, i, key, x) {
      assert i < |blocks| ==> CitesAt(blocks, i, key, x);
    }
  }

  lemma MarkedSnoc(blocks: seq<FileBlock>, b: FileBlock, key: StreamKey, x: int)
    ensures Marked(blocks + [b], key, x) <==> Marked(blocks, key, x) || MarksNow(blocks, b, key, x)
  {
    var all := blocks + [b];
    assert all[|blocks|] == b && all[..|blocks|] == blocks;
    assert forall i :: 0 <= i < |blocks| ==> all[i] == blocks[i] && all[..i] == blocks[..i];
    hide KindOf;
    if i :| 0 <= i < |blocks| && MarksAt(blocks, i, key, x) {
      assert MarksAt(all, i, key, x);
    }
    if MarksNow(blocks, b, key, x) {
      assert MarksAt(all, |blocks|, key, x);
    }
    if i :| 0 <= i < |all| && MarksAt(all, i, key, x) {
      assert i < |blocks| ==> MarksAt(blocks, i, key, x);
    }
  }

  lemma KindSnoc(blocks: seq<FileBlock>, b: FileBlock, sourceId: u16)
    ensures KindOf(blocks + [b], sourceId)
         == if b.SourceDescriptor? && b.sourceId == sourceId then Some(b.kind) else KindOf(blocks, sourceId)
  {
    assert (blocks + [b])[..|blocks|] == blocks;
  }

  /** The extent the output session `sid` declares for the stream, if it declares one. */
  function Declared(blocks: seq<FileBlock>, key: StreamKey, sid: u64): Option<int> {
    if blocks == [] then None
    else
      var last := blocks[|blocks| - 1];
      var here := if last.SessionEnd? && last.sessionId == sid then LastExtent(last.inputExtents, key) else None;
      if here.Some? then here else Declared(blocks[..|blocks| - 1], key, sid)
  }

  function LastExtent(extents: seq<InputExtent>, key: StreamKey): Option<int> {
    if extents == [] then None
    else if ExtentKey(extents[|extents| - 1]) == key then Some(extents[|extents| - 1].extent)
    else LastExtent(extents[..|extents| - 1], key)
  }

  // ----- The ledger ------------------------------------------------------------------------

  datatype StreamLedger = StreamLedger(spans: seq<Range>, undecoded: seq<Range>, declared: seq<(u64, int)>)

  const NOTHING := StreamLedger([], [], [])

  datatype Category = ExtentsDisagree | CoverageGap | ExtentExceedsCoverage | ExtentBelowCoverage

  datatype Finding = Finding(offset: int, category: Category)

  /** A dictionary entry set: replaced where the key is, else appended. */
  function Put(entries: seq<(u64, int)>, sid: u64, extent: int): seq<(u64, int)> {
    if entries == [] then [(sid, extent)]
    else if entries[0].0 == sid then [(sid, extent)] + entries[1..]
    else [entries[0]] + Put(entries[1..], sid, extent)
  }

  function Get(entries: seq<(u64, int)>, sid: u64): Option<int> {
    if entries == [] then None
    else if entries[0].0 == sid then Some(entries[0].1)
    else Get(entries[1..], sid)
  }

  lemma {:induction false} GetPut(entries: seq<(u64, int)>, sid: u64, extent: int, other: u64)
    ensures Get(Put(entries, sid, extent), other) == if other == sid then Some(extent) else Get(entries, other)
  {
    if entries != [] && entries[0].0 != sid {
      GetPut(entries[1..], sid, extent, other);
    }
  }

  predicate SidsUnique(entries: seq<(u64, int)>) {
    forall i, j :: 0 <= i < j < |entries| ==> entries[i].0 != entries[j].0
  }

  lemma {:induction false} PutUnique(entries: seq<(u64, int)>, sid: u64, extent: int)
    requires SidsUnique(entries)
    ensures SidsUnique(Put(entries, sid, extent))
    ensures forall e :: e in Put(entries, sid, extent) ==> e.0 == sid || e in entries
  {
    if entries != [] && entries[0].0 != sid {
      var rest := Put(entries[1..], sid, extent);
      PutUnique(entries[1..], sid, extent);
      assert forall j :: 0 <= j < |entries[1..]| ==> entries[1..][j] == entries[j + 1];
      forall j | 0 <= j < |rest| ensures rest[j].0 != entries[0].0 {
        assert rest[j] in rest;
      }
    }
  }

  lemma {:induction false} GetOf(entries: seq<(u64, int)>, i: nat)
    requires SidsUnique(entries) && i < |entries|
    ensures Get(entries, entries[i].0) == Some(entries[i].1)
  {
    if i > 0 {
      GetOf(entries[1..], i - 1);
    }
  }

  lemma {:induction false} GetFrom(entries: seq<(u64, int)>, sid: u64) returns (i: nat)
    requires Get(entries, sid).Some?
    ensures i < |entries| && entries[i] == (sid, Get(entries, sid).value)
  {
    if entries[0].0 == sid {
      i := 0;
    } else {
      var j := GetFrom(entries[1..], sid);
      i := j + 1;
    }
  }

  type Streams = map<StreamKey, StreamLedger>

  function At(streams: Streams, key: StreamKey): StreamLedger {
    if key in streams then streams[key] else NOTHING
  }

  ghost predicate ListsCoalesced(streams: Streams) {
    forall key :: Coalesced(At(streams, key).spans) && Coalesced(At(streams, key).undecoded)
  }

  ghost predicate SpansSay(streams: Streams, key: StreamKey, x: int, said: bool) {
    Covers(At(streams, key).spans, x) <==> said
  }

  ghost predicate MarksSay(streams: Streams, key: StreamKey, x: int, said: bool) {
    Covers(At(streams, key).undecoded, x) <==> said
  }

  /** Merge a cited range into its stream's list. */
  method AddSpan(streams: Streams, key: StreamKey, start: int, end: int) returns (out: Streams)
    requires ListsCoalesced(streams)
    ensures ListsCoalesced(out)
    ensures forall k :: k != key ==> At(out, k) == At(streams, k)
    ensures At(out, key).undecoded == At(streams, key).undecoded && At(out, key).declared == At(streams, key).declared
    ensures forall x :: Covers(At(out, key).spans, x) <==> Covers(At(streams, key).spans, x) || start <= x < end
  {
    var entry := At(streams, key);
    assert Coalesced(entry.spans) && Coalesced(entry.undecoded);
    hide Coalesced, Covers;
    var list := new RangeList();
    list.ranges := entry.spans;
    list.Add(start, end);
    out := streams[key := entry.(spans := list.ranges)];
    forall k ensures Coalesced(At(out, k).spans) && Coalesced(At(out, k).undecoded) {
      assert Coalesced(At(streams, k).spans);
    }
  }

  /** Merge a marked range into its stream's list. */
  method AddMark(streams: Streams, key: StreamKey, start: int, end: int) returns (out: Streams)
    requires ListsCoalesced(streams)
    ensures ListsCoalesced(out)
    ensures forall k :: k != key ==> At(out, k) == At(streams, k)
    ensures At(out, key).spans == At(streams, key).spans && At(out, key).declared == At(streams, key).declared
    ensures forall x :: Covers(At(out, key).undecoded, x) <==> Covers(At(streams, key).undecoded, x) || start <= x < end
  {
    var entry := At(streams, key);
    assert Coalesced(entry.spans) && Coalesced(entry.undecoded);
    hide Coalesced, Covers;
    var list := new RangeList();
    list.ranges := entry.undecoded;
    list.Add(start, end);
    out := streams[key := entry.(undecoded := list.ranges)];
    forall k ensures Coalesced(At(out, k).spans) && Coalesced(At(out, k).undecoded) {
      assert Coalesced(At(streams, k).spans);
    }
  }

  lemma SpanCitesSnoc(spans: seq<Span>, n: nat, key: StreamKey, x: int)
    requires n < |spans|
    ensures SpanCites(spans[..n + 1], key, x)
       <==> SpanCites(spans[..n], key, x) || (SpanKey(spans[n]) == key && spans[n].offStart <= x < spans[n].offEnd)
  {
    var more, before := spans[..n + 1], spans[..n];
    assert forall k :: 0 <= k < n ==> more[k] == before[k];
    assert more[n] == spans[n];
  }

  /** Every span of one record. */
  method AddSpans(streams: Streams, spans: seq<Span>) returns (out: Streams)
    requires ListsCoalesced(streams)
    ensures ListsCoalesced(out)
    ensures forall k :: At(out, k).undecoded == At(streams, k).undecoded && At(out, k).declared == At(streams, k).declared
    ensures forall k, x :: SpansSay(out, k, x, Covers(At(streams, k).spans, x) || SpanCites(spans, k, x))
  {
    hide Covers, SpanCites, ListsCoalesced, At;
    out := streams;
    NoSpanCites();
    for n := 0 to |spans|
      invariant ListsCoalesced(out)
      invariant forall k ::
        At(out, k).undecoded == At(streams, k).undecoded && At(out, k).declared == At(streams, k).declared
      invariant forall k, x :: SpansSay(out, k, x, Covers(At(streams, k).spans, x) || SpanCites(spans[..n], k, x))
    {
      var sp := spans[n];
      ghost var before := out;
      if sp.offStart < sp.offEnd {
        out := AddSpan(out, SpanKey(sp), sp.offStart, sp.offEnd);
      }
      forall k, x ensures SpansSay(out, k, x, Covers(At(streams, k).spans, x) || SpanCites(spans[..n + 1], k, x)) {
        SpanCitesSnoc(spans, n, k, x);
        assert SpansSay(before, k, x, Covers(At(streams, k).spans, x) || SpanCites(spans[..n], k, x));
      }
    }
    assert spans[..|spans|] == spans;
  }

  lemma NoSpanCites()
    ensures forall k, x :: !SpanCites([], k, x)
  {
  }

  /** A later declaration of the same session replaces the earlier one. */
  function Newest(here: Option<int>, applies: bool, before: Option<int>): Option<int> {
    if applies && here.Some? then here else before
  }

  /** Every extent one Session End declares. */
  method AddExtents(streams: Streams, sid: u64, extents: seq<InputExtent>) returns (out: Streams)
    requires ListsCoalesced(streams) && forall k :: SidsUnique(At(streams, k).declared)
    ensures ListsCoalesced(out) && forall k :: SidsUnique(At(out, k).declared)
    ensures forall k :: At(out, k).spans == At(streams, k).spans && At(out, k).undecoded == At(streams, k).undecoded
    ensures forall k, other ::
      Get(At(out, k).declared, other) == Newest(LastExtent(extents, k), other == sid, Get(At(streams, k).declared, other))
  {
    hide Coalesced, Get, Put, SidsUnique;
    out := streams;
    for n := 0 to |extents|
      invariant ListsCoalesced(out) && forall k :: SidsUnique(At(out, k).declared)
      invariant forall k :: At(out, k).spans == At(streams, k).spans && At(out, k).undecoded == At(streams, k).undecoded
      invariant forall k, other :: Get(At(out, k).declared, other)
                                == Newest(LastExtent(extents[..n], k), other == sid, Get(At(streams, k).declared, other))
    {
      var e := extents[n];
      var key := ExtentKey(e);
      var entry := At(out, key);
      assert extents[..n + 1][..n] == extents[..n];
      forall other
        ensures Get(Put(entry.declared, sid, e.extent), other)
             == if other == sid then Some(e.extent) else Get(entry.declared, other)
      {
        GetPut(entry.declared, sid, e.extent, other);
      }
      assert Coalesced(entry.spans) && Coalesced(entry.undecoded);
      PutUnique(entry.declared, sid, e.extent);
      ghost var before := out;
      out := out[key := entry.(declared := Put(entry.declared, sid, e.extent))];
      forall k
        ensures Coalesced(At(out, k).spans) && Coalesced(At(out, k).undecoded)
        ensures SidsUnique(At(out, k).declared)
      {
        assert Coalesced(At(before, k).spans) && SidsUnique(At(before, k).declared);
      }
    }
    assert extents[..|extents|] == extents;
  }

  // ----- What the findings are, for one stream -------------------------------------------------

  function FirstDeclared(declared: seq<(u64, int)>): Option<int> {
    if declared == [] then None else Some(declared[0].1)
  }

  /** The single declared extent, if every output session agrees on one; `clash` if they do not. */
  method OneValue(declared: seq<(u64, int)>) returns (clash: bool, value: Option<int>)
    ensures clash <==> exists i, j :: 0 <= i < j < |declared| && declared[i].1 != declared[j].1
    ensures value == FirstDeclared(declared)
    ensures !clash && value.Some? ==> forall i :: 0 <= i < |declared| ==> declared[i].1 == value.value
  {
    clash := false;
    value := if declared == [] then None else Some(declared[0].1);
    for n := 0 to |declared|
      invariant declared != [] ==> value == Some(declared[0].1)
      invariant clash <==> exists i :: 0 <= i < n && declared[i].1 != declared[0].1
    {
      if declared[n].1 != value.value {
        clash := true;
      }
    }
    if clash {
      var i :| 0 <= i < |declared| && declared[i].1 != declared[0].1;
      assert 0 < i;
    }
  }

  /** Everything below the last accounted offset is accounted for. */
  ghost predicate NoInteriorGap(covered: seq<Range>) {
    forall x, y :: 0 <= x < y && Covers(covered, y) ==> Covers(covered, x)
  }

  /** The declared length is the reach, or one more. */
  ghost predicate EndsNear(covered: seq<Range>, extent: int) {
    && extent >= 0 && (forall x :: Covers(covered, x) ==> x < extent)
    && (extent <= 1 || Covers(covered, extent - 1) || Covers(covered, extent - 2))
  }

  lemma GapsIff(covered: seq<Range>, gaps: seq<Range>)
    requires Coalesced(covered) && forall x :: Covers(covered, x) ==> 0 <= x
    requires forall x :: Covers(gaps, x) <==> 0 <= x < MaxEnd(covered) && !Covers(covered, x)
    requires forall r :: r in gaps ==> r.start < r.end
    ensures gaps == [] <==> NoInteriorGap(covered)
  {
    ReachOf(covered);
    if gaps != [] {
      assert gaps[0] in gaps && gaps[0].Has(gaps[0].start);
      assert Covers(gaps, gaps[0].start);
    }
    hide Coalesced, MaxEnd;
    if gaps == [] && covered != [] {
      assert forall x :: !Covers(gaps, x);
    }
  }

  lemma NearIff(covered: seq<Range>, extent: int)
    requires Coalesced(covered) && forall x :: Covers(covered, x) ==> 0 <= x
    ensures MaxEnd(covered) <= extent <= MaxEnd(covered) + 1 <==> EndsNear(covered, extent)
  {
    ReachOf(covered);
    if covered == [] {
      NothingIn(covered);
    }
    hide Coalesced, Covers;
  }

  lemma NothingIn(covered: seq<Range>)
    requires covered == []
    ensures forall x :: !Covers(covered, x)
  {
  }

  predicate AllDeclare(declared: seq<(u64, int)>, extent: int) {
    declared != [] && forall i :: 0 <= i < |declared| ==> declared[i].1 == extent
  }

  predicate Disagree(declared: seq<(u64, int)>) {
    exists i, j :: 0 <= i < j < |declared| && declared[i].1 != declared[j].1
  }

  function GapFindings(gaps: seq<Range>): (findings: seq<Finding>)
    ensures |findings| == |gaps| && forall f :: f in findings ==> f.category == CoverageGap
  {
    seq(|gaps|, k requires 0 <= k < |gaps| => Finding(gaps[k].start, CoverageGap))
  }

  /** `reach` is one past the last covered offset, or 0. */
  ghost predicate IsReach(covered: seq<Range>, reach: int) {
    && reach >= 0 && (forall x :: Covers(covered, x) ==> x < reach)
    && (reach == 0 || Covers(covered, reach - 1))
  }

  /** Nobody accounts for `x`, but for something after it. */
  ghost predicate InGap(covered: seq<Range>, x: int) {
    0 <= x && !Covers(covered, x) && exists y :: x < y && Covers(covered, y)
  }

  ghost predicate GapStart(covered: seq<Range>, x: int) {
    InGap(covered, x) && (x == 0 || Covers(covered, x - 1))
  }

  /** Gaps are reported where they start, and only inside them, if the file cites the stream. */
  ghost predicate ReportsGaps(findings: seq<Finding>, cites: bool, covered: seq<Range>) {
    && (forall f :: f in findings && f.category == CoverageGap ==> cites && InGap(covered, f.offset))
    && (forall x :: cites && GapStart(covered, x) ==> Finding(x, CoverageGap) in findings)
  }

  /** A declared length is too long from one past the reach on, and too short below it. */
  ghost predicate ReportsLength(findings: seq<Finding>, value: Option<int>, covered: seq<Range>) {
    && (forall x :: Finding(x, ExtentExceedsCoverage) in findings <==>
          IsReach(covered, x) && value.Some? && x + 1 < value.value)
    && (forall x :: Finding(x, ExtentBelowCoverage) in findings <==>
          value == Some(x) && exists reach :: IsReach(covered, reach) && x < reach)
    && (forall f :: f in findings ==> f.category != ExtentsDisagree)
  }

  lemma ReachIsMaxEnd(covered: seq<Range>)
    requires Coalesced(covered) && forall x :: Covers(covered, x) ==> 0 <= x
    ensures forall reach :: IsReach(covered, reach) <==> reach == MaxEnd(covered)
  {
    ReachOf(covered);
    if covered == [] {
      NothingIn(covered);
    }
    hide Coalesced, Covers;
    forall reach ensures IsReach(covered, reach) <==> reach == MaxEnd(covered) {
    }
  }

  lemma CoversFromStart(ranges: seq<Range>, k: nat, x: int)
    requires k < |ranges| && ranges[k].Has(x)
    ensures ranges[k].start == x || Covers(ranges, x - 1)
  {
    assert ranges[k] in ranges;
    if ranges[k].start < x {
      assert ranges[k].Has(x - 1);
    }
  }

  lemma GapsReported(covered: seq<Range>, gaps: seq<Range>)
    requires Coalesced(covered) && forall x :: Covers(covered, x) ==> 0 <= x
    requires forall x :: Covers(gaps, x) <==> 0 <= x < MaxEnd(covered) && !Covers(covered, x)
    requires forall r :: r in gaps ==> r.start < r.end
    ensures ReportsGaps(GapFindings(gaps), true, covered)
  {
    ReachOf(covered);
    var findings := GapFindings(gaps);
    forall f | f in findings ensures InGap(covered, f.offset) {
      var k :| 0 <= k < |findings| && findings[k] == f;
      assert gaps[k] in gaps && gaps[k].Has(gaps[k].start);
      assert Covers(gaps, f.offset);
    }
    forall x | GapStart(covered, x) ensures Finding(x, CoverageGap) in findings {
      assert Covers(gaps, x);
      var k := CoveringIndex(gaps, x);
      CoversFromStart(gaps, k, x);
      assert findings[k] == Finding(x, CoverageGap);
    }
  }

  /** The gap findings, and after them what the declared length adds. */
  lemma LengthReported(gapFindings: seq<Finding>, findings: seq<Finding>, cites: bool, covered: seq<Range>, value: Option<int>)
    requires Coalesced(covered) && forall x :: Covers(covered, x) ==> 0 <= x
    requires ReportsGaps(gapFindings, cites, covered)
    requires forall f :: f in gapFindings ==> f.category == CoverageGap
    requires var reach := MaxEnd(covered);
      findings == gapFindings +
        if value.Some? && value.value > reach + 1 then [Finding(reach, ExtentExceedsCoverage)]
        else if value.Some? && value.value < reach then [Finding(value.value, ExtentBelowCoverage)]
        else []
    ensures ReportsGaps(findings, cites, covered) && ReportsLength(findings, value, covered)
  {
    ReachIsMaxEnd(covered);
    hide Coalesced, Covers, IsReach, InGap, GapStart, MaxEnd;
    var reach := MaxEnd(covered);
    assert IsReach(covered, reach);
    forall x
      ensures Finding(x, ExtentExceedsCoverage) in findings
         <==> x == reach && value.Some? && x + 1 < value.value
      ensures Finding(x, ExtentBelowCoverage) in findings <==> value == Some(x) && x < reach
    {
    }
  }

  /** `_stream_findings`: what the file itself shows to be wrong about one input stream. */
  method StreamFindings(entry: StreamLedger) returns (findings: seq<Finding>)
    requires Coalesced(entry.spans) && Coalesced(entry.undecoded)
    requires forall x :: Covers(entry.spans + entry.undecoded, x) ==> 0 <= x
    ensures Disagree(entry.declared) ==> findings == [Finding(0, ExtentsDisagree)]
    ensures entry.declared == [] ==>
      (findings == [] <==> (entry.spans != [] ==> NoInteriorGap(entry.spans + entry.undecoded)))
    ensures forall extent :: AllDeclare(entry.declared, extent) ==>
      (findings == [] <==>
        && (entry.spans != [] ==> NoInteriorGap(entry.spans + entry.undecoded))
        && EndsNear(entry.spans + entry.undecoded, extent))
    ensures !Disagree(entry.declared) ==>
      && ReportsGaps(findings, entry.spans != [], entry.spans + entry.undecoded)
      && ReportsLength(findings, FirstDeclared(entry.declared), entry.spans + entry.undecoded)
  {
    ghost var said := entry.spans + entry.undecoded;
    hide Coalesced, NoInteriorGap, EndsNear, Covers, ReportsGaps, ReportsLength;
    var covered := Coalesce(entry.spans + entry.undecoded);
    var reach := MaxEnd(covered);
    SameCoverage(covered, said);
    var clash, value := OneValue(entry.declared);
    if clash {
      return [Finding(0, ExtentsDisagree)];
    }
    findings := [];
    CoalescedIsSorted(covered);
    NoGapReported(covered);
    if entry.spans != [] {
      var gaps := Complement(covered, reach);
      GapsIff(covered, gaps);
      GapsReported(covered, gaps);
      findings := GapFindings(gaps);
    }
    ghost var gapFindings := findings;
    if value.Some? {
      NearIff(covered, value.value);
      if value.value > reach + 1 {
        findings := findings + [Finding(reach, ExtentExceedsCoverage)];
      } else if value.value < reach {
        findings := findings + [Finding(value.value, ExtentBelowCoverage)];
      }
    }
    LengthReported(gapFindings, findings, entry.spans != [], covered, value);
    SameReports(covered, said, findings, entry.spans != [], value);
    forall extent | AllDeclare(entry.declared, extent) ensures value == Some(extent) {
      assert entry.declared[0].1 == extent;
    }
  }

  /** Both predicates look only at what is covered. */
  lemma SameCoverage(a: seq<Range>, b: seq<Range>)
    requires forall x :: Covers(a, x) <==> Covers(b, x)
    ensures NoInteriorGap(a) <==> NoInteriorGap(b)
    ensures forall extent :: EndsNear(a, extent) <==> EndsNear(b, extent)
  {
    hide Covers;
  }

  lemma NoGapReported(covered: seq<Range>)
    ensures ReportsGaps([], false, covered)
  {
  }

  lemma SameReports(a: seq<Range>, b: seq<Range>, findings: seq<Finding>, cites: bool, value: Option<int>)
    requires forall x :: Covers(a, x) <==> Covers(b, x)
    ensures ReportsGaps(findings, cites, a) ==> ReportsGaps(findings, cites, b)
    ensures ReportsLength(findings, value, a) ==> ReportsLength(findings, value, b)
  {
    hide Covers;
    forall x
      ensures IsReach(a, x) <==> IsReach(b, x)
      ensures InGap(a, x) <==> InGap(b, x)
      ensures GapStart(a, x) <==> GapStart(b, x)
    {
    }
    hide IsReach, InGap, GapStart;
  }

  // ----- The whole file ---------------------------------------------------------------------------

  ghost predicate Accounted(blocks: seq<FileBlock>, key: StreamKey, x: int) {
    Cited(blocks, key, x) || Marked(blocks, key, x)
  }

  /** Every output session that declares the stream's length declares this one, and one does. */
  ghost predicate DeclaresOnly(blocks: seq<FileBlock>, key: StreamKey, extent: int) {
    && (exists sid :: Declared(blocks, key, sid) == Some(extent))
    && (forall sid :: Declared(blocks, key, sid).None? || Declared(blocks, key, sid) == Some(extent))
  }

  /** What the file declares of the stream's length, if it does not contradict itself. */
  ghost predicate Settles(blocks: seq<FileBlock>, key: StreamKey, value: Option<int>) {
    if value.Some? then DeclaresOnly(blocks, key, value.value)
    else forall sid :: Declared(blocks, key, sid).None?
  }

  ghost predicate CitesStream(blocks: seq<FileBlock>, key: StreamKey) {
    exists x :: Cited(blocks, key, x)
  }

  /** The ranges hold exactly the offsets the file accounts for. */
  ghost predicate Denotes(said: seq<Range>, blocks: seq<FileBlock>, key: StreamKey) {
    forall x :: Covers(said, x) <==> Accounted(blocks, key, x)
  }

  ghost predicate Contradicts(blocks: seq<FileBlock>, key: StreamKey) {
    exists one, other :: Declared(blocks, key, one).Some? && Declared(blocks, key, other).Some?
      && Declared(blocks, key, one) != Declared(blocks, key, other)
  }

  /** Complete up to `extent`, the last position aside, and nothing beyond. */
  ghost predicate CompleteButTail(blocks: seq<FileBlock>, key: StreamKey, extent: int) {
    && extent >= 0
    && (forall x :: Accounted(blocks, key, x) ==> x < extent)
    && (forall x :: 0 <= x < extent - 1 ==> Accounted(blocks, key, x))
  }

  /**
   * What the file alone can hold one input stream to: its declared lengths agree; if it is cited,
   * nothing below the last accounted offset is missing; a declared length is the reach, or one more.
   */
  ghost predicate StreamHolds(blocks: seq<FileBlock>, key: StreamKey) {
    && !Contradicts(blocks, key)
    && (CitesStream(blocks, key) ==>
          forall x, y :: 0 <= x < y && Accounted(blocks, key, y) ==> Accounted(blocks, key, x))
    && (forall extent :: DeclaresOnly(blocks, key, extent) ==> ReachesTo(blocks, key, extent))
  }

  ghost predicate ReachesTo(blocks: seq<FileBlock>, key: StreamKey, extent: int) {
    && extent >= 0 && (forall x :: Accounted(blocks, key, x) ==> x < extent)
    && (extent <= 1 || Accounted(blocks, key, extent - 1) || Accounted(blocks, key, extent - 2))
  }

  /** For a stream the file cites with one declared length: silent iff all but the tail is there. */
  ghost predicate JudgesButTail(findings: seq<Finding>, blocks: seq<FileBlock>, key: StreamKey) {
    forall extent :: DeclaresOnly(blocks, key, extent) && CitesStream(blocks, key) ==>
      (findings == [] <==> CompleteButTail(blocks, key, extent))
  }

  /** Where its declared lengths agree, each category is reported of what the file accounts for. */
  ghost predicate ReportsAsItApplies(findings: seq<Finding>, blocks: seq<FileBlock>, key: StreamKey) {
    forall said, value :: Denotes(said, blocks, key) && Settles(blocks, key, value) ==>
      ReportsGaps(findings, CitesStream(blocks, key), said) && ReportsLength(findings, value, said)
  }

  /** The ledger's lists of one stream denote exactly what the file has said of it. */
  ghost predicate Reflects(streams: Streams, seen: seq<FileBlock>) {
    && ListsCoalesced(streams) && (forall key :: SidsUnique(At(streams, key).declared))
    && (forall key, x :: SpansSay(streams, key, x, Cited(seen, key, x)))
    && (forall key, x :: MarksSay(streams, key, x, Marked(seen, key, x)))
    && (forall key, sid :: Get(At(streams, key).declared, sid) == Declared(seen, key, sid))
  }

  ghost predicate KnowsSources(sources: map<u16, SourceKind>, seen: seq<FileBlock>) {
    forall id :: KindOf(seen, id) == if id in sources then Some(sources[id]) else None
  }

  /** Offsets in a file are unsigned. */
  predicate Unsigned(b: FileBlock) {
    b.UndecodedBlock? ==> b.undecoded.offStart >= 0
  }

  /** What block `b` leaves declared, if `before` was. */
  function DeclaredBy(b: FileBlock, key: StreamKey, sid: u64, before: Option<int>): Option<int> {
    if b.SessionEnd? then Newest(LastExtent(b.inputExtents, key), sid == b.sessionId, before) else before
  }

  lemma DeclaredSnoc(blocks: seq<FileBlock>, b: FileBlock, key: StreamKey, sid: u64)
    ensures Declared(blocks + [b], key, sid)
         == DeclaredBy(b, key, sid, Declared(blocks, key, sid))
  {
    assert (blocks + [b])[..|blocks|] == blocks;
  }

  /** After one more block, if each part was updated as that block says. */
  lemma ReflectsMore(before: Streams, after: Streams, seen: seq<FileBlock>, b: FileBlock)
    requires Reflects(before, seen) && ListsCoalesced(after) && forall key :: SidsUnique(At(after, key).declared)
    requires forall key, x :: SpansSay(after, key, x,
               Covers(At(before, key).spans, x) || (b.RecordBlock? && SpanCites(b.record.spans, key, x)))
    requires forall key, x :: MarksSay(after, key, x, Covers(At(before, key).undecoded, x) || MarksNow(seen, b, key, x))
    requires forall key, sid :: Get(At(after, key).declared, sid) == DeclaredBy(b, key, sid, Get(At(before, key).declared, sid))
    ensures Reflects(after, seen + [b])
  {
    hide Covers, Cited, Marked, SpanCites, Get, DeclaredBy, ListsCoalesced, SidsUnique, KindOf, Declared, At;
    forall key, x ensures SpansSay(after, key, x, Cited(seen + [b], key, x)) {
      CitedSnoc(seen, b, key, x);
      assert SpansSay(before, key, x, Cited(seen, key, x));
    }
    forall key, x ensures MarksSay(after, key, x, Marked(seen + [b], key, x)) {
      MarkedSnoc(seen, b, key, x);
      assert MarksSay(before, key, x, Marked(seen, key, x));
    }
    forall key, sid ensures Get(At(after, key).declared, sid) == Declared(seen + [b], key, sid) {
      DeclaredSnoc(seen, b, key, sid);
    }
  }

  lemma SourcesMore(sources: map<u16, SourceKind>, seen: seq<FileBlock>, b: FileBlock)
    requires KnowsSources(sources, seen)
    ensures KnowsSources(if b.SourceDescriptor? then sources[b.sourceId := b.kind] else sources, seen + [b])
  {
    forall id ensures KindOf(seen + [b], id)
                   == if b.SourceDescriptor? && b.sourceId == id then Some(b.kind) else KindOf(seen, id) {
      KindSnoc(seen, b, id);
    }
  }

  class CoverageLedger {
    var streams: Streams
    var sources: map<u16, SourceKind>
    /** Everything observed so far. */
    ghost var seen: seq<FileBlock>

    ghost predicate Valid()
      reads this
    {
      && Reflects(streams, seen) && KnowsSources(sources, seen)
      && (forall i :: 0 <= i < |seen| ==> Unsigned(seen[i]))
    }

    constructor ()
      ensures Valid() && seen == []
    {
      streams, sources, seen := map[], map[], [];
    }

    /** Take in what one block cites, marks or declares. */
    method Observe(b: FileBlock)
      requires Valid() && Unsigned(b)
      modifies this
      ensures Valid() && seen == old(seen) + [b]
    {
      SourcesMore(sources, seen, b);
      hide Covers, Cited, Marked, SpanCites, Get, Newest, LastExtent, Coalesced, SidsUnique, Declared, KindOf, At;
      ghost var before := streams;
      match b {
        case SourceDescriptor(id, kind) =>
          sources := sources[id := kind];
        case RecordBlock(record) =>
          streams := AddSpans(streams, record.spans);
        case UndecodedBlock(u) =>
          var capture := u.sourceId in sources && sources[u.sourceId] == Capture;
          assert capture <==> KindOf(seen, u.sourceId) == Some(Capture);
          if u.offStart < u.offEnd && !capture {
            streams := AddMark(streams, MarkKey(u), u.offStart, u.offEnd);
          }
          forall key, x
            ensures MarksSay(streams, key, x, Covers(At(before, key).undecoded, x) || MarksNow(seen, b, key, x))
          {
          }
        case SessionEnd(sid, extents) =>
          streams := AddExtents(streams, sid, extents);
        case _ =>
      }
      ReflectsMore(before, streams, seen, b);
      seen := seen + [b];
    }

    /**
     * What the file shows to be wrong about one input stream. For a stream it cites with one
     * declared length, nothing exactly when all but the last position is accounted for.
     */
    method FindingsFor(key: StreamKey) returns (findings: seq<Finding>)
      requires Valid()
      ensures Contradicts(seen, key) ==> findings == [Finding(0, ExtentsDisagree)]
      ensures JudgesButTail(findings, seen, key)
      ensures findings == [] <==> StreamHolds(seen, key)
      ensures ReportsAsItApplies(findings, seen, key)
    {
      var entry := At(streams, key);
      EntrySays(streams, seen, key);
      hide *;
      findings := StreamFindings(entry);
      FindingsSay(streams, seen, key, findings);
      EmptyIffHolds(streams, seen, key, findings);
      EachReportSays(streams, seen, key, findings);
    }

    /** The whole file's findings, stream by stream; `keys` are the streams gathered, in order. */
    method Findings(keys: seq<StreamKey>) returns (findings: seq<Finding>)
      requires Valid() && forall key :: key in keys <==> key in streams
      ensures findings == [] <==> forall key :: StreamHolds(seen, key)
    {
      hide StreamHolds, Reflects, KnowsSources, ReportsGaps, ReportsLength, DeclaresOnly, CompleteButTail, Cited, Contradicts;
      findings := [];
      for n := 0 to |keys|
        invariant findings == [] <==> forall i :: 0 <= i < n ==> StreamHolds(seen, keys[i])
      {
        var here := FindingsFor(keys[n]);
        findings := findings + here;
      }
      forall key | key !in keys ensures StreamHolds(seen, key) {
        UnheardHolds(streams, seen, key);
      }
      if findings == [] {
        forall key ensures StreamHolds(seen, key) {
          if key in keys {
            var i :| 0 <= i < |keys| && keys[i] == key;
          }
        }
      }
    }
  }

  /** A stream no block has mentioned is held to nothing. */
  lemma UnheardHolds(streams: Streams, seen: seq<FileBlock>, key: StreamKey)
    requires Reflects(streams, seen) && (forall i :: 0 <= i < |seen| ==> Unsigned(seen[i])) && key !in streams
    ensures StreamHolds(seen, key)
  {
    EntrySays(streams, seen, key);
    hide Reflects, Covers, Cited, Accounted, Declared, Get, Coalesced;
    NothingDeclared(At(streams, key).declared, seen, key);
  }

  /** The entry as `StreamFindings` takes it. */
  lemma EntrySays(streams: Streams, seen: seq<FileBlock>, key: StreamKey)
    requires Reflects(streams, seen) && forall i :: 0 <= i < |seen| ==> Unsigned(seen[i])
    ensures var entry := At(streams, key);
      && Coalesced(entry.spans) && Coalesced(entry.undecoded) && SidsUnique(entry.declared)
      && (forall x :: Covers(entry.spans + entry.undecoded, x) <==> Accounted(seen, key, x))
      && (forall x :: Covers(entry.spans + entry.undecoded, x) ==> 0 <= x)
      && (entry.spans != [] <==> exists x :: Cited(seen, key, x))
      && (forall sid :: Get(entry.declared, sid) == Declared(seen, key, sid))
  {
    var entry := At(streams, key);
    hide Get, Declared, SidsUnique;
    forall x
      ensures Covers(entry.spans, x) <==> Cited(seen, key, x)
      ensures Covers(entry.spans + entry.undecoded, x) <==> Accounted(seen, key, x)
      ensures Accounted(seen, key, x) ==> 0 <= x
    {
      CoversConcat(entry.spans, entry.undecoded, x);
      assert SpansSay(streams, key, x, Cited(seen, key, x));
      assert MarksSay(streams, key, x, Marked(seen, key, x));
      AccountedIsUnsigned(seen, key, x);
    }
    SomethingCovered(entry.spans);
    hide Covers, Cited, Accounted;
  }

  /** Nothing is reported exactly when the file holds up. */
  lemma EmptyIffHolds(streams: Streams, seen: seq<FileBlock>, key: StreamKey, findings: seq<Finding>)
    requires Reflects(streams, seen) && forall i :: 0 <= i < |seen| ==> Unsigned(seen[i])
    requires var entry := At(streams, key);
      && (Disagree(entry.declared) ==> findings == [Finding(0, ExtentsDisagree)])
      && (entry.declared == [] ==>
            (findings == [] <==> (entry.spans != [] ==> NoInteriorGap(entry.spans + entry.undecoded))))
      && (forall extent :: AllDeclare(entry.declared, extent) ==>
            (findings == [] <==>
              && (entry.spans != [] ==> NoInteriorGap(entry.spans + entry.undecoded))
              && EndsNear(entry.spans + entry.undecoded, extent)))
    ensures findings == [] <==> StreamHolds(seen, key)
  {
    var entry := At(streams, key);
    var said := entry.spans + entry.undecoded;
    EntrySays(streams, seen, key);
    InteriorIs(said, seen, key);
    hide Reflects, Covers, Cited, Accounted, Declared, Get, Coalesced, At, NoInteriorGap, ReachesTo, EndsNear;
    if Disagree(entry.declared) {
      hide Disagree;
      ContradictsIf(entry.declared, seen, key);
    } else if entry.declared == [] {
      NothingDeclared(entry.declared, seen, key);
    } else {
      AgreeOnFirst(entry.declared, seen, key);
      NearIs(said, seen, key, entry.declared[0].1);
      hide AllDeclare, Disagree, DeclaresOnly, Contradicts;
    }
  }

  lemma InteriorIs(said: seq<Range>, seen: seq<FileBlock>, key: StreamKey)
    requires forall x :: Covers(said, x) <==> Accounted(seen, key, x)
    ensures NoInteriorGap(said) <==> forall x, y :: 0 <= x < y && Accounted(seen, key, y) ==> Accounted(seen, key, x)
  {
    hide Covers, Accounted;
  }

  lemma NearIs(said: seq<Range>, seen: seq<FileBlock>, key: StreamKey, extent: int)
    requires forall x :: Covers(said, x) <==> Accounted(seen, key, x)
    ensures EndsNear(said, extent) <==> ReachesTo(seen, key, extent)
  {
    hide Covers, Accounted;
  }

  lemma ContradictsIf(declared: seq<(u64, int)>, seen: seq<FileBlock>, key: StreamKey)
    requires SidsUnique(declared) && Disagree(declared)
    requires forall sid :: Get(declared, sid) == Declared(seen, key, sid)
    ensures Contradicts(seen, key)
  {
    hide Declared, Get;
    var i, j :| 0 <= i < j < |declared| && declared[i].1 != declared[j].1;
    GetOf(declared, i);
    GetOf(declared, j);
    assert Declared(seen, key, declared[i].0) == Some(declared[i].1);
    assert Declared(seen, key, declared[j].0) == Some(declared[j].1);
  }

  lemma NothingDeclared(declared: seq<(u64, int)>, seen: seq<FileBlock>, key: StreamKey)
    requires declared == [] && forall sid :: Get(declared, sid) == Declared(seen, key, sid)
    ensures !Contradicts(seen, key) && forall extent :: !DeclaresOnly(seen, key, extent)
  {
    hide Declared;
    forall sid ensures Declared(seen, key, sid).None? {
      assert Get(declared, sid).None?;
    }
  }

  lemma AgreeOnFirst(declared: seq<(u64, int)>, seen: seq<FileBlock>, key: StreamKey)
    requires SidsUnique(declared) && declared != [] && !Disagree(declared)
    requires forall sid :: Get(declared, sid) == Declared(seen, key, sid)
    ensures AllDeclare(declared, declared[0].1) && !Contradicts(seen, key)
    ensures forall extent :: DeclaresOnly(seen, key, extent) <==> extent == declared[0].1
  {
    hide Declared, Get;
    var first := declared[0].1;
    GetOf(declared, 0);
    forall i | 0 <= i < |declared| ensures declared[i].1 == first {
      assert i > 0 ==> declared[0].1 == declared[i].1;
    }
    forall sid ensures Declared(seen, key, sid).None? || Declared(seen, key, sid) == Some(first) {
      if Declared(seen, key, sid).Some? {
        var i := GetFrom(declared, sid);
      }
    }
    assert Declared(seen, key, declared[0].0) == Some(first);
  }

  /** What is reported on the entry is reported on whatever denotes the same offsets. */
  lemma ReportsSay(streams: Streams, seen: seq<FileBlock>, key: StreamKey, findings: seq<Finding>,
                   said: seq<Range>, value: Option<int>)
    requires Reflects(streams, seen) && forall i :: 0 <= i < |seen| ==> Unsigned(seen[i])
    requires Denotes(said, seen, key) && Settles(seen, key, value)
    requires var entry := At(streams, key);
      !Disagree(entry.declared) ==>
        && ReportsGaps(findings, entry.spans != [], entry.spans + entry.undecoded)
        && ReportsLength(findings, FirstDeclared(entry.declared), entry.spans + entry.undecoded)
    ensures ReportsGaps(findings, CitesStream(seen, key), said) && ReportsLength(findings, value, said)
  {
    var entry := At(streams, key);
    EntrySays(streams, seen, key);
    hide Reflects, Covers, Cited, Accounted, Declared, Get, Coalesced, ReportsGaps, ReportsLength, At;
    if value.Some? {
      AllDeclareIff(entry.declared, seen, key, value.value);
    } else if entry.declared != [] {
      GetOf(entry.declared, 0);
    }
    SameReports(entry.spans + entry.undecoded, said, findings, entry.spans != [], value);
  }

  lemma EachReportSays(streams: Streams, seen: seq<FileBlock>, key: StreamKey, findings: seq<Finding>)
    requires Reflects(streams, seen) && forall i :: 0 <= i < |seen| ==> Unsigned(seen[i])
    requires var entry := At(streams, key);
      !Disagree(entry.declared) ==>
        && ReportsGaps(findings, entry.spans != [], entry.spans + entry.undecoded)
        && ReportsLength(findings, FirstDeclared(entry.declared), entry.spans + entry.undecoded)
    ensures ReportsAsItApplies(findings, seen, key)
  {
    forall said, value | Denotes(said, seen, key) && Settles(seen, key, value)
      ensures ReportsGaps(findings, CitesStream(seen, key), said) && ReportsLength(findings, value, said)
    {
      hide *;
      ReportsSay(streams, seen, key, findings, said, value);
    }
  }

  lemma SomethingCovered(ranges: seq<Range>)
    requires Coalesced(ranges)
    ensures ranges != [] <==> exists x :: Covers(ranges, x)
  {
    if ranges != [] {
      assert ranges[0] in ranges && ranges[0].Has(ranges[0].start);
      assert Covers(ranges, ranges[0].start);
    }
  }

  lemma AccountedIsUnsigned(seen: seq<FileBlock>, key: StreamKey, x: int)
    requires forall i :: 0 <= i < |seen| ==> Unsigned(seen[i])
    ensures Accounted(seen, key, x) ==> 0 <= x
  {
    hide KindOf;
    if i :| 0 <= i < |seen| && CitesAt(seen, i, key, x) {
    } else if i :| 0 <= i < |seen| && MarksAt(seen, i, key, x) {
      assert Unsigned(seen[i]);
    }
  }

  /** The verdict on the entry, read as a verdict on the file. */
  lemma FindingsSay(streams: Streams, seen: seq<FileBlock>, key: StreamKey, findings: seq<Finding>)
    requires Reflects(streams, seen) && forall i :: 0 <= i < |seen| ==> Unsigned(seen[i])
    requires var entry := At(streams, key);
      && (Disagree(entry.declared) ==> findings == [Finding(0, ExtentsDisagree)])
      && (forall extent :: AllDeclare(entry.declared, extent) ==>
            (findings == [] <==>
              && (entry.spans != [] ==> NoInteriorGap(entry.spans + entry.undecoded))
              && EndsNear(entry.spans + entry.undecoded, extent)))
    ensures Contradicts(seen, key) ==> findings == [Finding(0, ExtentsDisagree)]
    ensures JudgesButTail(findings, seen, key)
  {
    var entry := At(streams, key);
    EntrySays(streams, seen, key);
    hide Reflects, Covers, Cited, Accounted, Declared, Get, Coalesced, NoInteriorGap, EndsNear, At;
    if Contradicts(seen, key) {
      DisagreeIff(entry.declared, seen, key);
    }
    forall extent | DeclaresOnly(seen, key, extent) && (exists x :: Cited(seen, key, x))
      ensures findings == [] <==> CompleteButTail(seen, key, extent)
    {
      AllDeclareIff(entry.declared, seen, key, extent);
      TailOfFile(entry.spans + entry.undecoded, seen, key, extent);
    }
  }

  lemma DisagreeIff(declared: seq<(u64, int)>, seen: seq<FileBlock>, key: StreamKey)
    requires SidsUnique(declared) && Contradicts(seen, key)
    requires forall sid :: Get(declared, sid) == Declared(seen, key, sid)
    ensures Disagree(declared)
  {
    hide Declared, Get;
    var one, other :| Declared(seen, key, one).Some? && Declared(seen, key, other).Some?
      && Declared(seen, key, one) != Declared(seen, key, other);
    var i := GetFrom(declared, one);
    var j := GetFrom(declared, other);
    assert declared[Min(i, j)].1 != declared[Max(i, j)].1;
  }

  lemma AllDeclareIff(declared: seq<(u64, int)>, seen: seq<FileBlock>, key: StreamKey, extent: int)
    requires SidsUnique(declared) && DeclaresOnly(seen, key, extent)
    requires forall sid :: Get(declared, sid) == Declared(seen, key, sid)
    ensures AllDeclare(declared, extent)
  {
    hide Declared, Get;
    var sid :| Declared(seen, key, sid) == Some(extent);
    var k := GetFrom(declared, sid);
    forall i | 0 <= i < |declared| ensures declared[i].1 == extent {
      GetOf(declared, i);
      assert Declared(seen, key, declared[i].0) == Some(declared[i].1);
    }
  }

  lemma TailOfFile(said: seq<Range>, seen: seq<FileBlock>, key: StreamKey, extent: int)
    requires forall x :: Covers(said, x) <==> Accounted(seen, key, x)
    requires forall x :: Covers(said, x) ==> 0 <= x
    ensures NoInteriorGap(said) && EndsNear(said, extent) <==> CompleteButTail(seen, key, extent)
  {
    hide Covers, Accounted;
  }
}
