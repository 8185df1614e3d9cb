/** Auto-fill's labelling of what a stage left uncovered, and the check that judges the result. */
module Fills {
  import opened Prelude
  import opened Intervals

  const GAP := "gap"
  const SKIPPED := "skipped"

  datatype Fill = Fill(range: Range, reason: string)

  ghost predicate Filled(fills: seq<Fill>, x: int) {
    exists f :: f in fills && f.range.Has(x)
  }

  /** A `gap` lies inside the holes, a `skipped` fill outside them. */
  ghost predicate Labelled(f: Fill, gaps: seq<Range>) {
    && f.range.start < f.range.end
    && (f.reason == GAP || f.reason == SKIPPED)
    && (forall x :: f.range.Has(x) ==> (Covers(gaps, x) <==> f.reason == GAP))
  }

  /** Labelled, in ascending order, inside `[start, end)`. */
  ghost predicate Within(fills: seq<Fill>, gaps: seq<Range>, start: int, end: int) {
    && (forall k :: 0 <= k < |fills| ==>
          Labelled(fills[k], gaps) && start <= fills[k].range.start && fills[k].range.end <= end)
    && (forall k, l :: 0 <= k < l < |fills| ==> fills[k].range.end <= fills[l].range.start)
  }

  lemma FilledConcat(a: seq<Fill>, b: seq<Fill>, x: int)
    ensures Filled(a + b, x) <==> Filled(a, x) || Filled(b, x)
  {
    if Filled(a, x) {
      var f :| f in a && f.range.Has(x);
      assert f in a + b;
    }
    if Filled(b, x) {
      var f :| f in b && f.range.Has(x);
      assert f in a + b;
    }
  }

  lemma FilledOne(f: Fill, x: int)
    ensures Filled([f], x) <==> f.range.Has(x)
  {
    assert f in [f];
  }

  lemma WithinConcat(a: seq<Fill>, b: seq<Fill>, gaps: seq<Range>, start: int, mid: int, end: int)
    requires Within(a, gaps, start, mid) && Within(b, gaps, mid, end) && start <= mid <= end
    ensures Within(a + b, gaps, start, end)
  {
    hide Labelled;
    var all := a + b;
    assert forall k :: 0 <= k < |all| ==> all[k] == if k < |a| then a[k] else b[k - |a|];
  }

  lemma WithinOne(f: Fill, gaps: seq<Range>, start: int, end: int)
    requires Labelled(f, gaps) && start <= f.range.start && f.range.end <= end
    ensures Within([f], gaps, start, end)
  {
  }

  /** The first `n` gaps leave nothing of `[position, end)`. */
  ghost predicate Passed(ordered: seq<Range>, n: nat, position: int, end: int)
    requires n <= |ordered|
  {
    forall x :: position <= x < end ==> !Covers(ordered[..n], x)
  }

  /** One more gap passed. */
  lemma PassGap(ordered: seq<Range>, n: nat, position: int, next: int, end: int)
    requires n < |ordered| && Passed(ordered, n, position, end) && position <= next
    requires var lo, hi := Max(position, ordered[n].start), Min(end, ordered[n].end);
      next == if lo < hi then hi else position
    ensures Passed(ordered, n + 1, next, end)
  {
    var after := ordered[..n + 1];
    assert after == ordered[..n] + [ordered[n]];
    forall x | next <= x < end ensures !Covers(after, x) {
      CoversSnoc(ordered[..n], ordered[n], x);
    }
  }

  lemma CoveredFromFirst(ordered: seq<Range>, x: int)
    requires SortedByStart(ordered) && Covers(ordered, x)
    ensures ordered != [] && ordered[0].start <= x
  {
    var k := CoveringIndex(ordered, x);
    assert ordered[0].start <= ordered[k].start;
  }

  /** No gap meets `[start, end)`. */
  ghost predicate ClearOf(gaps: seq<Range>, start: int, end: int) {
    forall x :: start <= x < end ==> !Covers(gaps, x)
  }

  /** What lies between the position and the next gap is in no gap at all. */
  lemma BeforeNextGap(ordered: seq<Range>, n: nat, position: int, until: int, end: int)
    requires n <= |ordered| && SortedByStart(ordered) && Passed(ordered, n, position, end) && until <= end
    requires n < |ordered| ==> until <= ordered[n].start
    ensures ClearOf(ordered, position, until)
  {
    var passed, rest := ordered[..n], ordered[n..];
    assert ordered == passed + rest;
    forall x ensures position <= x < until ==> !Covers(ordered, x) {
      CoversConcat(passed, rest, x);
      if Covers(rest, x) {
        CoveredFromFirst(rest, x);
      }
    }
  }

  lemma AddFill(fills: seq<Fill>, f: Fill, gaps: seq<Range>, start: int, position: int)
    requires Within(fills, gaps, start, position) && start <= position == f.range.start && Labelled(f, gaps)
    requires forall x :: Filled(fills, x) <==> start <= x < position
    ensures Within(fills + [f], gaps, start, f.range.end)
    ensures forall x :: Filled(fills + [f], x) <==> start <= x < f.range.end
  {
    WithinOne(f, gaps, position, f.range.end);
    WithinConcat(fills, [f], gaps, start, position, f.range.end);
    forall x ensures Filled(fills + [f], x) <==> start <= x < f.range.end {
      FilledConcat(fills, [f], x);
      FilledOne(f, x);
    }
  }

  /** Split one uncovered range at the gap boundaries. */
  method LabelOne(start: int, end: int, ordered: seq<Range>) returns (fills: seq<Fill>)
    requires start < end && SortedByStart(ordered)
    ensures Within(fills, ordered, start, end)
    ensures forall x :: Filled(fills, x) <==> start <= x < end
  {
    hide Covers, Filled, Labelled;
    fills := [];
    assert forall x :: !Filled([], x) by { NothingFilled(); }
    assert Passed(ordered, 0, start, end) by { NothingPassed(ordered, start, end); }
    var position := start;
    for n := 0 to |ordered|
      invariant start <= position <= end && Passed(ordered, n, position, end)
      invariant Within(fills, ordered, start, position)
      invariant forall x :: Filled(fills, x) <==> start <= x < position
    {
      var lo, hi := Max(position, ordered[n].start), Min(end, ordered[n].end);
      if lo >= hi {
        PassGap(ordered, n, position, position, end);
        continue;
      }
      PassGap(ordered, n, position, hi, end);
      if position < lo {
        BeforeNextGap(ordered, n, position, lo, end);
        SkippedIsLabelled(position, lo, ordered);
        AddFill(fills, Fill(Range(position, lo), SKIPPED), ordered, start, position);
        fills := fills + [Fill(Range(position, lo), SKIPPED)];
      }
      GapIsLabelled(ordered, n, lo, hi);
      AddFill(fills, Fill(Range(lo, hi), GAP), ordered, start, lo);
      fills := fills + [Fill(Range(lo, hi), GAP)];
      position := hi;
    }
    if position < end {
      BeforeNextGap(ordered, |ordered|, position, end, end);
      SkippedIsLabelled(position, end, ordered);
      AddFill(fills, Fill(Range(position, end), SKIPPED), ordered, start, position);
      fills := fills + [Fill(Range(position, end), SKIPPED)];
    }
  }

  lemma NothingFilled()
    ensures forall x :: !Filled([], x)
  {
  }

  lemma NothingPassed(ordered: seq<Range>, start: int, end: int)
    ensures Passed(ordered, 0, start, end)
  {
  }

  lemma SkippedIsLabelled(start: int, end: int, gaps: seq<Range>)
    requires start < end && ClearOf(gaps, start, end)
    ensures Labelled(Fill(Range(start, end), SKIPPED), gaps)
  {
  }

  lemma GapIsLabelled(gaps: seq<Range>, n: nat, start: int, end: int)
    requires n < |gaps| && gaps[n].start <= start < end <= gaps[n].end
    ensures Labelled(Fill(Range(start, end), GAP), gaps)
  {
    assert gaps[n] in gaps;
  }

  /** Every uncovered range, split at the gap boundaries and labelled. */
  method LabelFills(uncovered: seq<Range>, gaps: seq<Range>) returns (fills: seq<Fill>)
    requires Ascending(uncovered) && forall r :: r in uncovered ==> r.start < r.end
    ensures forall x :: Filled(fills, x) <==> Covers(uncovered, x)
    ensures forall k :: 0 <= k < |fills| ==> Labelled(fills[k], gaps)
    ensures forall k, l :: 0 <= k < l < |fills| ==> fills[k].range.end <= fills[l].range.start
  {
    var ordered := Sorted(gaps);
    forall x ensures Covers(ordered, x) <==> Covers(gaps, x) {
      SortedCovers(gaps, x);
    }
    fills := [];
    if uncovered == [] {
      return;
    }
    ghost var from, position := uncovered[0].start, uncovered[0].start;
    NothingFilled();
    assert forall x :: !Covers(uncovered[..0], x);
    for n := 0 to |uncovered|
      invariant from <= position && (n < |uncovered| ==> position <= uncovered[n].start)
      invariant Within(fills, ordered, from, position)
      invariant forall x :: Filled(fills, x) <==> Covers(uncovered[..n], x)
    {
      hide Covers, Filled, Labelled;
      var r := uncovered[n];
      assert r in uncovered;
      var parts := LabelOne(r.start, r.end, ordered);
      assert uncovered[..n + 1] == uncovered[..n] + [r];
      forall x ensures Filled(fills + parts, x) <==> Covers(uncovered[..n + 1], x) {
        FilledConcat(fills, parts, x);
        CoversSnoc(uncovered[..n], r, x);
      }
      WidenWithin(fills, ordered, from, position, r.start);
      WithinConcat(fills, parts, ordered, from, r.start, r.end);
      fills := fills + parts;
      position := r.end;
    }
    assert uncovered[..|uncovered|] == uncovered;
  }

  lemma WidenWithin(fills: seq<Fill>, gaps: seq<Range>, start: int, end: int, wider: int)
    requires Within(fills, gaps, start, end) && end <= wider
    ensures Within(fills, gaps, start, wider)
  {
  }

  // ----- The independent check --------------------------------------------------------

  datatype Category = CoverageOverlap | CoverageGap | CoverageExcess | ExtentMismatch

  datatype Finding = Finding(offset: int, category: Category)

  ghost predicate Reports(findings: seq<Finding>, category: Category) {
    exists f :: f in findings && f.category == category
  }

  predicate StartsOne(ranges: seq<Range>, x: int) {
    exists r :: r in ranges && r.start == x
  }

  /** Where a stretch of covered offsets begins, a range starts. */
  lemma StartsWhereCoverBegins(ranges: seq<Range>, x: int)
    requires Covers(ranges, x) && !Covers(ranges, x - 1)
    ensures StartsOne(ranges, x)
  {
    var k := CoveringIndex(ranges, x);
    assert ranges[k] in ranges;
    if ranges[k].start != x {
      assert !ranges[k].Has(x - 1);
    }
  }

  lemma CoveredWhereItStarts(ranges: seq<Range>, x: int)
    requires StartsOne(ranges, x) && forall r :: r in ranges ==> r.start < r.end
    ensures Covers(ranges, x)
  {
    var r :| r in ranges && r.start == x;
    assert r.Has(x);
  }

  /** Offset `x` is cited and marked. */
  ghost predicate Double(spans: seq<Range>, undecoded: seq<Range>, x: int) {
    Covers(spans, x) && Covers(undecoded, x)
  }

  /** Nobody accounts for offset `x` of the stream. */
  ghost predicate Owing(extent: int, spans: seq<Range>, undecoded: seq<Range>, exempt: seq<int>, x: int) {
    0 <= x < extent && !Covers(spans, x) && !Covers(undecoded, x) && x !in exempt
  }

  /**
   * Where each category is reported: overlaps and gaps only at offsets where there is one and at
   * least where each stretch begins, an excess exactly at the start of each range past the extent.
   */
  ghost predicate ReportedWhere(findings: seq<Finding>, extent: int, spans: seq<Range>, undecoded: seq<Range>,
                                exempt: seq<int>) {
    && (forall x :: Finding(x, CoverageOverlap) in findings ==> Double(spans, undecoded, x))
    && (forall x :: Double(spans, undecoded, x) && !Double(spans, undecoded, x - 1) ==>
          Finding(x, CoverageOverlap) in findings)
    && (forall x :: Finding(x, CoverageGap) in findings ==> Owing(extent, spans, undecoded, exempt, x))
    && (forall x :: Owing(extent, spans, undecoded, exempt, x) && !Owing(extent, spans, undecoded, exempt, x - 1) ==>
          Finding(x, CoverageGap) in findings)
    && (forall x :: Finding(x, CoverageExcess) in findings <==> StartsPast(spans + undecoded, extent, x))
  }

  predicate StartsPast(ranges: seq<Range>, extent: int, x: int) {
    exists r :: r in ranges && r.end > extent && r.start == x
  }

  lemma PastStarts(ranges: seq<Range>, extent: int, x: int)
    ensures StartsOne(Past(Sorted(ranges), extent), x) <==> StartsPast(ranges, extent, x)
  {
    forall r ensures r in Sorted(ranges) <==> r in ranges {
      SortedHas(ranges, r);
    }
    hide Sorted;
  }

  lemma WhereReported(extent: int, spans: seq<Range>, undecoded: seq<Range>, exempt: seq<int>,
                      overlaps: seq<Range>, gaps: seq<Range>, past: seq<Range>)
    requires forall x :: Covers(overlaps, x) <==> Double(spans, undecoded, x)
    requires forall x :: Covers(gaps, x) <==> Owing(extent, spans, undecoded, exempt, x)
    requires forall r :: r in overlaps + gaps ==> r.start < r.end
    requires forall x :: StartsOne(past, x) <==> StartsPast(spans + undecoded, extent, x)
    ensures ReportedWhere(Tagged(overlaps, CoverageOverlap) + Tagged(gaps, CoverageGap) + Tagged(past, CoverageExcess),
                          extent, spans, undecoded, exempt)
  {
    hide Covers, Double, Owing, StartsOne, StartsPast, Tagged;
    assert forall r :: r in overlaps || r in gaps ==> r in overlaps + gaps;
    forall x
      ensures StartsOne(overlaps, x) ==> Covers(overlaps, x)
      ensures StartsOne(gaps, x) ==> Covers(gaps, x)
      ensures Covers(overlaps, x) && !Covers(overlaps, x - 1) ==> StartsOne(overlaps, x)
      ensures Covers(gaps, x) && !Covers(gaps, x - 1) ==> StartsOne(gaps, x)
    {
      if StartsOne(overlaps, x) {
        CoveredWhereItStarts(overlaps, x);
      }
      if StartsOne(gaps, x) {
        CoveredWhereItStarts(gaps, x);
      }
      if Covers(overlaps, x) && !Covers(overlaps, x - 1) {
        StartsWhereCoverBegins(overlaps, x);
      }
      if Covers(gaps, x) && !Covers(gaps, x - 1) {
        StartsWhereCoverBegins(gaps, x);
      }
    }
  }

  function Tagged(ranges: seq<Range>, category: Category): (findings: seq<Finding>)
    ensures |findings| == |ranges|
    ensures forall f :: f in findings ==> f.category == category
    ensures forall x :: Finding(x, category) in findings <==> StartsOne(ranges, x)
  {
    if ranges == [] then [] else [Finding(ranges[0].start, category)] + Tagged(ranges[1..], category)
  }

  /** The ranges that reach past the extent. */
  function Past(ranges: seq<Range>, extent: int): (past: seq<Range>)
    ensures forall r :: r in past <==> r in ranges && r.end > extent
  {
    if ranges == [] then []
    else (if ranges[0].end > extent then [ranges[0]] else []) + Past(ranges[1..], extent)
  }

  lemma ReportsEach(a: seq<Range>, b: seq<Range>, c: seq<Range>)
    ensures var findings := Tagged(a, CoverageOverlap) + Tagged(b, CoverageGap) + Tagged(c, CoverageExcess);
      && (Reports(findings, CoverageOverlap) <==> a != [])
      && (Reports(findings, CoverageGap) <==> b != [])
      && (Reports(findings, CoverageExcess) <==> c != [])
      && (findings == [] <==> a == [] && b == [] && c == [])
  {
    var x, y, z := Tagged(a, CoverageOverlap), Tagged(b, CoverageGap), Tagged(c, CoverageExcess);
    var findings := x + y + z;
    assert forall f :: f in findings <==> f in x || f in y || f in z;
    assert a != [] ==> x[0] in findings;
    assert b != [] ==> y[0] in findings;
    assert c != [] ==> z[0] in findings;
  }

  /** One-wide ranges at the given positions. */
  function PointRanges(positions: seq<int>): (ranges: seq<Range>)
    ensures |ranges| == |positions|
    ensures forall k :: 0 <= k < |ranges| ==> ranges[k] == Range(positions[k], positions[k] + 1)
  {
    seq(|positions|, k requires 0 <= k < |positions| => Range(positions[k], positions[k] + 1))
  }

  lemma PointsCover(positions: seq<int>, x: int)
    ensures Covers(PointRanges(positions), x) <==> x in positions
  {
    if x in positions {
      var k :| 0 <= k < |positions| && positions[k] == x;
      assert PointRanges(positions)[k] in PointRanges(positions);
    }
  }

  /**
   * `_check_stream`: what one input stream's citations and markers violate. `exempt` are the
   * stream's FIN positions, which count as covered for the gap test only.
   */
  method CheckStream(extent: int, spans: seq<Range>, undecoded: seq<Range>, exempt: seq<int>)
    returns (findings: seq<Finding>)
    requires forall r :: r in spans + undecoded ==> r.start < r.end
    ensures Reports(findings, CoverageOverlap) <==> exists x :: Covers(spans, x) && Covers(undecoded, x)
    ensures Reports(findings, CoverageGap)
       <==> exists x :: 0 <= x < extent && !Covers(spans, x) && !Covers(undecoded, x) && x !in exempt
    ensures Reports(findings, CoverageExcess) <==> exists r :: r in spans + undecoded && r.end > extent
    ensures findings == [] <==>
      !Reports(findings, CoverageOverlap) && !Reports(findings, CoverageGap) && !Reports(findings, CoverageExcess)
    ensures ReportedWhere(findings, extent, spans, undecoded, exempt)
  {
    var overlaps := Intersections(Sorted(spans), Sorted(undecoded));
    var covered := Sorted(spans + undecoded);
    var owed := covered + PointRanges(exempt);
    var ordered := Sorted(owed);
    assert NoneReversed(ordered) by { OwedNotReversed(spans, undecoded, exempt); }
    var gaps := Complement(ordered, extent);
    var past := Past(covered, extent);
    ReportsEach(overlaps, gaps, past);
    OverlapVerdict(spans, undecoded, overlaps);
    GapVerdict(extent, spans, undecoded, exempt, gaps);
    PastVerdict(spans + undecoded, extent);
    hide Reports, Covers, Sorted, Past, Tagged, ReportedWhere, StartsPast, StartsOne;
    forall x ensures StartsOne(past, x) <==> StartsPast(spans + undecoded, extent, x) {
      PastStarts(spans + undecoded, extent, x);
    }
    WhereReported(extent, spans, undecoded, exempt, overlaps, gaps, past);
    findings := Tagged(overlaps, CoverageOverlap) + Tagged(gaps, CoverageGap) + Tagged(past, CoverageExcess);
  }

  lemma OwedNotReversed(spans: seq<Range>, undecoded: seq<Range>, exempt: seq<int>)
    requires forall r :: r in spans + undecoded ==> r.start < r.end
    ensures NoneReversed(Sorted(Sorted(spans + undecoded) + PointRanges(exempt)))
  {
    hide Sorted;
    forall r ensures r in Sorted(spans + undecoded) <==> r in spans + undecoded {
      SortedHas(spans + undecoded, r);
    }
    NoneReversedSorted(Sorted(spans + undecoded) + PointRanges(exempt));
  }

  lemma OverlapVerdict(spans: seq<Range>, undecoded: seq<Range>, overlaps: seq<Range>)
    requires forall x :: Covers(overlaps, x) <==> Covers(Sorted(spans), x) && Covers(Sorted(undecoded), x)
    requires forall r :: r in overlaps ==> r.start < r.end
    ensures overlaps != [] <==> exists x :: Covers(spans, x) && Covers(undecoded, x)
    ensures forall x :: Covers(overlaps, x) <==> Double(spans, undecoded, x)
  {
    EmptyIffDisjoint(overlaps, Sorted(spans), Sorted(undecoded));
    forall x ensures Covers(Sorted(spans), x) <==> Covers(spans, x) {
      SortedCovers(spans, x);
    }
    forall x ensures Covers(Sorted(undecoded), x) <==> Covers(undecoded, x) {
      SortedCovers(undecoded, x);
    }
  }

  lemma OwedCovers(spans: seq<Range>, undecoded: seq<Range>, exempt: seq<int>, x: int)
    ensures Covers(Sorted(Sorted(spans + undecoded) + PointRanges(exempt)), x)
       <==> Covers(spans, x) || Covers(undecoded, x) || x in exempt
  {
    hide Covers, Sorted;
    SortedCovers(Sorted(spans + undecoded) + PointRanges(exempt), x);
    CoversConcat(Sorted(spans + undecoded), PointRanges(exempt), x);
    SortedCovers(spans + undecoded, x);
    CoversConcat(spans, undecoded, x);
    PointsCover(exempt, x);
  }

  lemma NonEmptyCoversSome(ranges: seq<Range>)
    requires forall r :: r in ranges ==> r.start < r.end
    ensures ranges != [] <==> exists x :: Covers(ranges, x)
  {
    if ranges != [] {
      assert ranges[0] in ranges && ranges[0].Has(ranges[0].start);
      assert Covers(ranges, ranges[0].start);
    }
  }

  lemma GapVerdict(extent: int, spans: seq<Range>, undecoded: seq<Range>, exempt: seq<int>, gaps: seq<Range>)
    requires var ordered := Sorted(Sorted(spans + undecoded) + PointRanges(exempt));
      forall x :: Covers(gaps, x) <==> 0 <= x < extent && !Covers(ordered, x)
    requires forall r :: r in gaps ==> r.start < r.end
    ensures gaps != []
       <==> exists x :: 0 <= x < extent && !Covers(spans, x) && !Covers(undecoded, x) && x !in exempt
    ensures forall x :: Covers(gaps, x) <==> Owing(extent, spans, undecoded, exempt, x)
  {
    hide Covers, Sorted, PointRanges;
    NonEmptyCoversSome(gaps);
    forall x ensures Covers(gaps, x) <==> 0 <= x < extent && !Covers(spans, x) && !Covers(undecoded, x) && x !in exempt {
      OwedCovers(spans, undecoded, exempt, x);
    }
  }

  lemma PastVerdict(ranges: seq<Range>, extent: int)
    ensures Past(Sorted(ranges), extent) != [] <==> exists r :: r in ranges && r.end > extent
  {
    var past := Past(Sorted(ranges), extent);
    forall r ensures r in Sorted(ranges) <==> r in ranges {
      SortedHas(ranges, r);
    }
    if past != [] {
      assert past[0] in past;
    }
  }
}
