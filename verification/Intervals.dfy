/**
 * Half-open interval lists, as sets of offsets.
 *
 * `Covers` is what a list denotes. Everything the coverage code computes with lists is
 * specified through it, so no contract below depends on how a list is cut into ranges.
 */
module Intervals {
  import opened Prelude

  datatype Range = Range(start: int, end: int)
  {
    predicate Has(x: int) {
      start <= x < end
    }
  }

  ghost predicate Covers(ranges: seq<Range>, x: int) {
    exists r :: r in ranges && r.Has(x)
  }

  /** Sorted, disjoint, no empty range, and no two ranges touching. */
  predicate Coalesced(ranges: seq<Range>) {
    && (forall k :: 0 <= k < |ranges| ==> ranges[k].start < ranges[k].end)
    && (forall k, l :: 0 <= k < l < |ranges| ==> ranges[k].end < ranges[l].start)
  }

  predicate SortedByStart(ranges: seq<Range>) {
    forall k, l :: 0 <= k < l < |ranges| ==> ranges[k].start <= ranges[l].start
  }

  /** The furthest end, or 0 if there is no range. */
  function MaxEnd(ranges: seq<Range>): (end: nat)
    ensures forall r :: r in ranges ==> r.end <= end
  {
    if ranges == [] then 0
    else Max(MaxEnd(ranges[..|ranges| - 1]), ranges[|ranges| - 1].end)
  }

  /** An index of a range that covers `x`. */
  lemma CoveringIndex(ranges: seq<Range>, x: int) returns (k: nat)
    requires Covers(ranges, x)
    ensures k < |ranges| && ranges[k].Has(x)
  {
    var r :| r in ranges && r.Has(x);
    k :| k < |ranges| && ranges[k] == r;
  }

  // ----- A coalesced list is determined by what it covers ----------------------

  lemma CoversConcat(a: seq<Range>, b: seq<Range>, x: int)
    ensures Covers(a + b, x) <==> Covers(a, x) || Covers(b, x)
  {
    if Covers(a, x) {
      var r :| r in a && r.Has(x);
      assert r in a + b;
    }
    if Covers(b, x) {
      var r :| r in b && r.Has(x);
      assert r in a + b;
    }
  }

  lemma CoversSnoc(a: seq<Range>, r: Range, x: int)
    ensures Covers(a + [r], x) <==> Covers(a, x) || r.Has(x)
  {
    CoversConcat(a, [r], x);
    assert r in [r];
  }

  lemma HeadOfCoalesced(ranges: seq<Range>)
    requires Coalesced(ranges) && ranges != []
    ensures forall x :: Covers(ranges, x) ==> x >= ranges[0].start
    ensures forall x :: ranges[0].start <= x < ranges[0].end ==> Covers(ranges, x)
    ensures Covers(ranges, ranges[0].start) && !Covers(ranges, ranges[0].end)
    ensures forall x :: Covers(ranges[1..], x) <==> Covers(ranges, x) && x > ranges[0].end
    ensures Coalesced(ranges[1..])
  {
    assert ranges == [ranges[0]] + ranges[1..];
    forall x {
      CoversConcat([ranges[0]], ranges[1..], x);
    }
    assert forall k :: 0 <= k < |ranges[1..]| ==> ranges[1..][k] == ranges[k + 1];
    assert ranges[0] in ranges;
  }

  /** A coalesced list's furthest end is one past the last offset it covers. */
  lemma ReachOf(covered: seq<Range>)
    requires Coalesced(covered) && forall x :: Covers(covered, x) ==> 0 <= x
    ensures forall x :: Covers(covered, x) ==> x < MaxEnd(covered)
    ensures covered == [] ==> MaxEnd(covered) == 0
    ensures covered != [] ==> Covers(covered, MaxEnd(covered) - 1)
  {
    forall x | Covers(covered, x) ensures x < MaxEnd(covered) {
      var k := CoveringIndex(covered, x);
      assert covered[k] in covered;
    }
    if covered != [] {
      var last := covered[|covered| - 1];
      assert last in covered && last.Has(last.end - 1);
      assert Covers(covered, last.end - 1);
      EndsBefore(covered[..|covered| - 1], last.end);
    }
  }

  lemma {:induction false} EndsBefore(ranges: seq<Range>, bound: int)
    requires bound >= 0 && forall k :: 0 <= k < |ranges| ==> ranges[k].end <= bound
    ensures MaxEnd(ranges) <= bound
  {
    if ranges != [] {
      EndsBefore(ranges[..|ranges| - 1], bound);
    }
  }

  lemma {:induction false} CoalescedUnique(a: seq<Range>, b: seq<Range>)
    requires Coalesced(a) && Coalesced(b)
    requires forall x :: Covers(a, x) <==> Covers(b, x)
    ensures a == b
  {
    if a != [] {
      HeadOfCoalesced(a);
    }
    if b != [] {
      HeadOfCoalesced(b);
    }
    if a != [] && b != [] {
      CoalescedUnique(a[1..], b[1..]);
      assert a == [a[0]] + a[1..] && b == [b[0]] + b[1..];
    }
  }

  // ----- Adding a range in place -----------------------------------------------

  /** Python's `bisect_left` over the ends of a sorted list. */
  function BisectEnds(ranges: seq<Range>, x: int): (lo: nat)
    requires Coalesced(ranges)
    ensures lo <= |ranges|
    ensures forall k :: 0 <= k < lo ==> ranges[k].end < x
    ensures forall k :: lo <= k < |ranges| ==> ranges[k].end >= x
  {
    if ranges == [] || ranges[|ranges| - 1].end < x then |ranges|
    else BisectEnds(ranges[..|ranges| - 1], x)
  }

  /** Python's `bisect_right` over the starts of a sorted list. */
  function BisectStarts(ranges: seq<Range>, x: int): (hi: nat)
    requires Coalesced(ranges)
    ensures hi <= |ranges|
    ensures forall k :: 0 <= k < hi ==> ranges[k].start <= x
    ensures forall k :: hi <= k < |ranges| ==> ranges[k].start > x
  {
    if ranges == [] || ranges[|ranges| - 1].start <= x then |ranges|
    else BisectStarts(ranges[..|ranges| - 1], x)
  }

  /** What fusing `ranges[lo..hi]` with `[start, end)` gives. */
  function Fused(ranges: seq<Range>, lo: nat, hi: nat, start: int, end: int): Range
    requires lo <= hi <= |ranges|
  {
    if lo == hi then Range(start, end)
    else Range(Min(start, ranges[lo].start), Max(end, ranges[hi - 1].end))
  }

  /** Exactly the ranges in `ranges[lo..hi]` touch `[start, end)`. */
  predicate Touching(ranges: seq<Range>, lo: nat, hi: nat, start: int, end: int) {
    && lo <= hi <= |ranges|
    && (forall k :: 0 <= k < lo ==> ranges[k].end < start)
    && (forall k :: lo <= k < hi ==> ranges[k].end >= start && ranges[k].start <= end)
    && (forall k :: hi <= k < |ranges| ==> ranges[k].start > end)
  }

  lemma SpliceIsCoalesced(ranges: seq<Range>, lo: nat, hi: nat, start: int, end: int)
    requires Coalesced(ranges) && Touching(ranges, lo, hi, start, end) && start < end
    ensures Coalesced(ranges[..lo] + [Fused(ranges, lo, hi, start, end)] + ranges[hi..])
  {
    var fused := Fused(ranges, lo, hi, start, end);
    assert lo > 0 ==> ranges[..lo][lo - 1] == ranges[lo - 1];
    CoalescedConcat(ranges[..lo], [fused]);
    CoalescedConcat(ranges[..lo] + [fused], ranges[hi..]);
  }

  lemma CoalescedConcat(a: seq<Range>, b: seq<Range>)
    requires Coalesced(a) && Coalesced(b)
    requires a == [] || b == [] || a[|a| - 1].end < b[0].start
    ensures Coalesced(a + b)
  {
    var all := a + b;
    assert forall k :: 0 <= k < |a| ==> all[k] == a[k] && a[k].end <= a[|a| - 1].end;
    assert forall k :: |a| <= k < |all| ==> all[k] == b[k - |a|] && b[0].start <= b[k - |a|].start;
  }

  /** Replacing `ranges[lo..hi]` by its fusion with `[start, end)` adds exactly that range. */
  lemma SpliceCovers(ranges: seq<Range>, lo: nat, hi: nat, start: int, end: int, x: int)
    requires Coalesced(ranges) && Touching(ranges, lo, hi, start, end) && start < end
    ensures Covers(ranges[..lo] + [Fused(ranges, lo, hi, start, end)] + ranges[hi..], x)
       <==> Covers(ranges, x) || start <= x < end
  {
    var fused := Fused(ranges, lo, hi, start, end);
    assert ranges == ranges[..lo] + ranges[lo..hi] + ranges[hi..];
    CoversConcat(ranges[..lo] + [fused], ranges[hi..], x);
    CoversConcat(ranges[..lo], [fused], x);
    CoversConcat(ranges[..lo] + ranges[lo..hi], ranges[hi..], x);
    CoversConcat(ranges[..lo], ranges[lo..hi], x);
    assert Covers([fused], x) <==> fused.Has(x);
    FusedCovers(ranges, lo, hi, start, end, x);
  }

  lemma FusedCovers(ranges: seq<Range>, lo: nat, hi: nat, start: int, end: int, x: int)
    requires Coalesced(ranges) && Touching(ranges, lo, hi, start, end) && start < end
    ensures Fused(ranges, lo, hi, start, end).Has(x) <==> Covers(ranges[lo..hi], x) || start <= x < end
  {
    var mid, fused := ranges[lo..hi], Fused(ranges, lo, hi, start, end);
    if Covers(mid, x) {
      var k := CoveringIndex(mid, x);
      assert mid[k] == ranges[lo + k];
      assert lo < lo + k ==> ranges[lo].end < ranges[lo + k].start;
      assert lo + k < hi - 1 ==> ranges[lo + k].end < ranges[hi - 1].start;
    }
    if fused.Has(x) && x < start {
      assert mid[0] == ranges[lo] && ranges[lo].Has(x);
    }
    if fused.Has(x) && x >= end {
      assert mid[|mid| - 1] == ranges[hi - 1] && ranges[hi - 1].Has(x);
    }
  }

  lemma Splice(ranges: seq<Range>, lo: nat, hi: nat, start: int, end: int)
    requires Coalesced(ranges) && Touching(ranges, lo, hi, start, end) && start < end
    ensures var spliced := ranges[..lo] + [Fused(ranges, lo, hi, start, end)] + ranges[hi..];
            && Coalesced(spliced)
            && forall x :: Covers(spliced, x) <==> Covers(ranges, x) || start <= x < end
  {
    SpliceIsCoalesced(ranges, lo, hi, start, end);
    forall x {
      SpliceCovers(ranges, lo, hi, start, end, x);
    }
  }

  /** The list with `[start, end)` merged in; an empty or reversed range changes nothing. */
  function Added(ranges: seq<Range>, start: int, end: int): (out: seq<Range>)
    requires Coalesced(ranges)
    ensures Coalesced(out)
  {
    if start >= end then ranges
    else
      var lo, hi := BisectEnds(ranges, start), BisectStarts(ranges, end);
      BisectsTouch(ranges, start, end);
      SpliceIsCoalesced(ranges, lo, hi, start, end);
      ranges[..lo] + [Fused(ranges, lo, hi, start, end)] + ranges[hi..]
  }

  lemma BisectsTouch(ranges: seq<Range>, start: int, end: int)
    requires Coalesced(ranges) && start < end
    ensures Touching(ranges, BisectEnds(ranges, start), BisectStarts(ranges, end), start, end)
  {
    var lo, hi := BisectEnds(ranges, start), BisectStarts(ranges, end);
    assert lo > 0 ==> ranges[lo - 1].start < ranges[lo - 1].end < start;
    assert hi == |ranges| || ranges[hi].start > end;
  }

  lemma AddedCovers(ranges: seq<Range>, start: int, end: int, x: int)
    requires Coalesced(ranges)
    ensures Covers(Added(ranges, start, end), x) <==> Covers(ranges, x) || start <= x < end
  {
    if start < end {
      BisectsTouch(ranges, start, end);
      hide Covers, Coalesced, Touching;
      SpliceCovers(ranges, BisectEnds(ranges, start), BisectStarts(ranges, end), start, end, x);
    }
  }

  /** Any coalesced list that covers the old offsets and the new range is that list. */
  lemma AddedIs(before: seq<Range>, after: seq<Range>, start: int, end: int)
    requires Coalesced(before) && Coalesced(after)
    requires forall x :: Covers(after, x) <==> Covers(before, x) || start <= x < end
    ensures after == Added(before, start, end)
  {
    hide Covers, Coalesced, Added;
    forall x {
      AddedCovers(before, start, end, x);
    }
    CoalescedUnique(after, Added(before, start, end));
  }

  /** The ranges of a batch, added one by one in the order they come. */
  function AddedAll(batch: seq<Range>): (out: seq<Range>)
    ensures Coalesced(out)
  {
    if batch == [] then []
    else Added(AddedAll(batch[..|batch| - 1]), batch[|batch| - 1].start, batch[|batch| - 1].end)
  }

  lemma {:induction false} AddedAllCovers(batch: seq<Range>, x: int)
    ensures Covers(AddedAll(batch), x) <==> Covers(batch, x)
  {
    if batch != [] {
      var rest, last := batch[..|batch| - 1], batch[|batch| - 1];
      AddedAllCovers(rest, x);
      AddedCovers(AddedAll(rest), last.start, last.end, x);
      CoversSnoc(rest, last, x);
      assert batch == rest + [last];
      hide Covers, Added;
    }
  }

  /** The order in which ranges are added does not matter. */
  lemma AnyOrderSameList(added: seq<Range>, batch: seq<Range>)
    requires multiset(added) == multiset(batch)
    ensures AddedAll(added) == AddedAll(batch)
  {
    forall x ensures Covers(AddedAll(added), x) <==> Covers(AddedAll(batch), x) {
      AddedAllCovers(added, x);
      AddedAllCovers(batch, x);
      CoversPermutation(added, batch, x);
    }
    hide Covers;
    CoalescedUnique(AddedAll(added), AddedAll(batch));
  }

  /** What a list covers does not depend on the order of its ranges. */
  lemma CoversPermutation(a: seq<Range>, b: seq<Range>, x: int)
    requires multiset(a) == multiset(b)
    ensures Covers(a, x) <==> Covers(b, x)
  {
    assert forall r :: r in a <==> r in multiset(a);
    assert forall r :: r in b <==> r in multiset(b);
  }

  /** A coalesced interval list that is edited in place. */
  class RangeList {
    var ranges: seq<Range>

    constructor ()
      ensures ranges == []
    {
      ranges := [];
    }

    /** Merge `[start, end)` in; an empty or reversed range is ignored. */
    method Add(start: int, end: int)
      requires Coalesced(ranges)
      modifies this
      ensures Coalesced(ranges) && ranges == Added(old(ranges), start, end)
      ensures forall x :: Covers(ranges, x) <==> Covers(old(ranges), x) || start <= x < end
    {
      hide Covers, Added;
      if start >= end {
        AddedIs(ranges, ranges, start, end);
        return;
      }
      var n := |ranges|;
      if n > 0 {
        var last := ranges[n - 1];
        if start >= last.start {
          assert ranges[n - 1 := last] == ranges;
          if start <= last.end {
            Splice(ranges, n - 1, n, start, end);
            assert ranges[n - 1 := Range(last.start, Max(end, last.end))]
                == ranges[..n - 1] + [Fused(ranges, n - 1, n, start, end)] + ranges[n..];
            if end > last.end {
              ranges := ranges[n - 1 := Range(last.start, end)];
            }
          } else {
            Splice(ranges, n, n, start, end);
            assert ranges[..n] + [Range(start, end)] + ranges[n..] == ranges + [Range(start, end)];
            ranges := ranges + [Range(start, end)];
          }
          AddedIs(old(ranges), ranges, start, end);
          return;
        }
      } else {
        Splice(ranges, 0, 0, start, end);
        assert ranges[..0] + [Range(start, end)] + ranges[0..] == ranges + [Range(start, end)];
        ranges := ranges + [Range(start, end)];
        AddedIs(old(ranges), ranges, start, end);
        return;
      }
      var lo := BisectEnds(ranges, start);
      var hi := BisectStarts(ranges, end);
      assert hi == n || ranges[hi].start > end;
      Splice(ranges, lo, hi, start, end);
      if lo == hi {
        ranges := ranges[..lo] + [Range(start, end)] + ranges[lo..];
      } else {
        ranges := ranges[..lo] + [Range(Min(start, ranges[lo].start), Max(end, ranges[hi - 1].end))] + ranges[hi..];
      }
      AddedIs(old(ranges), ranges, start, end);
    }
  }

  // ----- The batch form ----------------------------------------------------------

  /** The order of pairs: by start, then by end. */
  predicate Before(a: Range, b: Range) {
    a.start < b.start || (a.start == b.start && a.end <= b.end)
  }

  function Insert(r: Range, sorted: seq<Range>): (out: seq<Range>)
    ensures multiset(out) == multiset(sorted) + multiset{r}
    ensures forall e :: e in out <==> e == r || e in sorted
  {
    if sorted == [] then [r]
    else
      assert sorted == [sorted[0]] + sorted[1..];
      if Before(r, sorted[0]) then [r] + sorted else [sorted[0]] + Insert(r, sorted[1..])
  }

  lemma {:induction false} InsertSorted(r: Range, sorted: seq<Range>)
    requires SortedByStart(sorted)
    ensures SortedByStart(Insert(r, sorted))
  {
    if sorted != [] && !Before(r, sorted[0]) {
      InsertSorted(r, sorted[1..]);
      var rest := Insert(r, sorted[1..]);
      forall k | 0 <= k < |rest| ensures sorted[0].start <= rest[k].start {
        assert rest[k] in rest;
      }
    }
  }

  /** Python's `sorted` on pairs. */
  function Sorted(ranges: seq<Range>): (out: seq<Range>)
    ensures multiset(out) == multiset(ranges)
    ensures SortedByStart(out)
  {
    if ranges == [] then []
    else
      assert ranges == [ranges[0]] + ranges[1..];
      InsertSorted(ranges[0], Sorted(ranges[1..]));
      Insert(ranges[0], Sorted(ranges[1..]))
  }

  lemma SortedCovers(ranges: seq<Range>, x: int)
    ensures Covers(Sorted(ranges), x) <==> Covers(ranges, x)
  {
    CoversPermutation(Sorted(ranges), ranges, x);
  }

  method Coalesce(intervals: seq<Range>) returns (out: seq<Range>)
    ensures out == AddedAll(intervals) && Coalesced(out)
    ensures forall x :: Covers(out, x) <==> Covers(intervals, x)
  {
    hide Covers, Coalesced, Added;
    var sorted := Sorted(intervals);
    var merged := new RangeList();
    for n := 0 to |sorted|
      invariant merged.ranges == AddedAll(sorted[..n])
    {
      assert sorted[..n + 1][..n] == sorted[..n];
      merged.Add(sorted[n].start, sorted[n].end);
    }
    assert sorted[..|sorted|] == sorted;
    AnyOrderSameList(sorted, intervals);
    out := merged.ranges;
    forall x {
      AddedAllCovers(intervals, x);
    }
  }

  /** A whole batch added one by one, as it comes: the list `Coalesce` gives it. */
  method AddEach(batch: seq<Range>) returns (list: RangeList)
    ensures fresh(list) && list.ranges == AddedAll(batch)
  {
    list := new RangeList();
    for n := 0 to |batch|
      invariant fresh(list) && list.ranges == AddedAll(batch[..n])
    {
      assert batch[..n + 1][..n] == batch[..n];
      list.Add(batch[n].start, batch[n].end);
    }
    assert batch[..|batch|] == batch;
  }

  // ----- Complement and intersection ----------------------------------------------

  predicate NoneReversed(ranges: seq<Range>) {
    forall k :: 0 <= k < |ranges| ==> ranges[k].start <= ranges[k].end
  }

  lemma SortedHas(ranges: seq<Range>, r: Range)
    ensures r in Sorted(ranges) <==> r in ranges
  {
    assert r in Sorted(ranges) <==> r in multiset(Sorted(ranges));
    assert r in ranges <==> r in multiset(ranges);
  }

  lemma NoneReversedSorted(ranges: seq<Range>)
    requires forall r :: r in ranges ==> r.start <= r.end
    ensures NoneReversed(Sorted(ranges))
  {
    hide Sorted;
    var sorted := Sorted(ranges);
    forall k | 0 <= k < |sorted| ensures sorted[k].start <= sorted[k].end {
      SortedHas(ranges, sorted[k]);
    }
  }

  lemma CoalescedIsSorted(ranges: seq<Range>)
    requires Coalesced(ranges)
    ensures SortedByStart(ranges) && NoneReversed(ranges)
  {
  }

  function NonEmpty(ranges: seq<Range>): (out: seq<Range>)
    ensures forall r :: r in out <==> r in ranges && r.start < r.end
  {
    if ranges == [] then []
    else (if ranges[0].start < ranges[0].end then [ranges[0]] else []) + NonEmpty(ranges[1..])
  }

  lemma NonEmptyCovers(ranges: seq<Range>, x: int)
    ensures Covers(NonEmpty(ranges), x) <==> Covers(ranges, x)
  {
    if Covers(ranges, x) {
      var r :| r in ranges && r.Has(x);
      assert r in NonEmpty(ranges);
    }
  }

  /** Each range ends before the next one starts. */
  predicate Ascending(ranges: seq<Range>) {
    forall k, l :: 0 <= k < l < |ranges| ==> ranges[k].end <= ranges[l].start
  }

  lemma AscendingSnoc(ranges: seq<Range>, r: Range)
    requires Ascending(ranges) && EndBy(ranges, r.start)
    ensures Ascending(ranges + [r])
  {
  }

  predicate EndBy(ranges: seq<Range>, position: int) {
    forall k :: 0 <= k < |ranges| ==> ranges[k].end <= position
  }

  lemma {:induction false} NonEmptyAscending(ranges: seq<Range>)
    requires Ascending(ranges)
    ensures Ascending(NonEmpty(ranges))
  {
    if ranges != [] {
      var rest := NonEmpty(ranges[1..]);
      NonEmptyAscending(ranges[1..]);
      forall k | 0 <= k < |rest| ensures ranges[0].end <= rest[k].start {
        assert rest[k] in rest;
        assert rest[k] in ranges[1..];
      }
    }
  }

  /** The walk up to `position` has found exactly what the first intervals leave uncovered below it. */
  ghost predicate GapsBelow(found: seq<Range>, seen: seq<Range>, position: int, extent: int) {
    && (forall x :: x < position ==> (Covers(found, x) <==> 0 <= x < extent && !Covers(seen, x)))
    && (forall x :: x >= position ==> !Covers(found, x) && !Covers(seen, x))
    && (forall x :: Covers(found, x) ==> seen != [] && x < seen[|seen| - 1].start)
  }

  /** One interval more. */
  lemma GapsStep(found: seq<Range>, seen: seq<Range>, position: int, extent: int, r: Range)
    requires GapsBelow(found, seen, position, extent) && position >= 0
    requires SortedByStart(seen + [r]) && r.start <= r.end
    ensures GapsBelow(
              if r.start > position then found + [Range(position, Min(r.start, extent))] else found,
              seen + [r], Max(position, r.end), extent)
  {
    var after := seen + [r];
    assert seen != [] ==> after[|seen| - 1].start <= after[|seen|].start;
    assert after[|after| - 1] == r;
    var gap := Range(position, Min(r.start, extent));
    forall x ensures Covers(after, x) <==> Covers(seen, x) || r.Has(x) {
      CoversSnoc(seen, r, x);
    }
    forall x ensures Covers(found + [gap], x) <==> Covers(found, x) || gap.Has(x) {
      CoversSnoc(found, gap, x);
    }
  }

  /** Past the extent no later interval matters. */
  lemma GapsDone(found: seq<Range>, intervals: seq<Range>, n: nat, position: int, extent: int, x: int)
    requires n <= |intervals| && GapsBelow(found, intervals[..n], position, extent)
    requires SortedByStart(intervals) && position >= 0 && (n == |intervals| || position >= extent)
    ensures (Covers(found, x) || position <= x < extent) <==> (0 <= x < extent && !Covers(intervals, x))
  {
    assert intervals == intervals[..n] + intervals[n..];
    CoversConcat(intervals[..n], intervals[n..], x);
    if Covers(intervals[n..], x) {
      var k := CoveringIndex(intervals[n..], x);
      assert n > 0 ==> intervals[n - 1].start <= intervals[n + k].start;
    }
  }

  /** The sub-ranges of `[0, extent)` that `intervals` leaves uncovered. */
  method Complement(intervals: seq<Range>, extent: int) returns (gaps: seq<Range>)
    requires SortedByStart(intervals) && NoneReversed(intervals)
    ensures forall x :: Covers(gaps, x) <==> 0 <= x < extent && !Covers(intervals, x)
    ensures Ascending(gaps) && forall r :: r in gaps ==> r.start < r.end
  {
    assert GapsBelow([], intervals[..0], 0, extent);
    hide Covers;
    gaps := [];
    var position := 0;
    var n := 0;
    while n < |intervals|
      invariant 0 <= n <= |intervals| && position >= 0
      invariant Ascending(gaps) && EndBy(gaps, position)
      invariant GapsBelow(gaps, intervals[..n], position, extent)
    {
      assert intervals[..n + 1] == intervals[..n] + [intervals[n]];
      GapsStep(gaps, intervals[..n], position, extent, intervals[n]);
      if intervals[n].start > position {
        gaps := gaps + [Range(position, Min(intervals[n].start, extent))];
      }
      position := Max(position, intervals[n].end);
      n := n + 1;
      if position >= extent {
        break;
      }
    }
    forall x ensures (Covers(gaps, x) || position <= x < extent) <==> 0 <= x < extent && !Covers(intervals, x) {
      GapsDone(gaps, intervals, n, position, extent, x);
    }
    forall x ensures Covers(gaps + [Range(position, extent)], x) <==> Covers(gaps, x) || position <= x < extent {
      CoversSnoc(gaps, Range(position, extent), x);
    }
    AscendingSnoc(gaps, Range(position, extent));
    if position < extent {
      gaps := gaps + [Range(position, extent)];
    }
    NonEmptyAscending(gaps);
    forall x ensures Covers(NonEmpty(gaps), x) <==> Covers(gaps, x) {
      NonEmptyCovers(gaps, x);
    }
    gaps := NonEmpty(gaps);
  }

  // ----- Intersections -------------------------------------------------------------

  /** What is left of an intersection once `first[..i]` and `second[..j]` are done with. */
  ghost predicate BothLeft(first: seq<Range>, i: nat, second: seq<Range>, j: nat, x: int)
    requires i <= |first| && j <= |second|
  {
    Covers(first[i..], x) && Covers(second[j..], x)
  }

  /** Leaving the interval that ends first behind loses nothing but its overlap with the other head. */
  lemma DropEarlierEnd(first: seq<Range>, i: nat, second: seq<Range>, j: nat, x: int)
    requires i < |first| && j < |second| && SortedByStart(first) && SortedByStart(second)
    requires first[i].end <= second[j].end
    ensures BothLeft(first, i, second, j, x)
       <==> (first[i].Has(x) && second[j].Has(x)) || BothLeft(first, i + 1, second, j, x)
  {
    assert first[i..] == [first[i]] + first[i + 1..];
    CoversConcat([first[i]], first[i + 1..], x);
    assert Covers([first[i]], x) <==> first[i].Has(x) by { assert first[i] in [first[i]]; }
    assert second[j] in second[j..];
    if first[i].Has(x) && Covers(second[j..], x) {
      var k := CoveringIndex(second[j..], x);
      assert second[j].start <= second[j + k].start;
    }
  }

  /** Every overlap between an interval of each list. */
  method Intersections(first: seq<Range>, second: seq<Range>) returns (result: seq<Range>)
    requires SortedByStart(first) && SortedByStart(second)
    ensures forall x :: Covers(result, x) <==> Covers(first, x) && Covers(second, x)
    ensures forall r :: r in result ==> r.start < r.end
    ensures SortedByStart(result)
  {
    result := [];
    var i, j := 0, 0;
    assert first[0..] == first && second[0..] == second;
    while i < |first| && j < |second|
      invariant 0 <= i <= |first| && 0 <= j <= |second|
      invariant forall r :: r in result ==> r.start < r.end
      invariant SortedByStart(result)
      invariant i < |first| && j < |second| ==>
        forall k :: 0 <= k < |result| ==> result[k].start <= Max(first[i].start, second[j].start)
      invariant forall x :: Covers(first, x) && Covers(second, x)
                       <==> Covers(result, x) || BothLeft(first, i, second, j, x)
      decreases |first| - i + |second| - j
    {
      var overlap := Range(Max(first[i].start, second[j].start), Min(first[i].end, second[j].end));
      forall x
        ensures Covers(result + [overlap], x) <==> Covers(result, x) || (first[i].Has(x) && second[j].Has(x))
      {
        CoversSnoc(result, overlap, x);
      }
      if first[i].end <= second[j].end {
        forall x {
          DropEarlierEnd(first, i, second, j, x);
        }
      } else {
        forall x {
          DropEarlierEnd(second, j, first, i, x);
        }
      }
      ghost var before := result;
      if overlap.start < overlap.end {
        result := result + [overlap];
      }
      assert forall x :: Covers(result, x) <==> Covers(before, x) || (first[i].Has(x) && second[j].Has(x));
      if first[i].end <= second[j].end {
        i := i + 1;
      } else {
        j := j + 1;
      }
    }
  }

  /** The overlap list is empty iff the two lists share no offset. */
  lemma EmptyIffDisjoint(result: seq<Range>, first: seq<Range>, second: seq<Range>)
    requires forall x :: Covers(result, x) <==> Covers(first, x) && Covers(second, x)
    requires forall r :: r in result ==> r.start < r.end
    ensures result == [] <==> forall x :: !(Covers(first, x) && Covers(second, x))
  {
    if result != [] {
      assert result[0] in result && result[0].Has(result[0].start);
      assert Covers(result, result[0].start);
    }
  }
}
