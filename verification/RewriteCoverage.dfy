/** A rewritten stream accounts for its whole input: what it cites, and what it marks. */
module RewriteCoverage {
  import opened Prelude
  import opened Blocks
  import opened Intervals
  import opened OffsetSpace
  import opened Fills
  import opened Ledgers
  import opened CoverageCheck
  import opened Stages
  import opened Rewriting

  // ----- The input, accounted for -------------------------------------------------------------------

  /** Offset `x` holds no bytes: a break's declared width covers it. */
  ghost predicate InHole(blocks: seq<StreamBlock>, x: int) {
    exists i :: 0 <= i < |blocks| && Occupies(blocks, i, x) && blocks[i].Break?
  }

  ghost predicate InSurvivor(blocks: seq<StreamBlock>, survivors: seq<nat>, x: int) {
    exists i :: 0 <= i < |blocks| && Occupies(blocks, i, x) && blocks[i].Unit? && i in survivors
  }

  ghost predicate InDropped(blocks: seq<StreamBlock>, survivors: seq<nat>, x: int) {
    exists i :: 0 <= i < |blocks| && Occupies(blocks, i, x) && blocks[i].Unit? && i !in survivors
  }

  /** Where the last record ends; breaks after it are not counted. */
  function RecordsEnd(blocks: seq<StreamBlock>): nat {
    if blocks == [] then 0
    else if blocks[|blocks| - 1].Unit? then Total(blocks)
    else RecordsEnd(blocks[..|blocks| - 1])
  }

  lemma {:induction false} RecordsEndIsExtent(blocks: seq<StreamBlock>)
    ensures RecordsEnd(blocks) == StreamExtent(None, blocks, Decoded) <= Total(blocks)
  {
    if blocks != [] {
      RecordsEndIsExtent(blocks[..|blocks| - 1]);
      PositionalExtent(blocks[..|blocks| - 1]);
    }
    PositionalExtent(blocks);
  }

  lemma {:induction false} RecordsEndBy(blocks: seq<StreamBlock>, i: nat)
    requires i < |blocks| && blocks[i].Unit?
    ensures StartOf(blocks, i + 1) <= RecordsEnd(blocks)
  {
    var n, rest := |blocks| - 1, blocks[..|blocks| - 1];
    if i < n {
      assert rest[..i + 1] == blocks[..i + 1] && rest[i] == blocks[i];
      RecordsEndBy(rest, i);
      RecordsEndIsExtent(rest);
    } else {
      assert blocks[..n + 1] == blocks;
    }
  }

  lemma {:induction false} HolesAfterRecords(blocks: seq<StreamBlock>, x: int)
    requires RecordsEnd(blocks) <= x < Total(blocks)
    ensures InHole(blocks, x)
  {
    var n, rest := |blocks| - 1, blocks[..|blocks| - 1];
    if x < Total(rest) {
      HolesAfterRecords(rest, x);
      HoleOfPrefix(blocks, x);
    } else {
      assert blocks[..n + 1] == blocks;
      assert Occupies(blocks, n, x);
    }
  }

  lemma HoleOfPrefix(blocks: seq<StreamBlock>, x: int)
    requires blocks != [] && InHole(blocks[..|blocks| - 1], x)
    ensures InHole(blocks, x)
  {
    var rest := blocks[..|blocks| - 1];
    var i :| 0 <= i < |rest| && Occupies(rest, i, x) && rest[i].Break?;
    assert rest[..i] == blocks[..i] && rest[..i + 1] == blocks[..i + 1];
    assert Occupies(blocks, i, x);
  }

  /** Every offset of the input is in exactly one survivor's span, one hole or one dropped record. */
  lemma StreamIsPartitioned(blocks: seq<StreamBlock>, survivors: seq<nat>, x: int)
    ensures 0 <= x < Total(blocks) <==> InSurvivor(blocks, survivors, x) || InHole(blocks, x) || InDropped(blocks, survivors, x)
    ensures !(InSurvivor(blocks, survivors, x) && InHole(blocks, x))
    ensures !(InSurvivor(blocks, survivors, x) && InDropped(blocks, survivors, x))
    ensures !(InHole(blocks, x) && InDropped(blocks, survivors, x))
  {
    assert blocks[..|blocks|] == blocks;
    if 0 <= x < Total(blocks) {
      var i := SomeOccupant(blocks, |blocks|, x);
    }
    forall i: nat, j: nat | Occupies(blocks, i, x) && Occupies(blocks, j, x) ensures i == j {
      OneOccupant(blocks, i, j, x);
    }
    forall i: nat | Occupies(blocks, i, x) ensures 0 <= x < Total(blocks) {
      StartsAscend(blocks, i + 1, |blocks|);
    }
    hide Occupies, Total;
  }

  // ----- What the emitted records cite -----------------------------------------------------------------

  lemma {:induction false} RecordsConcat(a: seq<StreamBlock>, b: seq<StreamBlock>)
    ensures RecordsOf(a + b) == RecordsOf(a) + RecordsOf(b)
  {
    if b == [] {
      assert a + b == a;
    } else {
      var rest, last := b[..|b| - 1], b[|b| - 1];
      RecordsConcat(a, rest);
      assert (a + b)[..|a + b| - 1] == a + rest;
    }
  }

  lemma {:induction false} BreaksHoldNoRecord(blocks: seq<StreamBlock>)
    requires forall k :: 0 <= k < |blocks| ==> blocks[k].Break?
    ensures RecordsOf(blocks) == []
  {
    if blocks != [] {
      BreaksHoldNoRecord(blocks[..|blocks| - 1]);
    }
  }

  lemma LeadIsBreaks(ids: Ids, blocks: seq<StreamBlock>, survivors: seq<nat>, k: nat)
    requires Survivors(blocks, survivors) && Fits(blocks) && k < |survivors|
    ensures RecordsOf(Lead(ids, blocks, survivors, k)) == []
  {
    BreaksHoldNoRecord(Lead(ids, blocks, survivors, k));
  }

  /** The span the `k`th survivor is written with. */
  function SpanOf(ids: Ids, blocks: seq<StreamBlock>, survivors: seq<nat>, k: nat): Span
    requires Survivors(blocks, survivors) && Fits(blocks) && k < |survivors|
  {
    StartFits(blocks, survivors[k]);
    StartFits(blocks, survivors[k] + 1);
    Span(ids.source, ids.inSession, ids.inPid, StartOf(blocks, survivors[k]), StartOf(blocks, survivors[k] + 1))
  }

  lemma {:induction false} EmittedSpans(ids: Ids, blocks: seq<StreamBlock>, survivors: seq<nat>, n: nat)
    requires Survivors(blocks, survivors) && Fits(blocks) && n <= |survivors|
    ensures var spans := AllSpans(RecordsOf(Emitted(ids, blocks, survivors, n)));
      |spans| == n && forall k :: 0 <= k < n ==> spans[k] == SpanOf(ids, blocks, survivors, k)
  {
    hide Emitted, RecordsOf, AllSpans, SpanOf, Survivors, Fits;
    if n == 0 {
      NothingEmittedYet(ids, blocks, survivors);
    } else {
      EmittedSpans(ids, blocks, survivors, n - 1);
      OneMoreSpan(ids, blocks, survivors, n - 1);
    }
  }

  lemma NothingEmittedYet(ids: Ids, blocks: seq<StreamBlock>, survivors: seq<nat>)
    requires Survivors(blocks, survivors) && Fits(blocks)
    ensures AllSpans(RecordsOf(Emitted(ids, blocks, survivors, 0))) == []
  {
    assert Emitted(ids, blocks, survivors, 0) == [];
  }

  lemma OneMoreSpan(ids: Ids, blocks: seq<StreamBlock>, survivors: seq<nat>, n: nat)
    requires Survivors(blocks, survivors) && Fits(blocks) && n < |survivors|
    ensures AllSpans(RecordsOf(Emitted(ids, blocks, survivors, n + 1)))
         == AllSpans(RecordsOf(Emitted(ids, blocks, survivors, n))) + [SpanOf(ids, blocks, survivors, n)]
  {
    var before, lead := Emitted(ids, blocks, survivors, n), Lead(ids, blocks, survivors, n);
    var unit := Survivor(ids, blocks, survivors, n);
    SurvivorCites(ids, blocks, survivors, n);
    hide StartOf, Lead, Survivor, SpanOf;
    assert Emitted(ids, blocks, survivors, n + 1) == before + lead + [unit];
    hide Emitted, RecordsOf, AllSpans;
    LeadIsBreaks(ids, blocks, survivors, n);
    RecordsConcat(before, lead);
    RecordsConcat(before + lead, [unit]);
    OneRecord(unit);
    assert RecordsOf(before) + [] == RecordsOf(before);
    AllSpansSnoc(RecordsOf(before), unit.record);
  }

  lemma SurvivorCites(ids: Ids, blocks: seq<StreamBlock>, survivors: seq<nat>, k: nat)
    requires Survivors(blocks, survivors) && Fits(blocks) && k < |survivors|
    ensures var unit := Survivor(ids, blocks, survivors, k);
      unit.Unit? && unit.record.spans == [SpanOf(ids, blocks, survivors, k)]
  {
  }

  lemma OneRecord(b: StreamBlock)
    requires b.Unit?
    ensures RecordsOf([b]) == [b.record]
  {
    assert [b][..0] == [];
  }

  function InputKey(ids: Ids): Key {
    Key(ids.inSession, ids.inPid)
  }

  /** The emitted records cite exactly the offsets of the surviving ones. */
  lemma SpansCiteSurvivors(ids: Ids, blocks: seq<StreamBlock>, survivors: seq<nat>, key: Key, x: int)
    requires Survivors(blocks, survivors) && Fits(blocks)
    ensures CitedBy(AllSpans(RecordsOf(Emitted(ids, blocks, survivors, |survivors|))), ids.source, key, x)
       <==> key == InputKey(ids) && InSurvivor(blocks, survivors, x)
  {
    var spans := AllSpans(RecordsOf(Emitted(ids, blocks, survivors, |survivors|)));
    EmittedSpans(ids, blocks, survivors, |survivors|);
    SpansName(ids, blocks, survivors, spans, key, x);
  }

  lemma SpansName(ids: Ids, blocks: seq<StreamBlock>, survivors: seq<nat>, spans: seq<Span>, key: Key, x: int)
    requires Survivors(blocks, survivors) && Fits(blocks) && |spans| == |survivors|
    requires forall k :: 0 <= k < |spans| ==> spans[k] == SpanOf(ids, blocks, survivors, k)
    ensures CitedBy(spans, ids.source, key, x) <==> key == InputKey(ids) && InSurvivor(blocks, survivors, x)
  {
    hide StartOf;
    if CitedBy(spans, ids.source, key, x) {
      var sp :| sp in spans && NamesOffset(sp, ids.source, key, x);
      var k :| 0 <= k < |spans| && spans[k] == sp;
      assert sp == SpanOf(ids, blocks, survivors, k);
      assert Occupies(blocks, survivors[k], x);
    }
    if key == InputKey(ids) && InSurvivor(blocks, survivors, x) {
      var i :| 0 <= i < |blocks| && Occupies(blocks, i, x) && blocks[i].Unit? && i in survivors;
      var k :| 0 <= k < |survivors| && survivors[k] == i;
      assert spans[k] == SpanOf(ids, blocks, survivors, k) && spans[k] in spans;
      assert NamesOffset(spans[k], ids.source, key, x);
    }
  }

  // ----- The guarantee ---------------------------------------------------------------------------------

  /** The markers of a rewrite: `gap` on the holes, `dropped` on the dropped records, nothing else. */
  ghost predicate MarksOfRewrite(ids: Ids, blocks: seq<StreamBlock>, survivors: seq<nat>, marks: seq<Undecoded>) {
    && (forall x :: MarkedAs(marks, GAP, x) <==> InHole(blocks, x))
    && (forall x :: MarkedAs(marks, DROPPED, x) <==> InDropped(blocks, survivors, x))
    && forall k :: 0 <= k < |marks| ==>
      && marks[k].sourceId == ids.source && marks[k].sessionId == ids.inSession && marks[k].participantId == ids.inPid
      && marks[k].offStart < marks[k].offEnd && marks[k].reason in {Some(GAP), Some(DROPPED)}
      && marks[k].reasonClass.None?
  }

  lemma MarkedForAReason(ids: Ids, blocks: seq<StreamBlock>, survivors: seq<nat>, marks: seq<Undecoded>, key: Key, x: int)
    requires MarksOfRewrite(ids, blocks, survivors, marks)
    ensures MarkedBy(marks, ids.source, key, x)
       <==> key == InputKey(ids) && (InHole(blocks, x) || InDropped(blocks, survivors, x))
  {
    hide InHole, InDropped;
    if MarkedBy(marks, ids.source, key, x) {
      var u :| u in marks && MarksOffset(u, ids.source, key, x);
      var k :| 0 <= k < |marks| && marks[k] == u;
      assert MarkedAs(marks, GAP, x) || MarkedAs(marks, DROPPED, x);
    }
    if key == InputKey(ids) && (InHole(blocks, x) || InDropped(blocks, survivors, x)) {
      assert MarkedAs(marks, GAP, x) || MarkedAs(marks, DROPPED, x);
      var k :| 0 <= k < |marks| && marks[k].offStart <= x < marks[k].offEnd;
      assert marks[k] in marks && MarksOffset(marks[k], ids.source, key, x);
    }
  }

  /**
   * Every offset of the input up to its last block is cited by one emitted record, or marked `gap`,
   * or marked `dropped`, and no two of these.
   */
  lemma OutputPartitionsInput(ids: Ids, blocks: seq<StreamBlock>, survivors: seq<nat>, marks: seq<Undecoded>, x: int)
    requires Survivors(blocks, survivors) && Fits(blocks) && MarksOfRewrite(ids, blocks, survivors, marks)
    ensures var spans := AllSpans(RecordsOf(Emitted(ids, blocks, survivors, |survivors|)));
      var cited, gap, dropped := CitedBy(spans, ids.source, InputKey(ids), x), MarkedAs(marks, GAP, x), MarkedAs(marks, DROPPED, x);
      && (0 <= x < Total(blocks) <==> cited || gap || dropped)
      && !(cited && gap) && !(cited && dropped) && !(gap && dropped)
  {
    SpansCiteSurvivors(ids, blocks, survivors, InputKey(ids), x);
    StreamIsPartitioned(blocks, survivors, x);
    hide InHole, InDropped, InSurvivor, MarkedAs, CitedBy, Emitted, Survivors, Fits, Total, AllSpans, RecordsOf;
  }

  /** The two accounts of one offset, cited and marked. */
  ghost predicate AccountedAs(spans: seq<Span>, marks: seq<Undecoded>, source: u16, key: Key, x: int,
                              cited: bool, marked: bool) {
    (CitedBy(spans, source, key, x) <==> cited) && (MarkedBy(marks, source, key, x) <==> marked)
  }

  /** The validator finds nothing exactly when no declared width follows the last record. */
  lemma RewriteIsCleanIff(ids: Ids, blocks: seq<StreamBlock>, survivors: seq<nat>, marks: seq<Undecoded>)
    requires Survivors(blocks, survivors) && Fits(blocks) && MarksOfRewrite(ids, blocks, survivors, marks)
    ensures StreamClean(AllSpans(RecordsOf(Emitted(ids, blocks, survivors, |survivors|))), marks,
                        ids.source, InputKey(ids), StreamExtent(None, blocks, Decoded), [])
       <==> Total(blocks) == RecordsEnd(blocks)
  {
    var spans := AllSpans(RecordsOf(Emitted(ids, blocks, survivors, |survivors|)));
    RecordsEndIsExtent(blocks);
    hide Emitted, Survivors, Fits, AllSpans, RecordsOf, MarksOfRewrite, StreamExtent, Total, RecordsEnd;
    forall x
      ensures AccountedAs(spans, marks, ids.source, InputKey(ids), x,
                          InSurvivor(blocks, survivors, x), InHole(blocks, x) || InDropped(blocks, survivors, x))
    {
      SpansCiteSurvivors(ids, blocks, survivors, InputKey(ids), x);
      MarkedForAReason(ids, blocks, survivors, marks, InputKey(ids), x);
    }
    PartitionIsClean(blocks, survivors, spans, marks, ids.source, InputKey(ids));
  }

  lemma PartitionIsClean(blocks: seq<StreamBlock>, survivors: seq<nat>, spans: seq<Span>, marks: seq<Undecoded>,
                         source: u16, key: Key)
    requires forall x :: AccountedAs(spans, marks, source, key, x,
                                     InSurvivor(blocks, survivors, x),
                                     InHole(blocks, x) || InDropped(blocks, survivors, x))
    ensures RecordsEnd(blocks) <= Total(blocks)
    ensures StreamClean(spans, marks, source, key, RecordsEnd(blocks), []) <==> Total(blocks) == RecordsEnd(blocks)
  {
    RecordsEndIsExtent(blocks);
    hide InHole, InDropped, InSurvivor, CitedBy, MarkedBy, Total, RecordsEnd;
    forall x
      ensures AccountedFor(spans, marks, source, key, x) <==> 0 <= x < Total(blocks)
      ensures !(CitedBy(spans, source, key, x) && MarkedBy(marks, source, key, x))
    {
      assert AccountedAs(spans, marks, source, key, x,
                         InSurvivor(blocks, survivors, x), InHole(blocks, x) || InDropped(blocks, survivors, x));
      StreamIsPartitioned(blocks, survivors, x);
    }
    hide AccountedFor;
    if Total(blocks) > RecordsEnd(blocks) {
      assert AccountedFor(spans, marks, source, key, RecordsEnd(blocks));
    }
  }

  // ----- The rewrite itself ----------------------------------------------------------------------------

  const DROPPED := "dropped"

  /** Some block marks offset `x` with this reason. */
  ghost predicate MarkedAs(marks: seq<Undecoded>, reason: string, x: int) {
    exists k :: 0 <= k < |marks| && marks[k].reason == Some(reason) && marks[k].offStart <= x < marks[k].offEnd
  }

  function MarkAll(ids: Ids, ranges: seq<Range>, reason: string): (marks: seq<Undecoded>)
    ensures |marks| == |ranges|
    ensures forall k :: 0 <= k < |marks| ==>
      marks[k] == Undecoded(ids.source, ids.inSession, ids.inPid, ranges[k].start, ranges[k].end, Some(reason), None)
  {
    seq(|ranges|, k requires 0 <= k < |ranges| =>
      Undecoded(ids.source, ids.inSession, ids.inPid, ranges[k].start, ranges[k].end, Some(reason), None))
  }

  lemma MarkAllMarks(ids: Ids, ranges: seq<Range>, reason: string, other: string, x: int)
    ensures MarkedAs(MarkAll(ids, ranges, reason), other, x) <==> other == reason && Covers(ranges, x)
  {
    var marks := MarkAll(ids, ranges, reason);
    if MarkedAs(marks, other, x) {
      var k :| 0 <= k < |marks| && marks[k].reason == Some(other) && marks[k].offStart <= x < marks[k].offEnd;
      assert ranges[k] in ranges && ranges[k].Has(x);
    }
    if other == reason && Covers(ranges, x) {
      var k := CoveringIndex(ranges, x);
      assert marks[k].reason == Some(other);
    }
  }

  lemma MarkedAsConcat(a: seq<Undecoded>, b: seq<Undecoded>, reason: string, x: int)
    ensures MarkedAs(a + b, reason, x) <==> MarkedAs(a, reason, x) || MarkedAs(b, reason, x)
  {
    var all := a + b;
    if k :| 0 <= k < |a| && a[k].reason == Some(reason) && a[k].offStart <= x < a[k].offEnd {
      assert all[k] == a[k];
    }
    if k :| 0 <= k < |b| && b[k].reason == Some(reason) && b[k].offStart <= x < b[k].offEnd {
      assert all[|a| + k] == b[k];
    }
    if k :| 0 <= k < |all| && all[k].reason == Some(reason) && all[k].offStart <= x < all[k].offEnd {
      assert k < |a| ==> all[k] == a[k];
      assert k >= |a| ==> all[k] == b[k - |a|];
    }
  }

  /** The range each break of the input takes up. */
  method HoleRanges(blocks: seq<StreamBlock>) returns (holes: seq<Range>)
    ensures forall x :: Covers(holes, x) <==> InHole(blocks, x)
    ensures forall r :: r in holes ==> r.start <= r.end
  {
    holes := [];
    var cursor := 0;
    assert blocks[..0] == [];
    for n := 0 to |blocks|
      invariant cursor == StartOf(blocks, n) && forall r :: r in holes ==> r.start <= r.end
      invariant forall x :: Covers(holes, x) <==> HoleBelow(blocks, n, x)
    {
      NextStart(blocks, n);
      forall x ensures HoleBelow(blocks, n + 1, x) <==> HoleBelow(blocks, n, x) || (blocks[n].Break? && Occupies(blocks, n, x)) {
      }
      if blocks[n].Break? {
        var r := Range(cursor, cursor + blocks[n].brk.Width());
        forall x ensures Covers(holes + [r], x) <==> Covers(holes, x) || r.Has(x) {
          CoversSnoc(holes, r, x);
        }
        holes := holes + [r];
      }
      cursor := cursor + Advance(blocks[n]);
    }
  }

  ghost predicate HoleBelow(blocks: seq<StreamBlock>, n: nat, x: int)
    requires n <= |blocks|
  {
    exists i :: 0 <= i < n && Occupies(blocks, i, x) && blocks[i].Break?
  }

  /** The survivors' input ranges, from what a reader of the input computes for its records. */
  method KeptRanges(blocks: seq<StreamBlock>, survivors: seq<nat>) returns (kept: seq<Range>)
    requires Survivors(blocks, survivors)
    ensures |kept| == |survivors|
    ensures forall k :: 0 <= k < |kept| ==> kept[k] == Range(StartOf(blocks, survivors[k]), StartOf(blocks, survivors[k] + 1))
  {
    var ranges := RecordRanges(None, blocks, Decoded);
    assert blocks[..|blocks|] == blocks;
    kept := [];
    for n := 0 to |survivors|
      invariant |kept| == n
      invariant forall k :: 0 <= k < n ==>
        kept[k] == Range(StartOf(blocks, survivors[k]), StartOf(blocks, survivors[k] + 1))
    {
      InputRange(blocks, |blocks|, survivors[n]);
      kept := kept + [ranges.value[|RecordsOf(blocks[..survivors[n]])|]];
    }
  }

  lemma KeptCovers(blocks: seq<StreamBlock>, survivors: seq<nat>, kept: seq<Range>, x: int)
    requires Survivors(blocks, survivors) && |kept| == |survivors|
    requires forall k :: 0 <= k < |kept| ==> kept[k] == Range(StartOf(blocks, survivors[k]), StartOf(blocks, survivors[k] + 1))
    ensures Covers(kept, x) <==> InSurvivor(blocks, survivors, x)
  {
    hide StartOf;
    if Covers(kept, x) {
      var k := CoveringIndex(kept, x);
      assert Occupies(blocks, survivors[k], x);
    }
    if InSurvivor(blocks, survivors, x) {
      var i :| 0 <= i < |blocks| && Occupies(blocks, i, x) && blocks[i].Unit? && i in survivors;
      var k :| 0 <= k < |survivors| && survivors[k] == i;
      assert kept[k] in kept && kept[k].Has(x);
    }
  }

  /** What neither a survivor nor a hole accounts for is what was dropped. */
  lemma UncoveredIsDropped(blocks: seq<StreamBlock>, survivors: seq<nat>, x: int)
    ensures InDropped(blocks, survivors, x)
       <==> 0 <= x < RecordsEnd(blocks) && !InSurvivor(blocks, survivors, x) && !InHole(blocks, x)
  {
    StreamIsPartitioned(blocks, survivors, x);
    RecordsEndIsExtent(blocks);
    if InDropped(blocks, survivors, x) {
      var i :| 0 <= i < |blocks| && Occupies(blocks, i, x) && blocks[i].Unit? && i !in survivors;
      RecordsEndBy(blocks, i);
    }
    hide RecordsEnd, InHole, InSurvivor, InDropped, Total;
  }

  lemma PendingNone(blocks: seq<StreamBlock>, survivors: seq<nat>)
    ensures PendingAt(blocks, survivors, 0) == []
  {
  }

  lemma PendingNext(blocks: seq<StreamBlock>, survivors: seq<nat>, n: nat)
    requires n < |blocks|
    ensures PendingAt(blocks, survivors, n + 1)
         == if blocks[n].Break? then PendingAt(blocks, survivors, n) + [blocks[n].brk]
            else if n in survivors then [] else PendingAt(blocks, survivors, n)
  {
  }

  /** The input's breaks, attached to the survivor each stands before. */
  method InheritedBreaks(blocks: seq<StreamBlock>, survivors: seq<nat>) returns (attached: map<nat, seq<Discontinuity>>)
    ensures forall i :: 0 <= i < |blocks| && blocks[i].Unit? && i in survivors ==>
      (if i in attached then attached[i] else []) == PendingAt(blocks, survivors, i)
  {
    hide PendingAt;
    PendingNone(blocks, survivors);
    attached := map[];
    var pending: seq<Discontinuity> := [];
    for n := 0 to |blocks|
      invariant pending == PendingAt(blocks, survivors, n)
      invariant forall i :: i in attached ==> i < n
      invariant forall i :: 0 <= i < n && blocks[i].Unit? && i in survivors ==>
        (if i in attached then attached[i] else []) == PendingAt(blocks, survivors, i)
    {
      PendingNext(blocks, survivors, n);
      match blocks[n]
      case Break(brk) =>
        pending := pending + [brk];
      case Unit(_) =>
        if n in survivors && pending != [] {
          attached := attached[n := pending];
          pending := [];
        }
    }
  }

  /** A break of the stage's own: out of order, or with records withheld in between. */
  method DeclareSeam(ids: Ids, ends: nat, begins: nat, carried: nat) returns (seam: seq<StreamBlock>)
    requires begins < U64_END
    ensures seam == Seam(ids, ends, begins, carried)
  {
    if begins < ends {
      return [Break(Discontinuity(ids.session, ids.pid, None, Some(REORDERED), None))];
    }
    var withheld: int := begins - ends - carried;
    if withheld > 0 {
      return [Break(Discontinuity(ids.session, ids.pid, Some(withheld), Some(RECORDS_DROPPED), None))];
    }
    return [];
  }

  /** The break blocks carried forward, and the width they declare. */
  method CarryForward(ids: Ids, breaks: seq<Discontinuity>) returns (out: seq<StreamBlock>, carried: nat)
    ensures out == CarriedForward(ids, breaks) && carried == Widths(breaks)
  {
    out, carried := [], 0;
    for n := 0 to |breaks|
      invariant out == CarriedForward(ids, breaks[..n]) && carried == Widths(breaks[..n])
    {
      assert breaks[..n + 1][..n] == breaks[..n];
      out := out + [Break(Readdressed(ids, breaks[n]))];
      carried := carried + breaks[n].Width();
    }
    assert breaks[..|breaks|] == breaks;
  }

  /** The surviving records with the breaks between them, in the order given. */
  method EmitSurvivors(ids: Ids, blocks: seq<StreamBlock>, survivors: seq<nat>, kept: seq<Range>)
    returns (emitted: seq<StreamBlock>)
    requires Survivors(blocks, survivors) && Fits(blocks) && |kept| == |survivors|
    requires forall k :: 0 <= k < |kept| ==> kept[k] == Range(StartOf(blocks, survivors[k]), StartOf(blocks, survivors[k] + 1))
    ensures emitted == Emitted(ids, blocks, survivors, |survivors|)
  {
    hide *;
    var inherited := InheritedBreaks(blocks, survivors);
    emitted := [];
    NoneEmitted(ids, blocks, survivors);
    for n := 0 to |survivors|
      invariant emitted == Emitted(ids, blocks, survivors, n)
    {
      SurvivorIs(ids, blocks, survivors, n);
      var i := survivors[n];
      var own := if i in inherited then inherited[i] else [];
      var lead, carried := CarryForward(ids, own);
      if n > 0 {
        SurvivorIs(ids, blocks, survivors, n - 1);
        var seam := DeclareSeam(ids, kept[n - 1].end, kept[n].start, carried);
        lead := lead + seam;
      } else {
        assert lead + [] == lead;
      }
      var r := blocks[i].record;
      var span := Span(ids.source, ids.inSession, ids.inPid, kept[n].start, kept[n].end);
      var out := Record(ids.session, ids.pid, ids.source, r.timestamp, r.payload, r.flags, None, None, None,
                        [span], r.decoderId, r.contentType, r.role, None, []);
      emitted := emitted + lead + [Unit(out)];
    }
  }

  lemma NoneEmitted(ids: Ids, blocks: seq<StreamBlock>, survivors: seq<nat>)
    requires Survivors(blocks, survivors) && Fits(blocks)
    ensures Emitted(ids, blocks, survivors, 0) == []
  {
  }

  /** What the `n`th survivor adds to the output, piece by piece. */
  lemma SurvivorIs(ids: Ids, blocks: seq<StreamBlock>, survivors: seq<nat>, n: nat)
    requires Survivors(blocks, survivors) && Fits(blocks) && n < |survivors|
    ensures var i := survivors[n];
      && i < |blocks| && blocks[i].Unit? && i in survivors
      && StartOf(blocks, i) < U64_END && StartOf(blocks, i + 1) < U64_END
    ensures var i, pending, r := survivors[n], PendingAt(blocks, survivors, survivors[n]), blocks[survivors[n]].record;
      Emitted(ids, blocks, survivors, n + 1)
      == Emitted(ids, blocks, survivors, n)
         + (CarriedForward(ids, pending)
            + if n == 0 then [] else Seam(ids, StartOf(blocks, survivors[n - 1] + 1), StartOf(blocks, i), Widths(pending)))
         + [Unit(Record(ids.session, ids.pid, ids.source, r.timestamp, r.payload, r.flags, None, None, None,
                        [Span(ids.source, ids.inSession, ids.inPid, StartOf(blocks, i), StartOf(blocks, i + 1))],
                        r.decoderId, r.contentType, r.role, None, []))]
  {
    StartFits(blocks, survivors[n]);
    StartFits(blocks, survivors[n] + 1);
    hide StartOf, PendingAt, CarriedForward, Seam, Widths, Fits;
  }

  /**
   * Rewrite one stream: its survivors, and Undecoded blocks for the rest. `survivors` is what
   * `keep` and `reorder` decided.
   */
  method RewriteStream(ids: Ids, blocks: seq<StreamBlock>, survivors: seq<nat>)
    returns (emitted: seq<StreamBlock>, marks: seq<Undecoded>)
    requires Survivors(blocks, survivors) && Fits(blocks)
    ensures emitted == Emitted(ids, blocks, survivors, |survivors|)
    ensures AllCarriedOver(ids, RecordsOf(emitted), blocks, survivors, |survivors|)
    ensures MarksOfRewrite(ids, blocks, survivors, marks)
    ensures forall key, x :: CitedBy(AllSpans(RecordsOf(emitted)), ids.source, key, x)
                        <==> key == InputKey(ids) && InSurvivor(blocks, survivors, x)
    ensures StreamClean(AllSpans(RecordsOf(emitted)), marks, ids.source, InputKey(ids), StreamExtent(None, blocks, Decoded), [])
       <==> Total(blocks) == RecordsEnd(blocks)
  {
    hide *;
    var kept := KeptRanges(blocks, survivors);
    var holes := HoleRanges(blocks);
    emitted := EmitSurvivors(ids, blocks, survivors, kept);
    EmittedCarryOver(ids, blocks, survivors, |survivors|);
    NoneReversedIn(blocks, survivors, kept, holes);
    var extent := LastRecordEnd(blocks);
    var dropped := Complement(Sorted(kept + holes), extent);
    marks := MarkAll(ids, NonEmpty(holes), GAP) + MarkAll(ids, dropped, DROPPED);
    assert forall k :: 0 <= k < |NonEmpty(holes)| ==> NonEmpty(holes)[k] in NonEmpty(holes);
    assert forall k :: 0 <= k < |dropped| ==> dropped[k] in dropped;
    forall x
      ensures MarkedAs(marks, GAP, x) <==> InHole(blocks, x)
      ensures MarkedAs(marks, DROPPED, x) <==> InDropped(blocks, survivors, x)
    {
      MarkedAsConcat(MarkAll(ids, NonEmpty(holes), GAP), MarkAll(ids, dropped, DROPPED), GAP, x);
      MarkedAsConcat(MarkAll(ids, NonEmpty(holes), GAP), MarkAll(ids, dropped, DROPPED), DROPPED, x);
      MarkAllMarks(ids, NonEmpty(holes), GAP, GAP, x);
      MarkAllMarks(ids, NonEmpty(holes), GAP, DROPPED, x);
      MarkAllMarks(ids, dropped, DROPPED, GAP, x);
      MarkAllMarks(ids, dropped, DROPPED, DROPPED, x);
      NonEmptyCovers(holes, x);
      SortedCovers(kept + holes, x);
      CoversConcat(kept, holes, x);
      KeptCovers(blocks, survivors, kept, x);
      UncoveredIsDropped(blocks, survivors, x);
      WordsDiffer();
    }
    AreMarksOfRewrite(ids, blocks, survivors, marks);
    RewriteIsCleanIff(ids, blocks, survivors, marks);
    forall key, x
      ensures CitedBy(AllSpans(RecordsOf(emitted)), ids.source, key, x)
         <==> key == InputKey(ids) && InSurvivor(blocks, survivors, x)
    {
      SpansCiteSurvivors(ids, blocks, survivors, key, x);
    }
  }

  lemma AreMarksOfRewrite(ids: Ids, blocks: seq<StreamBlock>, survivors: seq<nat>, marks: seq<Undecoded>)
    requires forall x :: MarkedAs(marks, GAP, x) <==> InHole(blocks, x)
    requires forall x :: MarkedAs(marks, DROPPED, x) <==> InDropped(blocks, survivors, x)
    requires forall k :: 0 <= k < |marks| ==>
      && marks[k].sourceId == ids.source && marks[k].sessionId == ids.inSession && marks[k].participantId == ids.inPid
      && marks[k].offStart < marks[k].offEnd && marks[k].reason in {Some(GAP), Some(DROPPED)}
      && marks[k].reasonClass.None?
    ensures MarksOfRewrite(ids, blocks, survivors, marks)
  {
  }

  lemma WordsDiffer()
    ensures GAP != DROPPED
  {
    assert |GAP| != |DROPPED|;
  }

  /** One past the last record's range, or 0 if the stream has none. */
  method LastRecordEnd(blocks: seq<StreamBlock>) returns (extent: nat)
    ensures extent == RecordsEnd(blocks)
  {
    var ranges := PositionalWalk(blocks);
    PositionalExtent(blocks);
    RecordsEndIsExtent(blocks);
    assert IsPositional(None, RecordsOf(blocks), Decoded);
    extent := if ranges == [] then 0 else ranges[|ranges| - 1].end;
  }

  lemma NoneReversedIn(blocks: seq<StreamBlock>, survivors: seq<nat>, kept: seq<Range>, holes: seq<Range>)
    requires Survivors(blocks, survivors) && |kept| == |survivors|
    requires forall k :: 0 <= k < |kept| ==> kept[k] == Range(StartOf(blocks, survivors[k]), StartOf(blocks, survivors[k] + 1))
    requires forall r :: r in holes ==> r.start <= r.end
    ensures NoneReversed(Sorted(kept + holes))
  {
    hide Sorted, StartOf, NoneReversed;
    forall r | r in kept + holes ensures r.start <= r.end {
      if r in kept {
        var l :| 0 <= l < |kept| && kept[l] == r;
        StartsAscend(blocks, survivors[l], survivors[l] + 1);
      }
    }
    NoneReversedSorted(kept + holes);
  }

  /** No marker reaches past the extent iff no declared width follows the last record. */
  lemma MarksStayInside(blocks: seq<StreamBlock>, survivors: seq<nat>, marks: seq<Undecoded>)
    requires forall x :: MarkedAs(marks, GAP, x) <==> InHole(blocks, x)
    requires forall x :: MarkedAs(marks, DROPPED, x) <==> InDropped(blocks, survivors, x)
    ensures (forall x :: MarkedAs(marks, GAP, x) || MarkedAs(marks, DROPPED, x) ==> x < RecordsEnd(blocks))
       <==> Total(blocks) == RecordsEnd(blocks)
  {
    RecordsEndIsExtent(blocks);
    forall x ensures MarkedAs(marks, GAP, x) || MarkedAs(marks, DROPPED, x) ==> x < Total(blocks) {
      StreamIsPartitioned(blocks, survivors, x);
    }
    hide MarkedAs, InHole, InDropped, Total, RecordsEnd;
    if Total(blocks) > RecordsEnd(blocks) {
      HolesAfterRecords(blocks, RecordsEnd(blocks));
      assert MarkedAs(marks, GAP, RecordsEnd(blocks));
    }
  }

  /** A record with a break of known width after it: the width is marked past the extent. */
  lemma TrailingWidthIsExcess(ids: Ids, r: Record, brk: Discontinuity, survivors: seq<nat>, marks: seq<Undecoded>)
    requires brk.Width() > 0 && |r.payload| + brk.Width() < U64_END
    requires survivors == [0] && MarksOfRewrite(ids, [Unit(r), Break(brk)], survivors, marks)
    ensures Survivors([Unit(r), Break(brk)], survivors) && Fits([Unit(r), Break(brk)])
    ensures !StreamClean(AllSpans(RecordsOf(Emitted(ids, [Unit(r), Break(brk)], survivors, 1))), marks,
                         ids.source, InputKey(ids), StreamExtent(None, [Unit(r), Break(brk)], Decoded), [])
  {
    var blocks := [Unit(r), Break(brk)];
    WidthAfterRecord(r, brk);
    hide Total, RecordsEnd, Emitted, MarksOfRewrite, StreamExtent, AllSpans, RecordsOf;
    RewriteIsCleanIff(ids, blocks, survivors, marks);
  }

  lemma WidthAfterRecord(r: Record, brk: Discontinuity)
    ensures Total([Unit(r), Break(brk)]) == |r.payload| + brk.Width()
    ensures RecordsEnd([Unit(r), Break(brk)]) == |r.payload|
  {
    var blocks := [Unit(r), Break(brk)];
    assert blocks[..1] == [Unit(r)] && [Unit(r)][..0] == [];
    assert Total([Unit(r)]) == |r.payload|;
  }
}
