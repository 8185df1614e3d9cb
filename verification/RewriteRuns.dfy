/** A rewritten stream never leaves a forward gap of its input unmarked. */
module RewriteRuns {
  import opened Prelude
  import opened Blocks
  import opened UnmarkedBreaks
  import opened Rewriting

  // ----- No forward gap is left unmarked ---------------------------------------------------------

  function ToFile(blocks: seq<StreamBlock>): (file: seq<FileBlock>)
    ensures |file| == |blocks|
    ensures forall k :: 0 <= k < |file| ==>
      file[k] == if blocks[k].Unit? then RecordBlock(blocks[k].record) else BreakBlock(blocks[k].brk)
  {
    seq(|blocks|, k requires 0 <= k < |blocks| =>
      if blocks[k].Unit? then RecordBlock(blocks[k].record) else BreakBlock(blocks[k].brk))
  }

  ghost predicate NoGapBetween(earlier: Record, later: Record) {
    forall key, a, b :: !LeavesGap(earlier, later, key, a, b)
  }

  /** Two units stored next to each other cite adjoining, or backward, ranges. */
  ghost predicate NoGapAt(emitted: seq<StreamBlock>, i: nat) {
    i + 1 < |emitted| && emitted[i].Unit? && emitted[i + 1].Unit? ==>
      NoGapBetween(emitted[i].record, emitted[i + 1].record)
  }

  lemma OneSpan(sp: Span, key: StreamKey)
    ensures MaxReach([sp], key) == if SpanKey(sp) == key then Some(sp.offEnd) else None
    ensures MinStart([sp], key) == if SpanKey(sp) == key then Some(sp.offStart) else None
  {
    assert [sp][..0] == [];
  }

  /** With nothing emitted between them, two consecutive survivors adjoin in the input. */
  lemma BareSeamAdjoins(ids: Ids, blocks: seq<StreamBlock>, survivors: seq<nat>, k: nat)
    requires Survivors(blocks, survivors) && Fits(blocks) && 0 < k < |survivors|
    requires Lead(ids, blocks, survivors, k) == []
    ensures StartOf(blocks, survivors[k]) == StartOf(blocks, survivors[k - 1] + 1)
  {
    assert PendingAt(blocks, survivors, survivors[k]) == [];
  }

  /** Two survivors whose input ranges adjoin leave no gap on any stream. */
  lemma AdjoiningLeaveNoGap(ids: Ids, earlier: Record, later: Record, a: u64, b: u64, c: u64)
    requires earlier.spans == [Span(ids.source, ids.inSession, ids.inPid, a, b)]
    requires later.spans == [Span(ids.source, ids.inSession, ids.inPid, b, c)]
    ensures NoGapBetween(earlier, later)
  {
    forall key, x, y ensures !LeavesGap(earlier, later, key, x, y) {
      OneSpan(earlier.spans[0], key);
      OneSpan(later.spans[0], key);
    }
  }

  /** Extending the output by one survivor and its lead. */
  lemma NextAdjoins(ids: Ids, blocks: seq<StreamBlock>, survivors: seq<nat>, n: nat, i: nat)
    requires Survivors(blocks, survivors) && Fits(blocks) && n < |survivors|
    requires n > 0 ==> Lead(ids, blocks, survivors, n) == []
    requires n > 0 && i + 1 == |Emitted(ids, blocks, survivors, n)|
    requires Emitted(ids, blocks, survivors, n)[i] == Survivor(ids, blocks, survivors, n - 1)
    ensures NoGapAt(Emitted(ids, blocks, survivors, n) + [Survivor(ids, blocks, survivors, n)], i)
  {
    BareSeamAdjoins(ids, blocks, survivors, n);
    var one, two := Survivor(ids, blocks, survivors, n - 1), Survivor(ids, blocks, survivors, n);
    hide StartOf, Emitted, Lead;
    AdjoiningLeaveNoGap(ids, one.record, two.record, one.record.spans[0].offStart, one.record.spans[0].offEnd,
                        two.record.spans[0].offEnd);
  }

  lemma {:induction false} UnitsAdjoin(ids: Ids, blocks: seq<StreamBlock>, survivors: seq<nat>, n: nat, i: nat)
    requires Survivors(blocks, survivors) && Fits(blocks) && n <= |survivors|
    ensures NoGapAt(Emitted(ids, blocks, survivors, n), i)
    ensures n > 0 ==> var e := Emitted(ids, blocks, survivors, n);
                      e != [] && e[|e| - 1] == Survivor(ids, blocks, survivors, n - 1)
  {
    hide Survivor, Lead, LeavesGap;
    if n > 0 {
      var before, lead := Emitted(ids, blocks, survivors, n - 1), Lead(ids, blocks, survivors, n - 1);
      var last := Survivor(ids, blocks, survivors, n - 1);
      UnitsAdjoin(ids, blocks, survivors, n - 1, i);
      LeadIsBreaks(ids, blocks, survivors, n - 1);
      if i + 1 == |before + lead| && n > 1 && lead == [] {
        assert before + lead == before;
        NextAdjoins(ids, blocks, survivors, n - 1, i);
      }
      hide Emitted, Survivors;
      assert i + 1 < |before| ==> (before + lead + [last])[i] == before[i];
    }
  }

  // ----- Whole files ------------------------------------------------------------------------------

  predicate OwnBlock(b: FileBlock, p: OutKey) {
    (b.RecordBlock? && SenderOf(b.record) == p) || (b.BreakBlock? && BrokenBy(b.brk) == p)
  }

  /** The records and breaks of one stream of the file, in stored order. */
  function OwnBlocks(file: seq<FileBlock>, p: OutKey): seq<FileBlock> {
    if file == [] then []
    else
      var before, b := OwnBlocks(file[..|file| - 1], p), file[|file| - 1];
      if OwnBlock(b, p) then before + [b] else before
  }

  lemma OwnSnoc(file: seq<FileBlock>, n: nat, p: OutKey)
    requires n < |file|
    ensures OwnBlocks(file[..n + 1], p)
         == if OwnBlock(file[n], p) then OwnBlocks(file[..n], p) + [file[n]] else OwnBlocks(file[..n], p)
  {
    assert file[..n + 1][..n] == file[..n];
  }

  lemma {:induction false} OwnPrefix(file: seq<FileBlock>, i: nat, j: nat, p: OutKey)
    requires i <= j <= |file|
    ensures OwnBlocks(file[..i], p) <= OwnBlocks(file[..j], p)
    ensures (forall m :: i <= m < j ==> !OwnBlock(file[m], p)) ==> OwnBlocks(file[..i], p) == OwnBlocks(file[..j], p)
  {
    if i < j {
      OwnPrefix(file, i, j - 1, p);
      OwnSnoc(file, j - 1, p);
      hide OwnBlocks, OwnBlock;
    }
  }

  /** Neighbouring records of the file are next to each other among their stream's own blocks. */
  lemma NeighboursAreAdjacent(file: seq<FileBlock>, p: OutKey, i: nat, j: nat) returns (k: nat)
    requires Neighbours(file, p, i, j)
    ensures k + 1 < |OwnBlocks(file, p)|
    ensures OwnBlocks(file, p)[k] == file[i] && OwnBlocks(file, p)[k + 1] == file[j]
  {
    assert file[..|file|] == file;
    k := |OwnBlocks(file[..i], p)|;
    OwnSnoc(file, i, p);
    forall m | i + 1 <= m < j ensures !OwnBlock(file[m], p) {
      assert !RecordOf(file, m, p) && !BreakOf(file, m, p);
    }
    OwnPrefix(file, i + 1, j, p);
    OwnSnoc(file, j, p);
    OwnPrefix(file, i + 1, |file|, p);
    OwnPrefix(file, j + 1, |file|, p);
    hide OwnBlocks;
  }

  /** What the file holds of the stream is what a rewrite run emitted. */
  ghost predicate IsRewritten(file: seq<FileBlock>, p: OutKey) {
    exists ids, blocks, survivors ::
      && Survivors(blocks, survivors) && Fits(blocks)
      && OwnBlocks(file, p) == ToFile(Emitted(ids, blocks, survivors, |survivors|))
  }

  /** However it filtered and reordered, a rewrite's output never trips the unmarked-break check. */
  lemma RewriteLeavesNoUnmarkedBreak(tables: Tables, file: seq<FileBlock>)
    requires forall p :: MustJoin(tables, file, p) ==> IsRewritten(file, p)
    ensures !HasUnmarkedBreak(tables, file)
  {
    hide MustJoin, LeavesGap, Breaks, Survivors, Fits, Emitted, OwnBlocks;
    forall p: OutKey, i: nat, j: nat, key: StreamKey, a: int, b: int
      | MustJoin(tables, file, p) && Neighbours(file, p, i, j)
      ensures !LeavesGap(file[i].record, file[j].record, key, a, b)
    {
      var ids, blocks, survivors :|
        && Survivors(blocks, survivors) && Fits(blocks)
        && OwnBlocks(file, p) == ToFile(Emitted(ids, blocks, survivors, |survivors|));
      var emitted := Emitted(ids, blocks, survivors, |survivors|);
      var k := NeighboursAreAdjacent(file, p, i, j);
      UnitsAdjoin(ids, blocks, survivors, |survivors|, k);
      assert ToFile(emitted)[k] == file[i] && ToFile(emitted)[k + 1] == file[j];
    }
  }
}
