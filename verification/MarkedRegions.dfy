/**
 * What the break checker makes of the markers this project's writers leave: the fills of a stage,
 * the missing ranges of a merge, the holes and dropped records of a rewrite.
 */
module MarkedRegions {
  import opened Prelude
  import opened Blocks
  import opened UnmarkedBreaks
  import Ledgers
  import Fills
  import FileMerge
  import Rewriting
  import RewriteCoverage
  import RewriteRuns
  import Stages

  // ----- Which marker separates two neighbours -------------------------------------------------

  predicate Names(u: Undecoded, x: int) {
    u.offStart <= x < u.offEnd
  }

  /** Block `m` is a non-empty marker of the input stream that meets `[a, b)`, and no capture's. */
  predicate Meets(tables: Tables, blocks: seq<FileBlock>, m: nat, key: StreamKey, a: int, b: int) {
    && m < |blocks| && blocks[m].UndecodedBlock?
    && var u := blocks[m].undecoded;
      && MarkKey(u) == key && (u.sourceId in tables.kinds ==> tables.kinds[u.sourceId] != Capture)
      && exists x :: Names(u, x) && a <= x < b
  }

  /** The words and the class of a marker that separates; an explicit class decides against a word. */
  predicate Separates(reason: Option<string>, reasonClass: Option<string>) {
    match reasonClass
    case Some(c) => c == "hole" || reason == Some("dropped")
    case None => reason == Some("gap") || reason == Some("truncated") || reason == Some("dropped")
  }

  /** Word by word and class by class, which markers break the range they meet. */
  lemma WordsDecide(tables: Tables, blocks: seq<FileBlock>, m: nat, key: StreamKey, a: int, b: int)
    requires m < |blocks| && blocks[m].UndecodedBlock? && a < b
    ensures Breaks(tables, blocks, m, key, a, b) <==>
      Meets(tables, blocks, m, key, a, b) && Separates(blocks[m].undecoded.reason, blocks[m].undecoded.reasonClass)
  {
    var u := blocks[m].undecoded;
    MeetsIff(u, a, b);
    ClassIs(u);
    hide Names, Separates, ReasonClass;
  }

  lemma MeetsIff(u: Undecoded, a: int, b: int)
    requires a < b
    ensures (exists x :: Names(u, x) && a <= x < b) <==> u.offStart < u.offEnd && u.offStart < b && a < u.offEnd
  {
    if u.offStart < u.offEnd && u.offStart < b && a < u.offEnd {
      assert Names(u, Max(a, u.offStart));
    }
  }

  lemma ClassIs(u: Undecoded)
    ensures IsHole(u) || u.reason == Some("dropped") <==> Separates(u.reason, u.reasonClass)
  {
    assert |"hole"| != |"bytes"| && |"gap"| != |"truncated"| && |"gap"| != |"dropped"| && |"truncated"| != |"dropped"|;
    assert |"undecodable"| != |"gap"| && |"undecodable"| != |"truncated"| && |"undecodable"| != |"dropped"|;
    assert "skipped"[0] != "dropped"[0] && |"skipped"| != |"gap"| && |"skipped"| != |"truncated"|;
  }

  // ----- The fills of a stage --------------------------------------------------------------------

  /** Every marker of the file is a fill a stage wrote, of inputs that are not captures. */
  ghost predicate OnlyFills(tables: Tables, blocks: seq<FileBlock>, inputs: Ledgers.Inputs, source: u16) {
    && (source in tables.kinds ==> tables.kinds[source] != Capture)
    && forall m :: 0 <= m < |blocks| && blocks[m].UndecodedBlock? ==> Ledgers.FillOf(inputs, source, blocks[m].undecoded)
  }

  /** Block `m` fills offset `x` of the input stream, and its bytes are lost. */
  predicate FilledLost(blocks: seq<FileBlock>, inputs: Ledgers.Inputs, m: nat, key: StreamKey, x: int) {
    && m < |blocks| && blocks[m].UndecodedBlock? && MarkKey(blocks[m].undecoded) == key && Names(blocks[m].undecoded, x)
    && Ledgers.Key(key.sessionId, key.pid) in inputs && inputs[Ledgers.Key(key.sessionId, key.pid)].LostAt(x)
  }

  /** A fill separates iff a lost offset of it lies in the range; what was merely skipped never does. */
  lemma FillBreaksIff(tables: Tables, blocks: seq<FileBlock>, inputs: Ledgers.Inputs, source: u16,
                      m: nat, key: StreamKey, a: int, b: int)
    requires OnlyFills(tables, blocks, inputs, source) && m < |blocks| && a < b
    ensures Breaks(tables, blocks, m, key, a, b) <==> exists x :: FilledLost(blocks, inputs, m, key, x) && a <= x < b
  {
    if blocks[m].UndecodedBlock? {
      var u := blocks[m].undecoded;
      assert Ledgers.FillOf(inputs, source, u);
      WordsDecide(tables, blocks, m, key, a, b);
      FillSeparates(inputs, source, u);
      hide Breaks, Separates, Ledgers.StoredStream.LostAt;
      if Meets(tables, blocks, m, key, a, b) && u.reason == Some(Fills.GAP) {
        var x :| Names(u, x) && a <= x < b;
        assert FilledLost(blocks, inputs, m, key, x);
      }
    }
  }

  lemma FillSeparates(inputs: Ledgers.Inputs, source: u16, u: Undecoded)
    requires Ledgers.FillOf(inputs, source, u)
    ensures Separates(u.reason, u.reasonClass) <==> u.reason == Some(Fills.GAP)
  {
    assert |Fills.GAP| != |Fills.SKIPPED| && |"truncated"| != |Fills.SKIPPED| && "dropped"[0] != Fills.SKIPPED[0];
  }

  /** Neighbours of a joining stream that leave `[a, b)` of the input stream. */
  ghost predicate Parted(tables: Tables, blocks: seq<FileBlock>, p: OutKey, i: nat, j: nat, key: StreamKey, a: int, b: int) {
    MustJoin(tables, blocks, p) && Neighbours(blocks, p, i, j) && LeavesGap(blocks[i].record, blocks[j].record, key, a, b)
  }

  /** A lost offset the stage filled lies between what two neighbours cite. */
  ghost predicate LostBetween(tables: Tables, blocks: seq<FileBlock>, inputs: Ledgers.Inputs,
                              p: OutKey, i: nat, j: nat, key: StreamKey, a: int, b: int, m: nat, x: int) {
    Parted(tables, blocks, p, i, j, key, a, b) && FilledLost(blocks, inputs, m, key, x) && a <= x < b
  }

  /** Of a stage's file, the check raises iff a lost offset lies unmarked between two neighbours. */
  lemma StageFileBreaksIff(tables: Tables, blocks: seq<FileBlock>, inputs: Ledgers.Inputs, source: u16)
    requires OnlyFills(tables, blocks, inputs, source)
    ensures HasUnmarkedBreak(tables, blocks) <==>
      exists p: OutKey, i: nat, j: nat, key: StreamKey, a: int, b: int, m: nat, x: int ::
        LostBetween(tables, blocks, inputs, p, i, j, key, a, b, m, x)
  {
    hide MustJoin, Neighbours, MaxReach, MinStart, Breaks, OnlyFills, FilledLost;
    if HasUnmarkedBreak(tables, blocks) {
      var p: OutKey, i: nat, j: nat, key: StreamKey, a: int, b: int, m: nat := BreakWitness(tables, blocks);
      FillBreaksIff(tables, blocks, inputs, source, m, key, a, b);
      var x :| FilledLost(blocks, inputs, m, key, x) && a <= x < b;
      assert LostBetween(tables, blocks, inputs, p, i, j, key, a, b, m, x);
    }
    if p: OutKey, i: nat, j: nat, key: StreamKey, a: int, b: int, m: nat, x: int :|
       LostBetween(tables, blocks, inputs, p, i, j, key, a, b, m, x) {
      FilledLostIsBlock(blocks, inputs, m, key, x);
      FillBreaksIff(tables, blocks, inputs, source, m, key, a, b);
      PartedBreaks(tables, blocks, p, i, j, key, a, b, m);
    }
  }

  lemma FilledLostIsBlock(blocks: seq<FileBlock>, inputs: Ledgers.Inputs, m: nat, key: StreamKey, x: int)
    requires FilledLost(blocks, inputs, m, key, x)
    ensures m < |blocks|
  {
  }

  lemma BreakWitness(tables: Tables, blocks: seq<FileBlock>)
    returns (p: OutKey, i: nat, j: nat, key: StreamKey, a: int, b: int, m: nat)
    requires HasUnmarkedBreak(tables, blocks)
    ensures Parted(tables, blocks, p, i, j, key, a, b) && a < b && m < |blocks| && Breaks(tables, blocks, m, key, a, b)
  {
    hide MustJoin, MaxReach, MinStart, IsHole;
    p, i, j, key, a, b, m :|
      && MustJoin(tables, blocks, p) && Neighbours(blocks, p, i, j)
      && LeavesGap(blocks[i].record, blocks[j].record, key, a, b) && Breaks(tables, blocks, m, key, a, b);
  }

  lemma PartedBreaks(tables: Tables, blocks: seq<FileBlock>, p: OutKey, i: nat, j: nat, key: StreamKey, a: int, b: int, m: nat)
    requires Parted(tables, blocks, p, i, j, key, a, b) && Breaks(tables, blocks, m, key, a, b)
    ensures HasUnmarkedBreak(tables, blocks)
  {
    hide MustJoin, LeavesGap, Breaks;
  }

  // ----- The markers of a rewrite, of a merge and of an incomplete message ---------------------------

  /** The file's markers of the rewritten input are exactly those the rewrite wrote, wherever they stand. */
  ghost predicate HoldsMarks(tables: Tables, blocks: seq<FileBlock>, ids: Rewriting.Ids, marks: seq<Undecoded>) {
    && (ids.source in tables.kinds ==> tables.kinds[ids.source] != Capture)
    && (forall k :: 0 <= k < |marks| ==> UndecodedBlock(marks[k]) in blocks)
    && forall m :: 0 <= m < |blocks| && blocks[m].UndecodedBlock? && MarkKey(blocks[m].undecoded) == KeyOf(ids) ==>
         blocks[m].undecoded in marks
  }

  function KeyOf(ids: Rewriting.Ids): StreamKey {
    StreamKey(ids.source, ids.inSession, ids.inPid)
  }

  /** In a rewritten file a range is broken iff a hole or a dropped record of the input lies in it. */
  lemma RewriteBreaksIff(tables: Tables, blocks: seq<FileBlock>, ids: Rewriting.Ids, input: seq<StreamBlock>,
                         survivors: seq<nat>, marks: seq<Undecoded>, a: int, b: int)
    requires RewriteCoverage.MarksOfRewrite(ids, input, survivors, marks) && HoldsMarks(tables, blocks, ids, marks) && a < b
    ensures (exists m: nat :: Breaks(tables, blocks, m, KeyOf(ids), a, b)) <==>
      exists x :: a <= x < b && (RewriteCoverage.InHole(input, x) || RewriteCoverage.InDropped(input, survivors, x))
  {
    hide RewriteCoverage.InHole, RewriteCoverage.InDropped, Breaks, Separates, IsHole;
    if m: nat :| Breaks(tables, blocks, m, KeyOf(ids), a, b) {
      BreaksIsBlock(tables, blocks, m, KeyOf(ids), a, b);
      WordsDecide(tables, blocks, m, KeyOf(ids), a, b);
      var u := blocks[m].undecoded;
      var k :| 0 <= k < |marks| && marks[k] == u;
      var x :| Names(u, x) && a <= x < b;
      assert RewriteCoverage.MarkedAs(marks, Fills.GAP, x) || RewriteCoverage.MarkedAs(marks, RewriteCoverage.DROPPED, x);
    }
    if x :| a <= x < b && (RewriteCoverage.InHole(input, x) || RewriteCoverage.InDropped(input, survivors, x)) {
      assert RewriteCoverage.MarkedAs(marks, Fills.GAP, x) || RewriteCoverage.MarkedAs(marks, RewriteCoverage.DROPPED, x);
      var k :| 0 <= k < |marks| && marks[k].offStart <= x < marks[k].offEnd;
      var m :| 0 <= m < |blocks| && blocks[m] == UndecodedBlock(marks[k]);
      RewriteMarkSeparates(marks[k]);
      assert Names(marks[k], x);
      WordsDecide(tables, blocks, m, KeyOf(ids), a, b);
    }
  }

  lemma RewriteMarkSeparates(u: Undecoded)
    requires u.reason in {Some(Fills.GAP), Some(RewriteCoverage.DROPPED)} && u.reasonClass.None?
    ensures Separates(u.reason, u.reasonClass)
  {
  }

  lemma BreaksIsBlock(tables: Tables, blocks: seq<FileBlock>, m: nat, key: StreamKey, a: int, b: int)
    requires Breaks(tables, blocks, m, key, a, b)
    ensures m < |blocks| && blocks[m].UndecodedBlock? && MarkKey(blocks[m].undecoded) == key
  {
  }

  /** A range a merge found missing breaks whatever it meets. */
  lemma MissingBreaks(tables: Tables, blocks: seq<FileBlock>, side: FileMerge.Side, m: nat, key: StreamKey, a: int, b: int)
    requires m < |blocks| && blocks[m].UndecodedBlock? && FileMerge.AllMissing(side, [blocks[m].undecoded]) && a < b
    ensures Breaks(tables, blocks, m, key, a, b) <==> Meets(tables, blocks, m, key, a, b)
  {
    WordsDecide(tables, blocks, m, key, a, b);
    assert FileMerge.AllMissing(side, [blocks[m].undecoded]) && [blocks[m].undecoded][0] == blocks[m].undecoded;
  }

  /** The pieces of a message that never completed break nothing: their bytes exist. */
  lemma IncompleteBreaksNothing(tables: Tables, blocks: seq<FileBlock>, m: nat, key: StreamKey, a: int, b: int)
    requires m < |blocks| && blocks[m].UndecodedBlock? && a < b
    requires blocks[m].undecoded.reason == Some(Stages.UNDECODABLE) && blocks[m].undecoded.reasonClass.None?
    ensures !Breaks(tables, blocks, m, key, a, b)
  {
    WordsDecide(tables, blocks, m, key, a, b);
    assert |Stages.UNDECODABLE| > |"truncated"| && |Stages.UNDECODABLE| > |"dropped"| && |Stages.UNDECODABLE| > |"gap"|;
  }

  // ----- A filter's own break is needed -----------------------------------------------------------

  /** The block is a record or a break of the rewritten stream. */
  predicate IsOfStream(b: FileBlock, ids: Rewriting.Ids) {
    || (b.RecordBlock? && b.record.sessionId == ids.session && b.record.senderPid == ids.pid)
    || (b.BreakBlock? && b.brk.sessionId == ids.session && b.brk.participantId == ids.pid)
  }

  /** The two survivors are stored as neighbours, in a decoded stream that is declared to join. */
  ghost predicate StoredAsNeighbours(tables: Tables, file: seq<FileBlock>, ids: Rewriting.Ids, one: Record, other: Record,
                                     i: nat, j: nat, d: nat) {
    && i < j < |file| && file[i] == RecordBlock(one) && file[j] == RecordBlock(other)
    && (forall m :: i < m < j ==> !IsOfStream(file[m], ids))
    && d < |file| && file[d] == ParticipantBlock(ids.session, ids.pid, false)
    && one.decoderId.Some? && one.decoderId.value in tables.decodes && tables.decodes[one.decoderId.value]
  }

  lemma NeighboursMustJoin(tables: Tables, file: seq<FileBlock>, ids: Rewriting.Ids, one: Record, other: Record,
                           i: nat, j: nat, d: nat)
    requires StoredAsNeighbours(tables, file, ids, one, other, i, j, d)
    requires one.sessionId == other.sessionId == ids.session && one.senderPid == other.senderPid == ids.pid
    ensures MustJoin(tables, file, OutKey(ids.session, ids.pid)) && Neighbours(file, OutKey(ids.session, ids.pid), i, j)
  {
    var p := OutKey(ids.session, ids.pid);
    assert DecodedRecord(tables, file, i, p) && DeclaredJoining(file, d, p);
  }

  /** Two survivors that left a stretch of the input out between them cite on either side of it. */
  lemma SurvivorsLeaveGap(ids: Rewriting.Ids, input: seq<StreamBlock>, survivors: seq<nat>, k: nat)
    requires Rewriting.Survivors(input, survivors) && Rewriting.Fits(input) && 0 < k < |survivors|
    requires Rewriting.StartOf(input, survivors[k - 1] + 1) < Rewriting.StartOf(input, survivors[k])
    ensures Rewriting.Survivor(ids, input, survivors, k - 1).Unit? && Rewriting.Survivor(ids, input, survivors, k).Unit?
    ensures LeavesGap(Rewriting.Survivor(ids, input, survivors, k - 1).record, Rewriting.Survivor(ids, input, survivors, k).record,
                      KeyOf(ids), Rewriting.StartOf(input, survivors[k - 1] + 1), Rewriting.StartOf(input, survivors[k]))
  {
    var one, other := Rewriting.Survivor(ids, input, survivors, k - 1).record, Rewriting.Survivor(ids, input, survivors, k).record;
    hide Rewriting.StartOf, MaxReach, MinStart;
    RewriteRuns.OneSpan(one.spans[0], KeyOf(ids));
    RewriteRuns.OneSpan(other.spans[0], KeyOf(ids));
    assert one.spans == [one.spans[0]] && other.spans == [other.spans[0]];
  }

  /**
   * What a filter declares at a seam is needed: if a stretch of the input is left out between two
   * survivors and they are stored as neighbours all the same, the check raises.
   */
  lemma WithoutItsBreak(tables: Tables, file: seq<FileBlock>, ids: Rewriting.Ids, input: seq<StreamBlock>,
                        survivors: seq<nat>, marks: seq<Undecoded>, k: nat, i: nat, j: nat, d: nat)
    requires Rewriting.Survivors(input, survivors) && Rewriting.Fits(input) && Rewriting.InStoredOrder(survivors)
    requires RewriteCoverage.MarksOfRewrite(ids, input, survivors, marks) && HoldsMarks(tables, file, ids, marks)
    requires 0 < k < |survivors| && Rewriting.StartOf(input, survivors[k - 1] + 1) < Rewriting.StartOf(input, survivors[k])
    requires Rewriting.Survivor(ids, input, survivors, k - 1).Unit? && Rewriting.Survivor(ids, input, survivors, k).Unit?
    requires StoredAsNeighbours(tables, file, ids, Rewriting.Survivor(ids, input, survivors, k - 1).record,
                                Rewriting.Survivor(ids, input, survivors, k).record, i, j, d)
    ensures HasUnmarkedBreak(tables, file)
  {
    hide *;
    SurvivorIds(ids, input, survivors, k);
    var a, b := Rewriting.StartOf(input, survivors[k - 1] + 1), Rewriting.StartOf(input, survivors[k]);
    SurvivorsLeaveGap(ids, input, survivors, k);
    NeighboursMustJoin(tables, file, ids, Rewriting.Survivor(ids, input, survivors, k - 1).record,
                       Rewriting.Survivor(ids, input, survivors, k).record, i, j, d);
    LeftOut(input, survivors, k, a);
    RewriteBreaksIff(tables, file, ids, input, survivors, marks, a, b);
    var m: nat :| Breaks(tables, file, m, KeyOf(ids), a, b);
    Neighboured(tables, file, ids, input, survivors, k, i, j, a, b, d);
    PartedBreaks(tables, file, OutKey(ids.session, ids.pid), i, j, KeyOf(ids), a, b, m);
  }

  lemma SurvivorIds(ids: Rewriting.Ids, input: seq<StreamBlock>, survivors: seq<nat>, k: nat)
    requires Rewriting.Survivors(input, survivors) && Rewriting.Fits(input) && 0 < k < |survivors|
    ensures var one, other := Rewriting.Survivor(ids, input, survivors, k - 1), Rewriting.Survivor(ids, input, survivors, k);
      && one.Unit? && one.record.sessionId == ids.session && one.record.senderPid == ids.pid
      && other.Unit? && other.record.sessionId == ids.session && other.record.senderPid == ids.pid
    ensures survivors[k - 1] < |input| && survivors[k] < |input|
  {
    hide Rewriting.StartOf;
  }

  lemma Neighboured(tables: Tables, file: seq<FileBlock>, ids: Rewriting.Ids, input: seq<StreamBlock>, survivors: seq<nat>,
                    k: nat, i: nat, j: nat, a: int, b: int, d: nat)
    requires Rewriting.Survivors(input, survivors) && Rewriting.Fits(input) && 0 < k < |survivors|
    requires Rewriting.Survivor(ids, input, survivors, k - 1).Unit? && Rewriting.Survivor(ids, input, survivors, k).Unit?
    requires StoredAsNeighbours(tables, file, ids, Rewriting.Survivor(ids, input, survivors, k - 1).record,
                                Rewriting.Survivor(ids, input, survivors, k).record, i, j, d)
    requires MustJoin(tables, file, OutKey(ids.session, ids.pid)) && Neighbours(file, OutKey(ids.session, ids.pid), i, j)
    requires LeavesGap(Rewriting.Survivor(ids, input, survivors, k - 1).record, Rewriting.Survivor(ids, input, survivors, k).record,
                       KeyOf(ids), a, b)
    ensures Parted(tables, file, OutKey(ids.session, ids.pid), i, j, KeyOf(ids), a, b)
  {
    hide MustJoin, LeavesGap, Rewriting.Survivor, Rewriting.Survivors, Rewriting.Fits;
  }

  /** In stored order, the offset right after one survivor is no survivor's, if the next starts later. */
  lemma LeftOut(input: seq<StreamBlock>, survivors: seq<nat>, k: nat, a: int)
    requires Rewriting.Survivors(input, survivors) && Rewriting.InStoredOrder(survivors) && 0 < k < |survivors|
    requires a == Rewriting.StartOf(input, survivors[k - 1] + 1) < Rewriting.StartOf(input, survivors[k])
    ensures RewriteCoverage.InHole(input, a) || RewriteCoverage.InDropped(input, survivors, a)
  {
    var i := Rewriting.SomeOccupant(input, survivors[k], a);
    Rewriting.NoneBetween(survivors, k);
    if i <= survivors[k - 1] {
      Rewriting.StartsAscend(input, i + 1, survivors[k - 1] + 1);
    }
    hide Rewriting.StartOf;
    assert i !in survivors;
  }

  /** Nothing is judged of a file whose participants are unit sequences, or that decodes nothing, or marks nothing. */
  lemma NothingToJudge(tables: Tables, file: seq<FileBlock>)
    requires || (forall i :: 0 <= i < |file| && file[i].ParticipantBlock? ==> file[i].units)
             || (forall i :: 0 <= i < |file| && file[i].RecordBlock? && file[i].record.decoderId.Some? ==>
                   file[i].record.decoderId.value !in tables.decodes || !tables.decodes[file[i].record.decoderId.value])
             || (forall i :: 0 <= i < |file| && file[i].UndecodedBlock? ==>
                   file[i].undecoded.sourceId in tables.kinds && tables.kinds[file[i].undecoded.sourceId] == Capture)
    ensures !HasUnmarkedBreak(tables, file)
  {
    hide *;
    if HasUnmarkedBreak(tables, file) {
      var e, d, m := WhatIsJudged(tables, file);
      assert false;
    }
  }

  /** A break is only ever found with a joining participant, a decoded record and a marker of no capture. */
  lemma WhatIsJudged(tables: Tables, file: seq<FileBlock>) returns (e: nat, d: nat, m: nat)
    requires HasUnmarkedBreak(tables, file)
    ensures e < |file| && file[e].ParticipantBlock? && !file[e].units
    ensures d < |file| && file[d].RecordBlock? && file[d].record.decoderId.Some?
    ensures file[d].record.decoderId.value in tables.decodes && tables.decodes[file[d].record.decoderId.value]
    ensures m < |file| && file[m].UndecodedBlock?
    ensures file[m].undecoded.sourceId in tables.kinds ==> tables.kinds[file[m].undecoded.sourceId] != Capture
  {
    hide *;
    var p, i, j, key, a, b, k := BreakWitness(tables, file);
    PartedJoins(tables, file, p, i, j, key, a, b);
    BreaksIsForeign(tables, file, k, key, a, b);
    d := SomeDecoded(tables, file, p);
    e := SomeJoining(file, p);
    m := k;
  }

  lemma PartedJoins(tables: Tables, blocks: seq<FileBlock>, p: OutKey, i: nat, j: nat, key: StreamKey, a: int, b: int)
    requires Parted(tables, blocks, p, i, j, key, a, b)
    ensures AnyDecoded(tables, blocks, p) && AnyJoining(blocks, p)
  {
    hide AnyDecoded, AnyJoining, Neighbours, LeavesGap;
  }

  lemma BreaksIsForeign(tables: Tables, blocks: seq<FileBlock>, m: nat, key: StreamKey, a: int, b: int)
    requires Breaks(tables, blocks, m, key, a, b)
    ensures m < |blocks| && blocks[m].UndecodedBlock?
    ensures blocks[m].undecoded.sourceId in tables.kinds ==> tables.kinds[blocks[m].undecoded.sourceId] != Capture
  {
    hide IsHole;
  }

  lemma SomeDecoded(tables: Tables, blocks: seq<FileBlock>, p: OutKey) returns (d: nat)
    requires AnyDecoded(tables, blocks, p)
    ensures d < |blocks| && blocks[d].RecordBlock? && blocks[d].record.decoderId.Some?
    ensures blocks[d].record.decoderId.value in tables.decodes && tables.decodes[blocks[d].record.decoderId.value]
  {
    d :| 0 <= d < |blocks| && DecodedRecord(tables, blocks, d, p);
  }

  lemma SomeJoining(blocks: seq<FileBlock>, p: OutKey) returns (e: nat)
    requires AnyJoining(blocks, p)
    ensures e < |blocks| && blocks[e].ParticipantBlock? && !blocks[e].units
  {
    e :| 0 <= e < |blocks| && DeclaredJoining(blocks, e, p);
  }
}
