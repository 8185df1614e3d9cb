/**
 * Filtering and reordering one decoded stream: what the rewritten stream says of its input.
 *
 * Survivors are named by their index among the input's blocks, in the order they are emitted.
 */
module Rewriting {
  import opened Prelude
  import opened Blocks
  import Intervals
  import Placement
  import opened OffsetSpace

  /** The ids the output is written under, and those of the input stream it cites. */
  datatype Ids = Ids(session: u64, pid: u16, source: u16, inSession: u64, inPid: u16)

  // ----- The input's offset space, block by block ------------------------------------------

  function StartOf(blocks: seq<StreamBlock>, i: nat): nat
    requires i <= |blocks|
  {
    Total(blocks[..i])
  }

  lemma NextStart(blocks: seq<StreamBlock>, i: nat)
    requires i < |blocks|
    ensures StartOf(blocks, i + 1) == StartOf(blocks, i) + Advance(blocks[i])
  {
    assert blocks[..i + 1][..i] == blocks[..i];
  }

  lemma {:induction false} StartsAscend(blocks: seq<StreamBlock>, i: nat, j: nat)
    requires i <= j <= |blocks|
    ensures StartOf(blocks, i) <= StartOf(blocks, j)
  {
    if i < j {
      StartsAscend(blocks, i, j - 1);
      NextStart(blocks, j - 1);
    }
  }

  /** Block `i` occupies offset `x` of the input stream. */
  predicate Occupies(blocks: seq<StreamBlock>, i: nat, x: int) {
    i < |blocks| && StartOf(blocks, i) <= x < StartOf(blocks, i + 1)
  }

  /** Every offset of the stream belongs to exactly one block. */
  lemma OneOccupant(blocks: seq<StreamBlock>, i: nat, j: nat, x: int)
    requires Occupies(blocks, i, x) && Occupies(blocks, j, x)
    ensures i == j
  {
    if i < j {
      StartsAscend(blocks, i + 1, j);
    } else if j < i {
      StartsAscend(blocks, j + 1, i);
    }
  }

  lemma {:induction false} SomeOccupant(blocks: seq<StreamBlock>, n: nat, x: int) returns (i: nat)
    requires n <= |blocks| && 0 <= x < StartOf(blocks, n)
    ensures i < n && Occupies(blocks, i, x)
  {
    NextStart(blocks, n - 1);
    if StartOf(blocks, n - 1) <= x {
      i := n - 1;
    } else {
      i := SomeOccupant(blocks, n - 1, x);
    }
  }

  predicate Fits(blocks: seq<StreamBlock>) {
    Total(blocks) < U64_END
  }

  lemma StartFits(blocks: seq<StreamBlock>, i: nat)
    requires i <= |blocks| && Fits(blocks)
    ensures StartOf(blocks, i) < U64_END
  {
    StartsAscend(blocks, i, |blocks|);
    assert blocks[..|blocks|] == blocks;
  }

  // ----- Survivors ----------------------------------------------------------------------------

  /** Distinct records of the input, in the order they are emitted. */
  predicate Survivors(blocks: seq<StreamBlock>, survivors: seq<nat>) {
    && (forall k :: 0 <= k < |survivors| ==> survivors[k] < |blocks| && blocks[survivors[k]].Unit?)
    && (forall k, l :: 0 <= k < l < |survivors| ==> survivors[k] != survivors[l])
  }

  /** No reordering: survivors keep their stored order. */
  predicate InStoredOrder(survivors: seq<nat>) {
    forall k, l :: 0 <= k < l < |survivors| ==> survivors[k] < survivors[l]
  }

  /** The breaks met since the last surviving record, before block `n`. */
  function PendingAt(blocks: seq<StreamBlock>, survivors: seq<nat>, n: nat): seq<Discontinuity>
    requires n <= |blocks|
  {
    if n == 0 then []
    else
      var before := PendingAt(blocks, survivors, n - 1);
      if blocks[n - 1].Break? then before + [blocks[n - 1].brk]
      else if n - 1 in survivors then [] else before
  }

  function Widths(breaks: seq<Discontinuity>): nat {
    if breaks == [] then 0 else Widths(breaks[..|breaks| - 1]) + breaks[|breaks| - 1].Width()
  }

  // ----- The output ------------------------------------------------------------------------------

  const REORDERED := "reordered"
  const RECORDS_DROPPED := "records-dropped"

  function Readdressed(ids: Ids, brk: Discontinuity): Discontinuity {
    brk.(sessionId := ids.session, participantId := ids.pid)
  }

  function CarriedForward(ids: Ids, breaks: seq<Discontinuity>): (out: seq<StreamBlock>)
    ensures |out| == |breaks| && forall k :: 0 <= k < |out| ==> out[k] == Break(Readdressed(ids, breaks[k]))
  {
    if breaks == [] then []
    else CarriedForward(ids, breaks[..|breaks| - 1]) + [Break(Readdressed(ids, breaks[|breaks| - 1]))]
  }

  /** What the stage must declare between two survivors: nothing, a reorder, or what it withheld. */
  function Seam(ids: Ids, ends: nat, begins: nat, carried: nat): seq<StreamBlock>
    requires begins < U64_END
  {
    if begins < ends then [Break(Discontinuity(ids.session, ids.pid, None, Some(REORDERED), None))]
    else if begins - ends - carried > 0 then
      [Break(Discontinuity(ids.session, ids.pid, Some(begins - ends - carried), Some(RECORDS_DROPPED), None))]
    else []
  }

  /** What is emitted before the `k`th survivor: the input's breaks, then the stage's own. */
  function Lead(ids: Ids, blocks: seq<StreamBlock>, survivors: seq<nat>, k: nat): seq<StreamBlock>
    requires Survivors(blocks, survivors) && Fits(blocks) && k < |survivors|
  {
    var pending := PendingAt(blocks, survivors, survivors[k]);
    StartFits(blocks, survivors[k]);
    CarriedForward(ids, pending)
    + if k == 0 then []
      else Seam(ids, StartOf(blocks, survivors[k - 1] + 1), StartOf(blocks, survivors[k]), Widths(pending))
  }

  /** A survivor as it is written out: its content, citing where it came from. */
  function Rewritten(ids: Ids, r: Record, start: u64, end: u64): Record {
    Record(ids.session, ids.pid, ids.source, r.timestamp, r.payload, r.flags, None, None, None,
           [Span(ids.source, ids.inSession, ids.inPid, start, end)], r.decoderId, r.contentType, r.role, None, [])
  }

  /** The stream's blocks once `k` survivors are out. */
  function Emitted(ids: Ids, blocks: seq<StreamBlock>, survivors: seq<nat>, k: nat): seq<StreamBlock>
    requires Survivors(blocks, survivors) && Fits(blocks) && k <= |survivors|
  {
    if k == 0 then []
    else Emitted(ids, blocks, survivors, k - 1) + Lead(ids, blocks, survivors, k - 1)
         + [Survivor(ids, blocks, survivors, k - 1)]
  }

  function Survivor(ids: Ids, blocks: seq<StreamBlock>, survivors: seq<nat>, k: nat): StreamBlock
    requires Survivors(blocks, survivors) && Fits(blocks) && k < |survivors|
  {
    var i := survivors[k];
    StartFits(blocks, i);
    StartFits(blocks, i + 1);
    Unit(Rewritten(ids, blocks[i].record, StartOf(blocks, i), StartOf(blocks, i + 1)))
  }

  // ----- One constant shift ------------------------------------------------------------------------

  lemma {:induction false} TotalConcat(a: seq<StreamBlock>, b: seq<StreamBlock>)
    ensures Total(a + b) == Total(a) + Total(b)
  {
    if b == [] {
      assert a + b == a;
    } else {
      TotalConcat(a, b[..|b| - 1]);
      assert (a + b)[..|a + b| - 1] == a + b[..|b| - 1];
    }
  }

  lemma {:induction false} TotalCarried(ids: Ids, breaks: seq<Discontinuity>)
    ensures Total(CarriedForward(ids, breaks)) == Widths(breaks)
  {
    if breaks != [] {
      TotalCarried(ids, breaks[..|breaks| - 1]);
      Placement.Snoc(CarriedForward(ids, breaks[..|breaks| - 1]), Break(Readdressed(ids, breaks[|breaks| - 1])));
    }
  }

  /** The payload of the records of `blocks[i..j)`. */
  function Payload(blocks: seq<StreamBlock>, i: nat, j: nat): nat
    requires i <= j <= |blocks|
  {
    if i == j then 0
    else Payload(blocks, i, j - 1) + if blocks[j - 1].Unit? then Advance(blocks[j - 1]) else 0
  }

  /** Between two survivors with none between, the distance is the pending widths plus what was dropped. */
  lemma {:induction false} PendingBetween(blocks: seq<StreamBlock>, survivors: seq<nat>, a: nat, b: nat)
    requires a <= b <= |blocks| && (forall m :: a <= m < b ==> m !in survivors)
    requires a == 0 || (a - 1 in survivors && blocks[a - 1].Unit?)
    ensures StartOf(blocks, b) - StartOf(blocks, a) == Widths(PendingAt(blocks, survivors, b)) + Payload(blocks, a, b)
  {
    if a < b {
      PendingBetween(blocks, survivors, a, b - 1);
      NextStart(blocks, b - 1);
      if blocks[b - 1].Break? {
        Placement.Snoc(PendingAt(blocks, survivors, b - 1), blocks[b - 1].brk);
      }
    }
  }

  /** The offset the `k`th survivor is emitted at. */
  function OutStart(ids: Ids, blocks: seq<StreamBlock>, survivors: seq<nat>, k: nat): nat
    requires Survivors(blocks, survivors) && Fits(blocks) && k < |survivors|
  {
    Total(Emitted(ids, blocks, survivors, k) + Lead(ids, blocks, survivors, k))
  }

  lemma OutStartIs(ids: Ids, blocks: seq<StreamBlock>, survivors: seq<nat>, k: nat)
    requires Survivors(blocks, survivors) && Fits(blocks) && k < |survivors|
    ensures OutStart(ids, blocks, survivors, k)
         == Total(Emitted(ids, blocks, survivors, k)) + Total(Lead(ids, blocks, survivors, k))
  {
    TotalConcat(Emitted(ids, blocks, survivors, k), Lead(ids, blocks, survivors, k));
  }

  lemma OutEnd(ids: Ids, blocks: seq<StreamBlock>, survivors: seq<nat>, k: nat)
    requires Survivors(blocks, survivors) && Fits(blocks) && k < |survivors|
    ensures Total(Emitted(ids, blocks, survivors, k + 1))
         == OutStart(ids, blocks, survivors, k) + Advance(blocks[survivors[k]])
  {
    Placement.Snoc(Emitted(ids, blocks, survivors, k) + Lead(ids, blocks, survivors, k), Survivor(ids, blocks, survivors, k));
  }

  /** In stored order, no survivor lies between two consecutive ones, or before the first. */
  lemma NoneBetween(survivors: seq<nat>, k: nat)
    requires InStoredOrder(survivors) && k < |survivors|
    ensures forall m :: (if k == 0 then 0 else survivors[k - 1] + 1) <= m < survivors[k] ==> m !in survivors
  {
    assert forall l :: k <= l < |survivors| ==> survivors[k] <= survivors[l];
    assert forall l :: 0 <= l < k ==> survivors[l] <= survivors[k - 1];
  }

  /** What is emitted between two survivors advances the output by exactly their input distance. */
  lemma LeadSpansTheGap(ids: Ids, blocks: seq<StreamBlock>, survivors: seq<nat>, k: nat)
    requires Survivors(blocks, survivors) && Fits(blocks) && InStoredOrder(survivors) && 0 < k < |survivors|
    ensures Total(Lead(ids, blocks, survivors, k)) == StartOf(blocks, survivors[k]) - StartOf(blocks, survivors[k - 1] + 1)
  {
    var a, b := survivors[k - 1] + 1, survivors[k];
    var pending := PendingAt(blocks, survivors, b);
    NoneBetween(survivors, k);
    PendingBetween(blocks, survivors, a, b);
    StartFits(blocks, b);
    TotalCarried(ids, pending);
    var seam := Seam(ids, StartOf(blocks, a), StartOf(blocks, b), Widths(pending));
    TotalConcat(CarriedForward(ids, pending), seam);
    TotalSeam(seam);
  }

  lemma TotalSeam(seam: seq<StreamBlock>)
    requires |seam| <= 1
    ensures Total(seam) == if seam == [] then 0 else Advance(seam[0])
  {
    if seam != [] {
      assert seam[..0] == [];
    }
  }

  /** The payload dropped before the first survivor. */
  function DroppedAhead(blocks: seq<StreamBlock>, survivors: seq<nat>): nat
    requires Survivors(blocks, survivors) && survivors != []
  {
    Payload(blocks, 0, survivors[0])
  }

  lemma FirstStart(ids: Ids, blocks: seq<StreamBlock>, survivors: seq<nat>)
    requires Survivors(blocks, survivors) && Fits(blocks) && InStoredOrder(survivors) && survivors != []
    ensures OutStart(ids, blocks, survivors, 0) == StartOf(blocks, survivors[0]) - DroppedAhead(blocks, survivors)
  {
    var pending := PendingAt(blocks, survivors, survivors[0]);
    NoneBetween(survivors, 0);
    PendingBetween(blocks, survivors, 0, survivors[0]);
    TotalCarried(ids, pending);
    OutStartIs(ids, blocks, survivors, 0);
    assert blocks[..0] == [] && Emitted(ids, blocks, survivors, 0) == [];
    assert CarriedForward(ids, pending) + [] == CarriedForward(ids, pending);
  }

  /** A filter shifts every survivor by one constant: what was dropped ahead of the first. */
  lemma {:induction false} FilterShiftsByOneConstant(ids: Ids, blocks: seq<StreamBlock>, survivors: seq<nat>, k: nat)
    requires Survivors(blocks, survivors) && Fits(blocks) && InStoredOrder(survivors) && k < |survivors|
    ensures OutStart(ids, blocks, survivors, k) == StartOf(blocks, survivors[k]) - DroppedAhead(blocks, survivors)
  {
    hide OutStart, Emitted, Lead, StartOf, DroppedAhead, Total, InStoredOrder, Fits;
    if k == 0 {
      FirstStart(ids, blocks, survivors);
    } else {
      FilterShiftsByOneConstant(ids, blocks, survivors, k - 1);
      OutEnd(ids, blocks, survivors, k - 1);
      NextStart(blocks, survivors[k - 1]);
      LeadSpansTheGap(ids, blocks, survivors, k);
      OutStartIs(ids, blocks, survivors, k);
    }
  }

  lemma {:induction false} NoPayloadWithoutUnits(blocks: seq<StreamBlock>, n: nat)
    requires n <= |blocks| && forall i :: 0 <= i < n ==> blocks[i].Break?
    ensures Payload(blocks, 0, n) == 0
  {
    if n > 0 {
      NoPayloadWithoutUnits(blocks, n - 1);
    }
  }

  lemma NothingDroppedAhead(blocks: seq<StreamBlock>, survivors: seq<nat>)
    requires Survivors(blocks, survivors) && InStoredOrder(survivors) && survivors != []
    requires forall i :: 0 <= i < |blocks| && blocks[i].Unit? ==> i in survivors
    ensures DroppedAhead(blocks, survivors) == 0
  {
    NoneBetween(survivors, 0);
    assert forall i :: 0 <= i < survivors[0] ==> i !in survivors;
    NoPayloadWithoutUnits(blocks, survivors[0]);
  }

  lemma SurvivorSpan(ids: Ids, blocks: seq<StreamBlock>, survivors: seq<nat>, k: nat)
    requires Survivors(blocks, survivors) && Fits(blocks) && k < |survivors|
    ensures var s := Survivor(ids, blocks, survivors, k);
      && s.Unit? && |s.record.spans| == 1
      && s.record.spans[0].offStart == StartOf(blocks, survivors[k])
      && s.record.spans[0].offEnd == StartOf(blocks, survivors[k]) + Advance(blocks[survivors[k]])
  {
    NextStart(blocks, survivors[k]);
  }

  /** Keeping every record in order keeps every offset: each span is the record's own range. */
  lemma KeepingAllIsIdentity(ids: Ids, blocks: seq<StreamBlock>, survivors: seq<nat>, k: nat)
    requires Survivors(blocks, survivors) && Fits(blocks) && InStoredOrder(survivors) && k < |survivors|
    requires forall i :: 0 <= i < |blocks| && blocks[i].Unit? ==> i in survivors
    ensures var ranges := PositionalRanges(Emitted(ids, blocks, survivors, |survivors|));
            var s := Survivor(ids, blocks, survivors, k);
      && |ranges| == |survivors| && s.Unit? && |s.record.spans| == 1
      && ranges[k] == Intervals.Range(s.record.spans[0].offStart, s.record.spans[0].offEnd)
  {
    hide *;
    NothingDroppedAhead(blocks, survivors);
    SurvivorSpan(ids, blocks, survivors, k);
    FilterShiftsByOneConstant(ids, blocks, survivors, k);
    OutputRanges(ids, blocks, survivors, |survivors|, k);
  }

  // ----- The output's own offset space -----------------------------------------------------------

  predicate AllBreaks(blocks: seq<StreamBlock>) {
    forall k :: 0 <= k < |blocks| ==> blocks[k].Break?
  }

  lemma {:induction false} BreaksTakeNoRange(a: seq<StreamBlock>, b: seq<StreamBlock>)
    requires AllBreaks(b)
    ensures PositionalRanges(a + b) == PositionalRanges(a)
  {
    if b == [] {
      assert a + b == a;
    } else {
      BreaksTakeNoRange(a, b[..|b| - 1]);
      assert (a + b)[..|a + b| - 1] == a + b[..|b| - 1];
    }
  }

  lemma UnitTakesRange(a: seq<StreamBlock>, b: StreamBlock)
    requires b.Unit?
    ensures PositionalRanges(a + [b]) == PositionalRanges(a) + [Intervals.Range(Total(a), Total(a + [b]))]
  {
    Placement.Snoc(a, b);
  }

  lemma LeadIsBreaks(ids: Ids, blocks: seq<StreamBlock>, survivors: seq<nat>, k: nat)
    requires Survivors(blocks, survivors) && Fits(blocks) && k < |survivors|
    ensures AllBreaks(Lead(ids, blocks, survivors, k))
  {
    hide StartOf, PendingAt;
  }

  lemma EmittedNext(ids: Ids, blocks: seq<StreamBlock>, survivors: seq<nat>, k: nat)
    requires Survivors(blocks, survivors) && Fits(blocks) && k < |survivors|
    ensures var before := Emitted(ids, blocks, survivors, k) + Lead(ids, blocks, survivors, k);
      && Emitted(ids, blocks, survivors, k + 1) == before + [Survivor(ids, blocks, survivors, k)]
      && OutStart(ids, blocks, survivors, k) == Total(before)
      && Survivor(ids, blocks, survivors, k).Unit?
  {
    hide StartOf, Lead, Total;
  }

  /** A reader of the output finds every survivor where `OutStart` says. */
  lemma {:induction false} OutputRanges(ids: Ids, blocks: seq<StreamBlock>, survivors: seq<nat>, n: nat, k: nat)
    requires Survivors(blocks, survivors) && Fits(blocks) && k < n <= |survivors|
    ensures var ranges, start := PositionalRanges(Emitted(ids, blocks, survivors, n)), OutStart(ids, blocks, survivors, k);
      |ranges| == n && ranges[k] == Intervals.Range(start, start + Advance(blocks[survivors[k]]))
  {
    hide PositionalRanges, Total, Emitted, Lead, OutStart, Survivor, RecordsOf;
    var before, lead := Emitted(ids, blocks, survivors, n - 1), Lead(ids, blocks, survivors, n - 1);
    EmittedNext(ids, blocks, survivors, n - 1);
    LeadIsBreaks(ids, blocks, survivors, n - 1);
    BreaksTakeNoRange(before, lead);
    UnitTakesRange(before + lead, Survivor(ids, blocks, survivors, n - 1));
    OutEnd(ids, blocks, survivors, n - 1);
    if k < n - 1 {
      OutputRanges(ids, blocks, survivors, n - 1, k);
    } else {
      OutputCount(ids, blocks, survivors, n - 1);
    }
  }

  lemma NothingEmitted(ids: Ids, blocks: seq<StreamBlock>, survivors: seq<nat>)
    requires Survivors(blocks, survivors) && Fits(blocks)
    ensures PositionalRanges(Emitted(ids, blocks, survivors, 0)) == []
  {
  }

  lemma {:induction false} OutputCount(ids: Ids, blocks: seq<StreamBlock>, survivors: seq<nat>, n: nat)
    requires Survivors(blocks, survivors) && Fits(blocks) && n <= |survivors|
    ensures |PositionalRanges(Emitted(ids, blocks, survivors, n))| == n
  {
    hide *;
    if n == 0 {
      NothingEmitted(ids, blocks, survivors);
    } else {
      OutputCount(ids, blocks, survivors, n - 1);
      EmittedNext(ids, blocks, survivors, n - 1);
      LeadIsBreaks(ids, blocks, survivors, n - 1);
      BreaksTakeNoRange(Emitted(ids, blocks, survivors, n - 1), Lead(ids, blocks, survivors, n - 1));
      UnitTakesRange(Emitted(ids, blocks, survivors, n - 1) + Lead(ids, blocks, survivors, n - 1),
                     Survivor(ids, blocks, survivors, n - 1));
    }
  }

  /** The input range of the record at block `i`, as a reader of the input computes it. */
  lemma {:induction false} InputRange(blocks: seq<StreamBlock>, n: nat, i: nat)
    requires i < n <= |blocks| && blocks[i].Unit?
    ensures |RecordsOf(blocks[..i])| < |PositionalRanges(blocks[..n])|
    ensures PositionalRanges(blocks[..n])[|RecordsOf(blocks[..i])|] == Intervals.Range(StartOf(blocks, i), StartOf(blocks, i + 1))
  {
    assert blocks[..n][..n - 1] == blocks[..n - 1];
    if i < n - 1 {
      InputRange(blocks, n - 1, i);
    }
  }

  // ----- What is emitted, field by field ---------------------------------------------------------

  /**
   * The rewritten record says of the traffic what the input's says, under the output's ids; what is
   * of the input's sequence space, or was only noted on it, is left behind.
   */
  predicate CarriesOver(ids: Ids, out: Record, r: Record, start: int, end: int) {
    && out.sessionId == ids.session && out.senderPid == ids.pid && out.sourceId == ids.source
    && out.timestamp == r.timestamp && out.payload == r.payload && out.flags == r.flags
    && out.decoderId == r.decoderId && out.contentType == r.contentType && out.role == r.role
    && out.seqStart.None? && out.ack.None? && out.tsFirst.None? && out.comment.None? && out.extraOptions == []
    && |out.spans| == 1 && out.spans[0].sourceId == ids.source && out.spans[0].sessionId == ids.inSession
    && out.spans[0].participantId == ids.inPid && out.spans[0].offStart == start && out.spans[0].offEnd == end
  }

  /** One record for each survivor, in the order given. */
  predicate AllCarriedOver(ids: Ids, out: seq<Record>, blocks: seq<StreamBlock>, survivors: seq<nat>, n: nat)
    requires Survivors(blocks, survivors) && n <= |survivors|
  {
    |out| == n && forall k :: 0 <= k < n ==>
      CarriesOver(ids, out[k], blocks[survivors[k]].record, StartOf(blocks, survivors[k]), StartOf(blocks, survivors[k] + 1))
  }

  lemma RecordsOfUnit(a: seq<StreamBlock>, breaks: seq<StreamBlock>, b: StreamBlock)
    requires AllBreaks(breaks) && b.Unit?
    ensures RecordsOf(a + breaks + [b]) == RecordsOf(a) + [b.record]
  {
    NoRecords(a, breaks);
    Placement.Snoc(a + breaks, b);
  }

  lemma {:induction false} NoRecords(a: seq<StreamBlock>, breaks: seq<StreamBlock>)
    requires AllBreaks(breaks)
    ensures RecordsOf(a + breaks) == RecordsOf(a)
  {
    if breaks == [] {
      assert a + breaks == a;
    } else {
      NoRecords(a, breaks[..|breaks| - 1]);
      assert (a + breaks)[..|a + breaks| - 1] == a + breaks[..|breaks| - 1];
    }
  }

  lemma SurvivorCarriesOver(ids: Ids, blocks: seq<StreamBlock>, survivors: seq<nat>, k: nat)
    requires Survivors(blocks, survivors) && Fits(blocks) && k < |survivors|
    ensures var i, b := survivors[k], Survivor(ids, blocks, survivors, k);
      && i < |blocks| && blocks[i].Unit? && b.Unit?
      && CarriesOver(ids, b.record, blocks[i].record, StartOf(blocks, i), StartOf(blocks, i + 1))
  {
    hide StartOf, Fits;
  }

  lemma CarriedSnoc(ids: Ids, out: seq<Record>, blocks: seq<StreamBlock>, survivors: seq<nat>, n: nat, r: Record)
    requires Survivors(blocks, survivors) && n < |survivors| && AllCarriedOver(ids, out, blocks, survivors, n)
    requires CarriesOver(ids, r, blocks[survivors[n]].record, StartOf(blocks, survivors[n]), StartOf(blocks, survivors[n] + 1))
    ensures AllCarriedOver(ids, out + [r], blocks, survivors, n + 1)
  {
    hide StartOf, CarriesOver;
  }

  lemma NothingCarried(ids: Ids, blocks: seq<StreamBlock>, survivors: seq<nat>)
    requires Survivors(blocks, survivors) && Fits(blocks)
    ensures AllCarriedOver(ids, RecordsOf(Emitted(ids, blocks, survivors, 0)), blocks, survivors, 0)
  {
  }

  /** The emitted records are the survivors' own. */
  lemma {:induction false} EmittedCarryOver(ids: Ids, blocks: seq<StreamBlock>, survivors: seq<nat>, n: nat)
    requires Survivors(blocks, survivors) && Fits(blocks) && n <= |survivors|
    ensures AllCarriedOver(ids, RecordsOf(Emitted(ids, blocks, survivors, n)), blocks, survivors, n)
  {
    hide *;
    if n == 0 {
      NothingCarried(ids, blocks, survivors);
    } else {
      var before, lead := Emitted(ids, blocks, survivors, n - 1), Lead(ids, blocks, survivors, n - 1);
      EmittedCarryOver(ids, blocks, survivors, n - 1);
      LeadIsBreaks(ids, blocks, survivors, n - 1);
      EmittedNext(ids, blocks, survivors, n - 1);
      SurvivorCarriesOver(ids, blocks, survivors, n - 1);
      RecordsOfUnit(before, lead, Survivor(ids, blocks, survivors, n - 1));
      CarriedSnoc(ids, RecordsOf(before), blocks, survivors, n - 1, Survivor(ids, blocks, survivors, n - 1).record);
    }
  }

  /** An input break, put back under the output's ids. */
  predicate PutBack(ids: Ids, b: StreamBlock, brk: Discontinuity) {
    && b.Break? && b.brk.sessionId == ids.session && b.brk.participantId == ids.pid
    && b.brk.width == brk.width && b.brk.reason == brk.reason && b.brk.comment == brk.comment
  }

  /** A break of the stage's own. */
  predicate OwnBreak(ids: Ids, b: StreamBlock, width: Option<u64>, reason: string) {
    && b.Break? && b.brk.sessionId == ids.session && b.brk.participantId == ids.pid
    && b.brk.width == width && b.brk.reason == Some(reason) && b.brk.comment.None?
  }

  /** The breaks stored in `blocks[m..n)`, in order. */
  function BreaksIn(blocks: seq<StreamBlock>, m: nat, n: nat): (breaks: seq<Discontinuity>)
    requires m <= n <= |blocks|
    ensures |breaks| == |set i | m <= i < n && blocks[i].Break?|
  {
    if m == n then []
    else
      assert (set i | m <= i < n && blocks[i].Break?)
          == (set i | m <= i < n - 1 && blocks[i].Break?) + if blocks[n - 1].Break? then {n - 1} else {};
      BreaksIn(blocks, m, n - 1) + if blocks[n - 1].Break? then [blocks[n - 1].brk] else []
  }

  /** What a survivor inherits are all breaks stored since the survivor stored before it. */
  lemma {:induction false} PendingIs(blocks: seq<StreamBlock>, survivors: seq<nat>, m: nat, n: nat)
    requires m <= n <= |blocks| && (forall i :: m <= i < n ==> i !in survivors)
    requires m == 0 || (m - 1 in survivors && blocks[m - 1].Unit?)
    ensures PendingAt(blocks, survivors, n) == BreaksIn(blocks, m, n)
  {
    if m < n {
      PendingIs(blocks, survivors, m, n - 1);
    }
  }

  /** Before a survivor stand the input's own breaks, in order. */
  lemma LeadPutsBack(ids: Ids, blocks: seq<StreamBlock>, survivors: seq<nat>, k: nat)
    requires Survivors(blocks, survivors) && Fits(blocks) && k < |survivors|
    ensures var lead, pending := Lead(ids, blocks, survivors, k), PendingAt(blocks, survivors, survivors[k]);
      && |pending| <= |lead| <= |pending| + (if k == 0 then 0 else 1)
      && forall i :: 0 <= i < |pending| ==> PutBack(ids, lead[i], pending[i])
  {
    hide StartOf, PendingAt, Widths;
  }

  lemma ReorderedBreak(ids: Ids, ends: nat, begins: u64, carried: nat)
    requires begins < ends
    ensures var seam := Seam(ids, ends, begins, carried);
      |seam| == 1 && OwnBreak(ids, seam[0], None, "reordered") && Total(seam) == 0
  {
    TotalSeam(Seam(ids, ends, begins, carried));
    hide Total;
  }

  /**
   * Where the output steps back in the input, a break of unknown width says so, and the output
   * advances over the seam by the input's own declared widths alone.
   */
  lemma ReorderedSeam(ids: Ids, blocks: seq<StreamBlock>, survivors: seq<nat>, k: nat)
    requires Survivors(blocks, survivors) && Fits(blocks) && 0 < k < |survivors|
    requires StartOf(blocks, survivors[k]) < StartOf(blocks, survivors[k - 1] + 1)
    ensures var lead, pending := Lead(ids, blocks, survivors, k), PendingAt(blocks, survivors, survivors[k]);
      |lead| == |pending| + 1 && OwnBreak(ids, lead[|pending|], None, "reordered")
    ensures OutStart(ids, blocks, survivors, k)
         == OutStart(ids, blocks, survivors, k - 1) + Advance(blocks[survivors[k - 1]])
            + Widths(PendingAt(blocks, survivors, survivors[k]))
  {
    hide *;
    LeadParts(ids, blocks, survivors, k);
    var pending := PendingAt(blocks, survivors, survivors[k]);
    ReorderedBreak(ids, StartOf(blocks, survivors[k - 1] + 1), StartOf(blocks, survivors[k]), Widths(pending));
    OutStartIs(ids, blocks, survivors, k);
    OutEnd(ids, blocks, survivors, k - 1);
    TotalCarried(ids, pending);
  }

  lemma LeadParts(ids: Ids, blocks: seq<StreamBlock>, survivors: seq<nat>, k: nat)
    requires Survivors(blocks, survivors) && Fits(blocks) && 0 < k < |survivors|
    ensures survivors[k] < |blocks| && survivors[k - 1] < |blocks| && StartOf(blocks, survivors[k]) < U64_END
    ensures var pending := PendingAt(blocks, survivors, survivors[k]);
            var seam := Seam(ids, StartOf(blocks, survivors[k - 1] + 1), StartOf(blocks, survivors[k]), Widths(pending));
      && Lead(ids, blocks, survivors, k) == CarriedForward(ids, pending) + seam
      && Total(Lead(ids, blocks, survivors, k)) == Total(CarriedForward(ids, pending)) + Total(seam)
  {
    var pending := PendingAt(blocks, survivors, survivors[k]);
    StartFits(blocks, survivors[k]);
    TotalConcat(CarriedForward(ids, pending),
                Seam(ids, StartOf(blocks, survivors[k - 1] + 1), StartOf(blocks, survivors[k]), Widths(pending)));
    hide StartOf, PendingAt, Widths, CarriedForward, Total, Seam;
  }

  /** Filtering in stored order declares exactly the payload dropped at the seam, and nothing if none was. */
  lemma FilteredSeam(ids: Ids, blocks: seq<StreamBlock>, survivors: seq<nat>, k: nat)
    requires Survivors(blocks, survivors) && Fits(blocks) && InStoredOrder(survivors) && 0 < k < |survivors|
    ensures var lead, pending := Lead(ids, blocks, survivors, k), PendingAt(blocks, survivors, survivors[k]);
            var dropped := Payload(blocks, survivors[k - 1] + 1, survivors[k]);
      if dropped == 0 then |lead| == |pending|
      else |lead| == |pending| + 1 && dropped < U64_END && OwnBreak(ids, lead[|pending|], Some(dropped), "records-dropped")
  {
    NoneBetween(survivors, k);
    PendingBetween(blocks, survivors, survivors[k - 1] + 1, survivors[k]);
    StartFits(blocks, survivors[k]);
    hide StartOf, PendingAt, Widths, Payload;
  }
}
