# ZPF in Dafny

A model of the logic behind ZPF files (packet-capture conversations, stored as blocks) and
proofs of what that logic promises. `dafny verify dfyconfig.toml` checks the whole project.

Three cores are modelled, each in the form its source has: functions where the source computes,
classes with mutable fields where it keeps state, loops where it loops. Every class or loop is
proved against a specification function or a declarative predicate, and the promises are proved
of that specification.

## The causal order

`Serial`, `Placement`, `Unwrapping`, `CausalRule`, `StoredOrder`, `CausalMerge`, `MergeTheorems`,
`MergeSteps`, `CausalExistence`, `HonestRun`, `AckedSends`, `PlacementGuard`, `SessionWriter`,
`FileMerge`.

32-bit TCP sequence numbers are unwrapped into integer positions one step at a time (the
comparison is that of section 3.2 of RFC 1982; what consumes a sequence number is section 3.4 of
RFC 9293). `CausalRule` states when a stored order is causal by comparing every pair of records.
`StoredOrder` is the single-pass checker and `CausalMerge` the streaming two-way merge; both are
proved against the pairwise rule. The hypotheses the merge relies on are spelled out in
`MergeTheorems.WellBehaved`: the ends that exist never decrease, a zero-length SYN comes before
the records that have no end, and a stream has an origin from its first record on or never.
`CausalExistence` says, for any two streams, exactly when they have a causal interleaving: each keeps
its own order, and no two pairs of records acknowledge each other crosswise. `HonestRun` builds the
records as a step system (each side has a send frontier, each ack is
bounded by the peer's frontier) and shows that any captured part of a run meets those hypotheses
and is merged whole. `AckedSends` says, of every way to store two captures together, which are causal,
in the run's own positions: by what each send consumes and what each ack truly acknowledges, with no
mention of offsets or ends. `MergeSteps` spells the merge out record by record: which head is held back,
and which goes next. `PlacementGuard` states what the writer's guard refuses, and what
everything ever written keeps: a SYN at its origin, and a place for every payload, but for one distance
(see below). `FileMerge` is the file-level merge of two one-direction captures, where this
core meets the next one: every record stays at the offset it had, and the output accounts for both
inputs.

## Reassembly and coverage

`Intervals`, `OffsetSpace`, `FirstStored`, `Reassembly`, `StreamUnits`, `StreamView`, `Fills`,
`Ledger`, `CoverageCheck`, `Stage`, `CoverageLedger`, `UnmarkedBreaks`, `BreakChecker`, `Rewriting`,
`RewriteRuns`, `RewriteCoverage`, `MarkedRegions`.

`FirstStored` says which record an offset belongs to (the first stored one that covers it) with
no mention of runs, cursors or trimming. The one-pass reassembly walk, what it measures, and the
times it answers are proved against it and against `OffsetSpace`'s separate definitions of range,
extent and FIN position. A stage's ledger is proved to denote exactly the spans and markers the
stage wrote, in any number of output sessions; auto-fill then leaves a file in which an
independently written validator finds nothing, provided citations and markers name offsets the
input has and the input's layers agree with how its streams are hinted. `CoverageLedger` is the
check from the output file alone, with its exact blind spot. `UnmarkedBreaks` states over pairs of
neighbouring records when a Discontinuity is missing, and `BreakChecker` is the streaming checker.
`Rewriting`, `RewriteRuns` and `RewriteCoverage` cover filtering and reordering a decoded stream: its
offsets, its breaks, and what it says of its input. `MarkedRegions` joins the checker to the writers:
which of the markers a stage, a merge or a rewrite leaves keep two neighbours apart, and that a break
a filter declares is needed.

## The container

`Wire`, `RecordCodec`, `RecordLayout`, `Container`, `ReaderSoundness`.

TLV options with padding, the Record block's content, and the framed byte stream. Text is UTF-8
and enters as a predicate on byte strings. `RecordLayout` and `ReaderSoundness` describe what is read
from any bytes at all by where things stand in them, and prove the parsers read exactly that.

## Where code and documentation differ

- `StreamView.ts_for` is documented as the maximum over records "that contributed accepted bytes",
  and as `None` for an empty range. On a packet-oriented stream an empty datagram strictly inside
  the range contributes no byte and is counted all the same: `StreamViews.DocumentedTimeIff` says
  exactly when the answer is the documented one, `StreamViews.EmptyDatagramDecides` is an instance
  where it is not. An empty range is answered whenever one contribution runs across it
  (`StreamViews.EmptyRangeIsNoneIff`, with `StreamViews.EmptyRangeIsAnswered` an instance).
- A FIN's position is owed nothing, and auto-fill leaves it unmarked. The merge of two files marks
  it `gap` when it lies inside the extent (`FileMerge.MarksAreLost`, with `FileMerge.FinIsMarked` an
  instance); the validator accepts both.
- The block writer promises well-formed bytes, but takes an `UnknownBlock` whose content is not a
  multiple of 4 bytes long, or whose type code and content read as something else; the reader then
  refuses or changes it. `Container.WholeFileIff` and, for any prefix, `Container.PrefixIff` give the
  exact condition, and `Container.WriterAcceptsUnreadable` an instance.
- A merge that stalls is reported as inconsistent hints. The report is right exactly when the streams
  conflict or one steps back (`CausalExistence.RefusalIsRightIff`), a condition on pairs of the
  records given. With an end on both heads that is always so (`CausalExistence.StalledEndsConflict`);
  with an endless head it may or may not be, and `MergeTheorems.StallWithoutEndsProvesNothing` is an
  instance where it is not.
- The placement guard leaves a record below its predecessor to the ordering rule, which it says forbids
  it. A record exactly 2^31 past its sender's last placed one is below it in serial arithmetic and yet
  passes the ordering rule, where each of the two values precedes the other: it is written and has no
  offset. `PlacementGuard.OnlyHopsLose` shows that this is the only way a payload is first lost, and
  `PlacementGuard.HopIsWritten` is an instance.
- `StreamView.is_stream_oriented` looks at the first record only, the offset space at any record. They
  disagree exactly on a stream without an `isn` whose first hint is not on its first record
  (`StreamViews.OrientedIffPlaced`).
- `rewrite_decoded` marks a declared width after the last record past the extent it computes;
  `RewriteCoverage.RewriteIsCleanIff` and `RewriteCoverage.MarksStayInside` say when it does not, and
  `RewriteCoverage.TrailingWidthIsExcess` is an instance.

## Model

| member | source | states |
|---|---|---|
| Serial.OrderedIffForward | src/zpf/order.py:73-117 | a pair passes the ordering rule iff its serial distance is non-negative, or is the undefined distance 2^31, where each value precedes the other |
| Serial.DeltaOfWrapped | src/zpf/order.py:88-112 | the serial distance of two positions' low 32 bits is their true distance whenever that is under 2^31 |
| Unwrapping.UnwrappingIsExact | src/zpf/order.py:173-276 | at any stream length, a hinted record is placed at its true distance from the origin iff nothing before it reached further, and is unplaceable otherwise |
| Unwrapping.WalkIsExact | src/zpf/order.py:173-206 | after any number of records the walk stands at the furthest true position reached |
| Unwrapping.UnplaceableMovesNothing | src/zpf/order.py:209-276 | an unplaceable record leaves the walk where it was |
| Unwrapping.AckWalkIsExact | src/zpf/order.py:318-390 | an ack walk recovers the true acknowledged position of every ack |
| Unwrapping.LateOriginIsExact | src/zpf/order.py:318-390 | applying the peer's origin only when it becomes known gives the position a walk started at that origin would have |
| Placement.Placer.PlaceRecord | src/zpf/order.py:260-276 | the placer with a fixed origin follows the placement function, state and answer |
| Placement.StreamPlacer.PlaceRecord | src/zpf/order.py:279-315 | the placer that takes its origin from the first hint follows the same function |
| Placement.AckWalk.Observe | src/zpf/order.py:362-373 | one ack moves the walk and its running maximum as the specification says |
| CausalRule.CausalOrderPairwise | src/zpf/order.py:596-636 | an order is causal iff each sender's values are in serial order and no record comes after one that acknowledged it, over all pairs |
| CausalRule.FollowsIsInOrder | src/zpf/order.py:650-662 | each record following its sender's last number is the stream stepping, from each number carried to the next, at most 2^31 forward mod 2^32 |
| StoredOrderCheck.CountDecidesWhatBinds | src/zpf/order.py:611-651 | a known count binds acknowledgements iff it is two; an unknown one binds every record stored before a third participant has sent anything, and none after |
| StoredOrderCheck.RunningMaximumIsExact | src/zpf/order.py:673-694 | comparing an end with a sender's highest ack is comparing it with every ack that sender stored |
| StoredOrderCheck.EdgesKeptIffClear | src/zpf/order.py:673-694 | the acknowledgement rule over all earlier records is the rule over the peers' running maxima |
| StoredOrderCheck.VerdictIsAdmits | src/zpf/order.py:638-694 | the single-pass verdict on one record is the pairwise rule's |
| StoredOrderCheck.StoredOrder.Observe | src/zpf/order.py:638-671 | the checker accepts a record iff it may be stored after everything accepted so far |
| StoredOrderCheck.VerifySequenced | src/zpf/order.py:697-746 | a whole sequence is accepted iff it is a causal order |
| CausalMerge.Frontier.Advance | src/zpf/order.py:437-465 | moving a frontier to the next record keeps it at the state the stored prefix determines, and refuses a sequence number that steps back |
| CausalMerge.Merge | src/zpf/order.py:509-587 | the merge loop emits what repeated picking of the earliest ready head emits, and ends as it ends |
| CausalMerge.MergeSingle | src/zpf/order.py:509-587 | the loop with one frontier emits the stream as stored, up to where it steps back |
| CausalMerge.SingleIsPrefix | src/zpf/order.py:509-587 | one stream alone is emitted whole iff it keeps its own order, else a prefix of it that does |
| MergeTheorems.LowestEndIsLower | src/zpf/order.py:468-506 | the bound a head is compared with is below every end its stream has still to come |
| MergeTheorems.MergeIsSafe | src/zpf/order.py:404-587 | whatever the merge emits is causal, and a completed merge is an interleaving of both streams, each in its own order |
| MergeTheorems.CompletedMergeDelivers | src/zpf/order.py:509-587 | whatever the streams, a completed merge interleaves them, each in its own order |
| MergeTheorems.HowItEnds | src/zpf/order.py:566-587 | a merge ends with both streams out, stuck on two present heads, or at a stream that steps back |
| MergeTheorems.StallIsCertificate | src/zpf/order.py:567-577 | a stall has both heads present, and if both have an end no interleaving of the streams is causal |
| MergeTheorems.OutOfOrderHasNoOrder | src/zpf/order.py:437-465 | a stream whose own sequence numbers step back has no causal interleaving |
| MergeTheorems.MergeDecides | src/zpf/order.py:509-587 | when every record has an end, the merge completes iff some interleaving is causal |
| MergeTheorems.StallWithoutEndsProvesNothing | src/zpf/order.py:500-506 | two well-behaved streams on which the merge stalls although a causal interleaving exists |
| MergeSteps.ReadyIffNotHeld | src/zpf/order.py:468-506 | a head may go iff no ack of it reaches the peer head's end or, where that head has none, everything its stream has emitted and more than the head's own place |
| MergeSteps.EveryStepIsNext | src/zpf/order.py:540-593 | of any two streams, every record emitted is the earliest by time and participant of the heads not held back then, and a stall holds both heads back |
| CausalExistence.OrderExistsIff | src/zpf/order.py:596-694 | any two streams have a causal interleaving iff each keeps its own order and no two pairs of records acknowledge each other crosswise: an earlier one of `a` a later one of `b`, and an earlier one of `b` a later one of `a` |
| CausalExistence.RefusalIsRightIff | src/zpf/order.py:567-577 | a refused merge means no causal interleaving exists iff the streams conflict or one steps back; a refusal for stepping back always does |
| CausalExistence.StalledEndsConflict | src/zpf/order.py:567-577 | a stall with an end on both heads is a conflict |
| CausalExistence.OrderExistsInTruth | src/zpf/order.py:596-694 | the same condition on true positions, whatever was captured, retransmissions included |
| CausalExistence.AcknowledgesTruly | src/zpf/order.py:137-170 | one record acknowledges another iff its true ack reaches all the other occupies (data, SYN or FIN) and nothing stored before the other reached further |
| HonestRun.CaptureIsMergeable | src/zpf/order.py:468-506 | any captured part of an honest run meets the hypotheses of the merge's safety |
| HonestRun.HonestCaptureMerges | src/zpf/order.py:509-587 | any captured part of a two-party run merges whole into a causal interleaving, whatever the timestamps |
| AckedSends.ConsumingSendsEnd | src/zpf/order.py:137-170 | a captured send has an end iff it moves its sender's frontier, and the end is the position after it, less a FIN that rides on data or on a SYN |
| AckedSends.CausalIffNoneForetold | src/zpf/order.py:596-694 | however two captures of a run are stored together, the order is causal iff no record stored before a send of the other side truly acknowledges what that send consumed |
| PlacementGuard.GuardRefusesIff | src/zpf/writer.py:1011-1048 | of a declared stream's hinted records exactly these are refused: a SYN not at `isn + 1`, and a payload behind `isn + 1` while nothing has been placed past it |
| PlacementGuard.AcceptedSyns | src/zpf/writer.py:980-986 | of everything written, every hinted SYN of a declared participant sits at `isn + 1` |
| PlacementGuard.OnlyHopsLose | src/zpf/writer.py:1034-1040 | in a written stream, before any hop, a payload has no offset iff its record is exactly 2^31 past a placed predecessor that is not at the origin |
| PlacementGuard.AcceptedPayloads | src/zpf/writer.py:987-1006 | of everything written, every hinted payload of a declared participant whose stream has no such hop has an offset |
| PlacementGuard.HopIsWritten | src/zpf/writer.py:1034-1040 | two bytes 2^31 apart: both are written and the second has no offset |
| SessionWriter.SessionWriter.GuardPlacement | src/zpf/writer.py:975-1048 | the guard answers as `PlacementGuard` says, from one anchor for each declared stream |
| SessionWriter.SessionWriter.EmitRecord | src/zpf/writer.py:965-973 | a record is written iff the guard and the order check both admit it; what is written keeps SYNs at their origin and payloads placed |
| SessionWriter.SessionWriter.FlushPending | src/zpf/writer.py:1050-1064 | with up to two participants buffered, after whatever is written: the merge's output is appended up to the first record refused, it says which and why, and what is written keeps SYNs at their origin and payloads placed |
| SessionWriter.AdmitsWellBehaved | src/zpf/writer.py:1050-1064 | written first, what the merge makes of well-behaved streams, or of one sender's, always passes the order check |
| SessionWriter.HonestFlushSucceeds | src/zpf/writer.py:1050-1064 | for an honest capture the flush merges everything and every record passes guard and order check |
| FileMerge.Reissued | src/zpf/transform.py:285-323 | every record carries the output's ids and one span, of exactly the range it occupies, and is otherwise the input's, field by field |
| FileMerge.OffsetSpaceKept | src/zpf/transform.py:285-323 | a reader of the merged file finds each record at its input offsets, which are the ones its span names |
| FileMerge.AccountForInput | src/zpf/transform.py:175-213 | `gap` markers name exactly the offsets no record occupies, and the declared length is the input's |
| FileMerge.MarksAreLost | src/zpf/transform.py:175-213 | on a placed stream those are the lost offsets, and a FIN's position at the last byte's end |
| FileMerge.FinIsMarked | src/zpf/transform.py:175-213 | two bytes, a FIN and a pure ACK past it: the FIN's position is marked although it is not lost |
| FileMerge.MergeFiles | src/zpf/transform.py:76-172 | the file is finished iff the causal merge completes; then every record is of one side and each side's are its input's, one by one and field by field, nothing but `gap` markers and both lengths are added, and the validator finds nothing against either input; it is in causal order if both inputs are well behaved |
| FileMerge.MergeAlike | src/zpf/order.py:509-587 | how a merge ends depends only on payloads, flags, hints, stamps and which participant comes first |
| FileMerge.HonestCapturesAreMerged | src/zpf/transform.py:76-172 | two captured directions of one run are always merged, whatever the timestamps and whatever was missed |
| Intervals.RangeList.Add | src/zpf/_intervals.py:29-72 | adding in place, on the append path and on the bisect path, keeps the list sorted, disjoint and non-touching and denotes the old set with the new range |
| Intervals.AddEach | src/zpf/_intervals.py:29-72 | a batch added one by one as it comes ends in the list `coalesce` returns for it |
| Intervals.CoalescedUnique | src/zpf/_intervals.py:29-91 | two such lists that denote the same set are equal |
| Intervals.AnyOrderSameList | src/zpf/_intervals.py:75-91 | the ranges of a batch added in any order end in one list |
| Intervals.Coalesce | src/zpf/_intervals.py:75-91 | the batch form denotes the union, is coalesced, and is the list of one-by-one adding |
| Intervals.Complement | src/zpf/_intervals.py:94-115 | exactly what start-sorted, possibly overlapping ranges leave of [0, extent), in ascending non-empty ranges |
| Intervals.Intersections | src/zpf/_intervals.py:118-142 | exactly the offsets both start-sorted lists cover, overlapping ranges included, in order of their starts |
| Intervals.EmptyIffDisjoint | src/zpf/_intervals.py:118-142 | the overlap list is empty iff the lists share no offset |
| OffsetSpace.RecordRanges | src/zpf/reassembly.py:116-214 | refuses an undefined layer; otherwise one range per record, positional or placed as the layer decides |
| OffsetSpace.RangesInTruth | src/zpf/reassembly.py:190-214 | a record nothing before it reached past has the range at its true distance from the origin; any other an empty one at the furthest end so far |
| OffsetSpace.PositionalExtent | src/zpf/reassembly.py:296-337 | positional ranges ascend without overlap and a break after the last record does not extend the stream |
| OffsetSpace.ReachIsFurthest | src/zpf/reassembly.py:296-337 | the reach is attained by a placed record and exceeded by none |
| OffsetSpace.PlacedExtent | src/zpf/reassembly.py:296-337 | a placed stream's extent is the furthest point its placeable records reach |
| OffsetSpace.FinPositions | src/zpf/reassembly.py:242-293 | the FIN positions strictly inside the extent, sorted, and none for a stream that is not placed |
| FirstStored.HeldSoFar | src/zpf/order.py:260-276 | placed offsets never move back, so everything from the walk's position to the last byte is already held |
| FirstStored.Settled | src/zpf/reassembly.py:1200-1209 | who holds an offset below the last byte is never changed by a later record |
| FirstStored.CoveredRetransmit | src/zpf/reassembly.py:698-777 | a retransmit whose bytes are all held takes over no offset, and every later record keeps its offset and its bytes, given that the next hint is not serially below the retransmit and within 2^31 of the record before it |
| FirstStored.OffsetsStay | src/zpf/order.py:260-276 | every record after such a retransmit is placed where it would be without it |
| Reassembly.MeasurementIsExact | src/zpf/reassembly.py:766-789 | the holes of a finished walk are exactly the offsets inside the extent that nobody holds, less a FIN at the last byte's end |
| Reassembly.MeasurementIsTheDefinition | src/zpf/reassembly.py:203-337 | those holes, and the extent, are what record ranges, stream extent and FIN positions separately define |
| StreamViews.StreamView.Walk | src/zpf/reassembly.py:718-783 | one pass yields alternating runs and holes that tile the stream, each run's bytes being those of the first stored records |
| StreamViews.StreamView.Chunks | src/zpf/reassembly.py:698-789 | a packet-oriented stream is refused; a finished walk leaves a true measurement behind |
| StreamViews.StreamView.Units | src/zpf/reassembly.py:864-944 | hinted or not, a unit sequence or not: the datagrams and breaks each block yields, in order; a packet-oriented walk leaves the measurement |
| StreamViews.StreamView.Datagrams | src/zpf/reassembly.py:828-862 | the datagrams among those units |
| StreamUnits.PacketDatagrams | src/zpf/reassembly.py:898-944 | without hints, one datagram per record, at its positional range |
| StreamUnits.HintedDatagrams | src/zpf/reassembly.py:898-944 | with hints, one datagram per record that has a place, at that place |
| StreamUnits.BreaksAreVisible | src/zpf/reassembly.py:864-887 | two datagrams yielded next to each other have no break between their records, and no two of a unit sequence are |
| StreamUnits.BreaksReported | src/zpf/reassembly.py:898-912 | every stored break is reported with its own width and reason at the offset reached, in order |
| StreamUnits.ImpliedBreaks | src/zpf/reassembly.py:914-916 | a unit sequence is reported with one break more before every record but its first, of no width and no reason, any other stream with none |
| StreamViews.OrientedIffPlaced | src/zpf/reassembly.py:652-663 | a stream is called a byte stream iff it is placed by sequence numbers, except where its first hint is not on its first record |
| StreamViews.StreamView.Measurement | src/zpf/reassembly.py:1041-1050 | the cached measurement is the stream's own extent, holes and FIN positions |
| StreamViews.StreamView.ExtentAndGaps | src/zpf/reassembly.py:988-1023 | the extent and exactly the lost offsets |
| StreamViews.StreamView.TsFor | src/zpf/reassembly.py:1052-1075 | on a byte stream, the latest record any offset of the range belongs to, or None if none is held |
| StreamViews.LatestIsCompletion | src/zpf/reassembly.py:383-422 | the maximum over overlapping contributions is the maximum over the range's offsets |
| StreamViews.RetransmitMovesNoTime | src/zpf/reassembly.py:383-422 | a fully covered retransmit, anywhere in the stream, leaves every completion time alone |
| StreamViews.RetransmitKeepsTsFor | src/zpf/reassembly.py:1052-1075 | the answers of `ts_for` with and without it are equal, for empty ranges too |
| StreamViews.WhatOverlaps | src/zpf/reassembly.py:1069-1075 | a contribution counts iff it shares an offset with the range, or one of the two is empty and strictly inside the other |
| StreamViews.DocumentedTimeIff | src/zpf/reassembly.py:1052-1075 | the answer is the maximum over the parts with a byte in the range iff every empty datagram strictly inside it is no later than some such part |
| StreamViews.EmptyDatagramDecides | src/zpf/reassembly.py:1052-1075 | two datagrams and a later empty one between them, answered with the empty one's time |
| StreamViews.EmptyRangeIsNoneIff | src/zpf/reassembly.py:1064-1075 | an empty range has no time iff no contribution runs across it |
| StreamViews.EmptyRangeIsInsideARecord | src/zpf/reassembly.py:1064-1075 | on a byte stream an empty range has a time iff one record holds the offsets on both sides, and then it is that record's stamp |
| StreamViews.EmptyRangeIsAnswered | src/zpf/reassembly.py:1064-1075 | an empty range inside a datagram, answered with the datagram's time |
| Fills.LabelFills | src/zpf/decode.py:1095-1118 | the fills cover exactly the uncovered ranges, ascending; `gap` parts lie in holes and `skipped` parts outside them |
| Fills.CheckStream | src/zpf/transform.py:857-887 | an overlap, a gap or an excess is reported iff some offset is doubly, not or excessively accounted for, at such offsets and at least where each stretch begins |
| Ledgers.Ledger.Cite | src/zpf/decode.py:237-242 | the cited lists denote exactly the spans counted so far that cite the stage's source |
| Ledgers.Ledger.Mark | src/zpf/decode.py:244-250 | the marked lists denote exactly the blocks counted so far |
| Ledgers.Ledger.Extent | src/zpf/decode.py:252-264 | the declared extent is the input stream's own |
| Ledgers.Ledger.FillStream | src/zpf/decode.py:276-305 | refused iff some offset is cited and marked; otherwise the blocks name exactly the offsets still owed |
| Ledgers.Ledger.Autofill | src/zpf/decode.py:266-305 | over all streams: fails iff some stream clashes; fills are labelled, disjoint and cover exactly what is owed |
| CoverageCheck.CheckCoverage | src/zpf/transform.py:343-434 | no finding iff every stream is accounted for exactly once up to its extent, FIN positions aside, and every declared length is right |
| CoverageCheck.MeasuredAlike | src/zpf/transform.py:797-837 | where layer and hints agree, the validator measures the extent and FIN positions the stage measured |
| Stages.FlowSession.AddRecord | src/zpf/sessionize.py:197-276 | a record counts iff it cites something, and several ranges only as a hinted record or one message, the session is open and the writer accepts it; then the session has cited exactly the known streams its spans name |
| Stages.FlowSession.End | src/zpf/sessionize.py:278-297 | ending declares the extent of every stream the session cited and of no other; ending again declares nothing |
| Stages.SessionizeStage.EndSession | src/zpf/sessionize.py:278-297 | a session ended early has declared all it cited, and what others declared stays |
| Stages.SessionizeStage.Incomplete | src/zpf/sessionize.py:472-524 | either every piece is marked undecodable, or nothing is written |
| Stages.FilledIsClean | src/zpf/decode.py:266-305 | cited, marked, filled and FIN offsets together account for a stream exactly once |
| Stages.CleanCloseIsClean | src/zpf/transform.py:857-887 | after a clean close the validator's whole condition holds |
| Stages.SessionizeStage.Close | src/zpf/sessionize.py:526-558 | closing succeeds iff nothing was cited and marked; then well-labelled fills stand on exactly what was still owed, every session has ended with all it cited declared, every record written cites with the evidence it needs, and the finished file leaves the validator nothing to find |
| CoverageLedgers.CoverageLedger.Observe | src/zpf/conformance.py:284-307 | block by block, the ledger denotes exactly what the file has cited, marked against an input, and declared |
| CoverageLedgers.CapturesMarkNothing | src/zpf/conformance.py:284-307 | a marker of a source declared to be a capture accounts for nothing |
| CoverageLedgers.StreamFindings | src/zpf/conformance.py:351-409 | for one stream: gaps at their starts iff it is cited, a length too long iff past the reach by more than one, too short iff below it, and one finding alone when lengths disagree |
| CoverageLedgers.CoverageLedger.FindingsFor | src/zpf/conformance.py:351-409 | for a cited stream with one declared length E, nothing is reported iff everything below E-1 is accounted for and nothing from E on; for any stream, iff what the file alone can hold it to holds, and each category is reported where it applies |
| CoverageLedgers.CoverageLedger.Findings | src/zpf/conformance.py:309-349 | nothing is reported of the file iff every stream holds |
| UnmarkedBreaks.ReachAndStart | src/zpf/conformance.py:892-929 | the reach and start of a record on an input stream are attained by its spans and bound them |
| UnmarkedBreaks.CandidatesArePairs | src/zpf/conformance.py:892-929 | the candidates held for a stream are exactly the gaps its unmarked neighbours leave |
| UnmarkedBreaks.KindTracks | src/zpf/conformance.py:1153-1199 | the stream is judged iff a record of it is decoded and its participant is no unit sequence |
| BreakCheckers.TrackBreakCandidates | src/zpf/conformance.py:892-929 | the loop over spans and starts computes the specified next state |
| BreakCheckers.BreakChecker.Observe | src/zpf/conformance.py:674-746 | the checker's state is what the blocks read so far determine, sessions ended or open |
| BreakCheckers.BreakChecker.Finish | src/zpf/conformance.py:1094-1199 | on a file with no other violation it raises iff two neighbours of a joining decoded stream leave a gap that a hole-class or dropped region anywhere meets |
| BreakCheckers.FiresIffUnmarked | src/zpf/conformance.py:1094-1140 | the held state says exactly what the rule over pairs of blocks says |
| BreakCheckers.UndecodedPlacementIsFree | src/zpf/conformance.py:1094-1140 | moving Undecoded blocks anywhere in the file does not change the verdict |
| MarkedRegions.WordsDecide | src/zpf/conformance.py:1369-1387 | which non-empty markers separate what they meet, word by word and class by class; an explicit class decides against the word |
| MarkedRegions.FillBreaksIff | src/zpf/decode.py:1095-1118 | a stage's fill separates iff a lost offset of it lies between; what was skipped never does |
| MarkedRegions.StageFileBreaksIff | src/zpf/conformance.py:1094-1140 | of a stage's file the check raises iff a lost offset the stage filled lies between what two neighbours of a joining stream cite |
| MarkedRegions.MissingBreaks | src/zpf/transform.py:175-213 | a range a merge found missing separates whatever it meets |
| MarkedRegions.IncompleteBreaksNothing | src/zpf/sessionize.py:472-524 | the pieces of a message that never completed separate nothing |
| MarkedRegions.NothingToJudge | src/zpf/conformance.py:1188-1199 | nothing is raised of a file with only unit sequences, with nothing decoded, or with captures' markers only |
| Rewriting.FilterShiftsByOneConstant | src/zpf/transform.py:1062-1094 | a filter emits every survivor at its input offset less what was dropped ahead of the first |
| Rewriting.LeadSpansTheGap | src/zpf/transform.py:1151-1181 | what is emitted at a seam advances the output by exactly the input distance, so no missing byte counts twice |
| Rewriting.OutputRanges | src/zpf/reassembly.py:190-202 | a reader of the output computes those offsets |
| Rewriting.KeepingAllIsIdentity | src/zpf/transform.py:1095-1117 | with nothing dropped or moved, each record's span is its own output range |
| Rewriting.EmittedCarryOver | src/zpf/transform.py:1090-1118 | the emitted records are the survivors' in payload, time, flags, decoder, content type and role, with the output's ids, one span, and no hint, comment or extra option |
| Rewriting.PendingIs | src/zpf/transform.py:1184-1209 | what a survivor inherits are all breaks stored since the survivor stored before it |
| Rewriting.LeadPutsBack | src/zpf/transform.py:1078-1086 | before a survivor stand the input's own breaks, in order, with their width, reason and comment |
| Rewriting.ReorderedSeam | src/zpf/transform.py:1171-1175 | where the output steps back in the input a `reordered` break of unknown width says so, and the output advances by the input's declared widths alone |
| Rewriting.FilteredSeam | src/zpf/transform.py:1176-1181 | filtering in stored order declares exactly the payload dropped at the seam, and nothing if none was |
| RewriteCoverage.InheritedBreaks | src/zpf/transform.py:1184-1209 | each survivor gets exactly the breaks met since the survivor stored before it |
| RewriteCoverage.RewriteStream | src/zpf/transform.py:1045-1148 | for any filter and order: the emitted stream, `gap` markers on exactly the holes, `dropped` markers on exactly the dropped records, spans on exactly the survivors, and the validator's condition iff no width follows the last record |
| RewriteCoverage.SpansCiteSurvivors | src/zpf/transform.py:1095-1117 | the emitted records cite exactly the offsets of the surviving ones |
| RewriteCoverage.OutputPartitionsInput | src/zpf/transform.py:1119-1148 | every offset of the input is cited by the emitted records, or marked `gap`, or marked `dropped`, and no two of these |
| RewriteCoverage.RewriteIsCleanIff | src/zpf/transform.py:857-887 | the validator finds nothing in the rewritten file iff no declared width follows the last record |
| RewriteCoverage.TrailingWidthIsExcess | src/zpf/transform.py:1124-1135 | a record with a width after it, which the validator refuses |
| RewriteCoverage.MarksStayInside | src/zpf/transform.py:1124-1135 | no marker reaches past the extent iff no declared width follows the last record |
| RewriteRuns.RewriteLeavesNoUnmarkedBreak | src/zpf/transform.py:1078-1094 | however it filtered and reordered, a rewrite's output never trips the unmarked-break check |
| MarkedRegions.RewriteBreaksIff | src/zpf/transform.py:1119-1148 | a rewrite's markers separate a range iff a hole or a dropped record of the input lies in it |
| MarkedRegions.WithoutItsBreak | src/zpf/transform.py:1151-1181 | if a filter left something out between two survivors and they are stored as neighbours all the same, the check raises |
| Wire.IterOptions | src/zpf/_frame.py:152-178 | the loop reads exactly the options of the region, or refuses an overrun |
| Wire.OptionsRoundTrip | src/zpf/_frame.py:132-178 | any options that fit the value cap are read back in order |
| Wire.UnpackPackI64 | src/zpf/blocks.py:408-429 | signed 64-bit values survive packing |
| RecordCodec.SpansRoundTrip | src/zpf/blocks.py:456-471 | a packed span list is read back, or refused whole iff one of its ranges is reversed |
| RecordCodec.SpansFill | src/zpf/blocks.py:506-525 | a span list of any length, split over several options, concatenates to itself |
| RecordCodec.ParseOptions | src/zpf/blocks.py:556-591 | by position: each single-valued field is the first occurrence of its id that decodes, the spans are those of all decodable span options in turn, and the extras are exactly the other occurrences in file order |
| RecordCodec.FoldReads | src/zpf/blocks.py:556-591 | the same of the dictionary-and-extras fold the other codec results speak of |
| RecordLayout.PackedDigit | src/zpf/_frame.py:82-92 | integers are little-endian: byte `k` is the `k`th digit in base 256 |
| RecordLayout.OptionsIff | src/zpf/_frame.py:152-178 | any bytes are read as these options iff they stand one after the other in them, padded to multiples of 4, the last padding optional |
| RecordLayout.SpansIff | src/zpf/blocks.py:456-471 | a span value is read as these spans iff they stand in it, 28 bytes each and none reversed |
| RecordLayout.ParsesIff | src/zpf/blocks.py:1389-1410 | any bytes parse to a record iff its fields, payload and options stand in them where the format puts them |
| RecordLayout.ReservedIsZero | src/zpf/blocks.py:1352-1363 | what is written leaves the two reserved bytes and the payload's padding zero |
| RecordCodec.ExtrasStay | src/zpf/blocks.py:556-591 | a run of options is kept raw whole iff each is unknown, malformed or a repeat of a set single-valued field |
| RecordCodec.RoundTripIff | src/zpf/blocks.py:1340-1410 | a record written and parsed is the same record iff each of its extras is one the parser keeps raw |
| RecordCodec.ReencodingIsStable | src/zpf/blocks.py:1340-1410 | whatever parses can be encoded, and parses again to the same fields and the same extras in order |
| RecordCodec.EncodeByHand | src/zpf/blocks.py:1340-1388 | the hand-written encoder writes byte for byte what the walk of the table writes, and refuses exactly when it does |
| Container.BlockWriter.Write | src/zpf/binary.py:231-275 | a block is taken iff the header comes first and once, nothing follows End and the length fits; the bytes are the frames in order |
| Container.BlockReader.ReadNext | src/zpf/binary.py:114-171 | each call yields what the remaining bytes hold next, and sets the status flags as the ending says |
| Container.ReadAll | src/zpf/binary.py:111-181 | iterating yields the blocks and the ending the byte string determines |
| ReaderSoundness.ScanIff | src/zpf/binary.py:114-171 | of any bytes this is read and nothing else: whole frames end to end, a File Header first and nowhere else, an End last if at all, typed iff the content parses, and an ending that says what stands where reading stopped |
| ReaderSoundness.FrameLaidOut | src/zpf/binary.py:263-272 | a written frame is the type, two zero bytes, the length and the content |
| Container.PrefixIsSafe | src/zpf/binary.py:114-181 | of any non-empty readable prefix of written bytes exactly the whole blocks are yielded, truncation iff the cut is inside a block, completion iff End is inside |
| Container.PrefixIff | src/zpf/binary.py:114-181 | for any accepted blocks and any cut, the whole blocks are yielded and the file is kept iff each of them reads back and the cut frame, if it is there, declares a multiple of 4 |
| Container.WholeFileIff | src/zpf/binary.py:142-163 | an accepted file reads back whole iff each block's own bytes read back as that block |
| Container.WriterAcceptsUnreadable | src/zpf/binary.py:231-275 | a file the writer takes and the reader rejects |
| Container.RecordsReadBack | src/zpf/blocks.py:1340-1410 | every record that can be encoded is a block that reads back |

## Left out

- The walk inside a placer or ack walk is a value kept in its owner's field, not an object of its own; nothing else refers to it.
- CausalMerge.Merge: two participants, or one (`CausalMerge.MergeSingle`); with three and more the source merges by timestamp and pid alone.
- Changing a participant's `isn` after the order checker was created; the map is fixed from the start.
- The checker and writer placement state after a refused record, which the source moves before it raises.
- HonestRun.HonestCaptureMerges: retransmissions are not part of an honest run, whose every send starts at the frontier; when a capture that has them still has a causal order is `CausalExistence.OrderExistsInTruth`.
- SessionWriter.SessionWriter.FlushPending: three and more buffered participants.
- `ts_first_for`, the minimum that mirrors `ts_for`.
- StreamViews.StreamView.Units: does not model the `copy` mark on a datagram; whether the stream is a unit sequence is given.
- StreamViews.StreamView.Datagrams: does not model the option to drop copies.
- StreamViews.StreamView.Chunks: Python yields chunks one at a time; the model returns the finished list.
- Ledgers.Ledger.Autofill: does not model the writer refusing a fill block; fills lie inside the extent and are taken as written.
- Stages.FlowSession.AddRecord: the timestamps derived for a record from its citations, and a sequenced session's buffering; a record is counted when the writer has accepted it.
- Stages.SessionizeStage.Close: citations or markers outside the input are not clean, and nothing is claimed of the file then.
- `DecodeStage`, whose close is the same ledger with one output session for each input session.
- FileMerge.MergeFiles: the shape checks on the inputs, the header, digests and id allocation; the inputs come as one transport stream each, with offsets below 2^64.
- CoverageLedgers.CoverageLedger.Findings: the sorted list of stream keys is given, not sorted here.
- BreakCheckers.BreakChecker.Observe: does not model blocks that violate another rule; the Source and Decoder tables are given, not read off the file.
- RewriteCoverage.RewriteStream: decoded participants only, one at a time; the source also rewrites a file's transport participants. Decoder ids are kept, not renumbered, and offsets stay below 2^64 as the span fields demand.
- Container.PrefixIsSafe: strict mode, short reads of a raw stream, and the writer's optional conformance check.
- Content of blocks other than Record: their codecs enter the container as a verdict on type and content.
- UTF-8 itself, which enters as a predicate on byte strings.
- Undecoded offsets above 2^64.
- The JSON face, the command line, content types, file opening, seeking and hashing.
- Multi-hop provenance (`resolve_spans`) and `check_splice`.
- Message texts and diagnostics; a violation is a value of an enumeration.
