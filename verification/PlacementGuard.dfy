/**
 * The placement guard of the session writer, and what it and the order check keep of what is written.
 *
 * `GuardAdmits` is the guard as the writer computes it; everything after it is told of the written
 * streams themselves: sequence numbers, flags, and which records got an offset.
 */
module PlacementGuard {
  import opened Prelude
  import opened Blocks
  import Serial
  import opened Placement
  import opened CausalRule
  import MergeTheorems

  /** The walk of a stream with a declared `isn`, after its records in `stored`. */
  function DeclaredWalk(isn: u32, stored: seq<Record>): (st: PlacerState)
    ensures st.Anchored? && st.origin == Serial.Wrap(isn + 1)
  {
    OriginIsDeclared(isn, stored);
    PlacerAfter(Some(isn), stored)
  }

  lemma {:induction false} OriginIsDeclared(isn: u32, stored: seq<Record>)
    ensures PlacerAfter(Some(isn), stored).Anchored?
    ensures PlacerAfter(Some(isn), stored).origin == Serial.Wrap(isn + 1)
  {
    if stored != [] {
      OriginIsDeclared(isn, stored[..|stored| - 1]);
    }
  }

  /**
   * What the placement guard lets through after a stream: a SYN at the stream's origin only, and no
   * payload below the origin before anything has been placed past it.
   */
  predicate Guarded(isn: u32, stream: seq<Record>, r: Record) {
    r.seqStart.Some? ==>
      var st := DeclaredWalk(isn, stream);
      && (r.Syn() ==> r.seqStart.value == st.origin)
      && (Place(st, r).Some? || st.value != st.origin || r.payload == [])
  }

  /** Only the streams of participants declared with an `isn` are guarded. */
  predicate GuardAdmits(isns: Isns, stored: seq<Record>, r: Record) {
    r.senderPid in isns ==> Guarded(isns[r.senderPid], Sent(stored, r.senderPid), r)
  }

  /** Everything written passed the guard and the order check where it was written. */
  predicate Accepted(isns: Isns, written: seq<Record>) {
    forall k :: 0 <= k < |written| ==>
      GuardAdmits(isns, written[..k], written[k]) && Admits(None, isns, written[..k], written[k])
  }

  lemma AcceptedSnoc(isns: Isns, written: seq<Record>, r: Record)
    requires Accepted(isns, written) && GuardAdmits(isns, written, r) && Admits(None, isns, written, r)
    ensures Accepted(isns, written + [r])
  {
    hide GuardAdmits, Admits;
    var whole := written + [r];
    forall k | 0 <= k < |whole|
      ensures GuardAdmits(isns, whole[..k], whole[k]) && Admits(None, isns, whole[..k], whole[k])
    {
      assert whole[..k] == written[..k];
    }
  }

  /** The sequence number of a participant's first byte. */
  function FirstByte(isn: u32): u32 {
    (isn + 1) % 0x1_0000_0000
  }

  // ----- What is refused ---------------------------------------------------------------------

  /** `i` is the last record of the stream that has an offset. */
  predicate LastPlaced(isn: u32, stream: seq<Record>, i: nat) {
    && i < |stream| && OffsetAt(Some(isn), stream, i).Some?
    && forall k :: i < k < |stream| ==> OffsetAt(Some(isn), stream, k).None?
  }

  /** Nothing has been placed past the stream's origin. */
  ghost predicate AtOrigin(isn: u32, stream: seq<Record>) {
    forall i: nat :: LastPlaced(isn, stream, i) ==> stream[i].seqStart == Some(FirstByte(isn))
  }

  lemma OffsetIsOfPrefix(isn: u32, before: seq<Record>, r: Record)
    ensures forall k :: 0 <= k < |before| ==>
      OffsetAt(Some(isn), before + [r], k) == OffsetAt(Some(isn), before, k)
    ensures OffsetAt(Some(isn), before + [r], |before|) == Place(DeclaredWalk(isn, before), r)
    ensures DeclaredWalk(isn, before + [r]) == PlaceStep(DeclaredWalk(isn, before), r)
  {
    forall k | 0 <= k <= |before| ensures (before + [r])[..k] == before[..k] {
    }
    assert before[..|before|] == before;
    PlacerSnoc(Some(isn), before, r);
    hide PlacerAfter;
  }

  /** The walk of a declared stream stands at the last sequence number placed, or at the origin. */
  lemma {:induction false} WalkIsAtLastPlaced(isn: u32, stream: seq<Record>) returns (last: Option<nat>)
    ensures last.Some? ==> LastPlaced(isn, stream, last.value)
    ensures last.Some? ==> stream[last.value].seqStart == Some(DeclaredWalk(isn, stream).value)
    ensures last.None? ==> DeclaredWalk(isn, stream).value == Serial.Wrap(isn + 1)
    ensures last.None? ==> forall k :: 0 <= k < |stream| ==> OffsetAt(Some(isn), stream, k).None?
  {
    if stream == [] {
      return None;
    }
    var before, r := stream[..|stream| - 1], stream[|stream| - 1];
    assert stream == before + [r];
    OffsetIsOfPrefix(isn, before, r);
    last := WalkIsAtLastPlaced(isn, before);
    hide OffsetAt, DeclaredWalk, Serial.Wrap;
    if Place(DeclaredWalk(isn, before), r).Some? {
      last := Some(|before|);
    }
  }

  lemma AtOriginIff(isn: u32, stream: seq<Record>)
    ensures AtOrigin(isn, stream) <==> DeclaredWalk(isn, stream).value == Serial.Wrap(isn + 1)
  {
    var last := WalkIsAtLastPlaced(isn, stream);
    hide OffsetAt, DeclaredWalk;
    if last.Some? {
      assert LastPlaced(isn, stream, last.value);
    }
  }

  /**
   * Of a declared stream's hinted records, exactly these are refused: a SYN away from `isn + 1`, and
   * a payload behind `isn + 1` while nothing has been placed past it.
   */
  lemma GuardRefusesIff(isn: u32, stream: seq<Record>, r: Record)
    requires r.seqStart.Some?
    ensures !Guarded(isn, stream, r) <==>
      var origin := FirstByte(isn);
      || (r.Syn() && r.seqStart.value != origin)
      || (r.payload != [] && AtOrigin(isn, stream) && (r.seqStart.value - origin) % 0x1_0000_0000 >= 0x8000_0000)
  {
    AtOriginIff(isn, stream);
    hide AtOrigin, PlacerAfter;
  }

  // ----- What everything written keeps -----------------------------------------------------------

  /** Every hinted SYN of a declared participant sits at `isn + 1`. */
  predicate SynsAtOrigin(isns: Isns, written: seq<Record>) {
    forall k :: 0 <= k < |written| && written[k].senderPid in isns && written[k].Syn() && written[k].seqStart.Some? ==>
      written[k].seqStart.value == FirstByte(isns[written[k].senderPid])
  }

  lemma AcceptedSyns(isns: Isns, written: seq<Record>)
    requires Accepted(isns, written)
    ensures SynsAtOrigin(isns, written)
  {
    hide Sent, Admits, PlacerAfter;
    forall k | 0 <= k < |written| && written[k].senderPid in isns && written[k].Syn() && written[k].seqStart.Some?
      ensures written[k].seqStart.value == FirstByte(isns[written[k].senderPid])
    {
      assert GuardAdmits(isns, written[..k], written[k]);
    }
  }

  /** From `i`, placed away from the origin, to `j` is the one distance serial arithmetic cannot order. */
  predicate HopInto(isn: u32, stream: seq<Record>, i: nat, j: nat) {
    && NextHint(stream, i, j) && OffsetAt(Some(isn), stream, i).Some?
    && stream[i].seqStart.value != FirstByte(isn)
    && (stream[j].seqStart.value - stream[i].seqStart.value) % 0x1_0000_0000 == 0x8000_0000
  }

  /** One declared stream, every record of which passed the guard and its own order. */
  predicate StreamAccepted(isn: u32, stream: seq<Record>) {
    forall k :: 0 <= k < |stream| ==> Guarded(isn, stream[..k], stream[k]) && FollowsInStream(stream[..k], stream[k])
  }

  lemma AcceptedStream(isns: Isns, written: seq<Record>, pid: u16)
    requires Accepted(isns, written) && pid in isns
    ensures StreamAccepted(isns[pid], Sent(written, pid))
  {
    var stream := Sent(written, pid);
    hide Guarded, Sent, FollowsInStream, EdgesKept;
    forall k | 0 <= k < |stream|
      ensures Guarded(isns[pid], stream[..k], stream[k]) && FollowsInStream(stream[..k], stream[k])
    {
      var i := MergeTheorems.Locate(written, pid, k);
      assert GuardAdmits(isns, written[..i], written[i]) && Admits(None, isns, written[..i], written[i]);
    }
  }

  /** Unhinted records leave the walk where it is. */
  lemma {:induction false} UnhintedKeepWalk(isn: u32, stream: seq<Record>, i: nat, n: nat)
    requires i <= n <= |stream| && forall k :: i <= k < n ==> stream[k].seqStart.None?
    ensures PlacerAfter(Some(isn), stream[..n]) == PlacerAfter(Some(isn), stream[..i])
    decreases n
  {
    if i < n {
      UnhintedKeepWalk(isn, stream, i, n - 1);
      assert stream[..n] == stream[..n - 1] + [stream[n - 1]];
      PlacerSnoc(Some(isn), stream[..n - 1], stream[n - 1]);
    }
  }

  /** The walk after the last hint: at that hint iff it was placed. */
  lemma WalkAtHint(isn: u32, stream: seq<Record>, i: nat, n: nat)
    requires i < n <= |stream| && stream[i].seqStart.Some? && forall k :: i < k < n ==> stream[k].seqStart.None?
    ensures DeclaredWalk(isn, stream[..n]).value == stream[i].seqStart.value <==> OffsetAt(Some(isn), stream, i).Some?
  {
    UnhintedKeepWalk(isn, stream, i + 1, n);
    assert stream[..i + 1] == stream[..i] + [stream[i]];
    PlacerSnoc(Some(isn), stream[..i], stream[i]);
    hide PlacerAfter;
  }

  /** Where an accepted record gets no offset: behind the origin at the start, or after a hop. */
  lemma UnplacedIs(isn: u32, stream: seq<Record>, j: nat)
    requires j < |stream| && stream[j].seqStart.Some?
    requires Guarded(isn, stream[..j], stream[j]) && FollowsInStream(stream[..j], stream[j])
    requires var value := DeclaredWalk(isn, stream[..j]).value;
             value == Serial.Wrap(isn + 1) || LastSeq(stream[..j]) == Some(value)
    requires OffsetAt(Some(isn), stream, j).None?
    ensures (DeclaredWalk(isn, stream[..j]).value == Serial.Wrap(isn + 1) && stream[j].payload == [])
         || exists i: nat :: HopInto(isn, stream, i, j)
  {
    var st := DeclaredWalk(isn, stream[..j]);
    if st.value != Serial.Wrap(isn + 1) {
      var i := LastSeqIs(stream[..j]);
      WalkAtHint(isn, stream, i, j);
      Serial.OrderedIffForward(st.value, stream[j].seqStart.value);
      hide PlacerAfter, LastSeq;
      assert HopInto(isn, stream, i, j);
    }
  }

  /** No hop into any of the first `n` records. */
  ghost predicate NoHopBefore(isn: u32, stream: seq<Record>, n: nat) {
    forall i: nat, j: nat :: j < n ==> !HopInto(isn, stream, i, j)
  }

  /** Without a hop the walk stands at the last sequence number, or still at the origin. */
  lemma {:induction false} WalkFollows(isn: u32, stream: seq<Record>, n: nat)
    requires n <= |stream| && StreamAccepted(isn, stream) && NoHopBefore(isn, stream, n)
    ensures var value := DeclaredWalk(isn, stream[..n]).value;
            value == Serial.Wrap(isn + 1) || LastSeq(stream[..n]) == Some(value)
  {
    if n > 0 {
      WalkFollows(isn, stream, n - 1);
      var r := stream[n - 1];
      assert stream[..n] == stream[..n - 1] + [r];
      OffsetIsOfPrefix(isn, stream[..n - 1], r);
      assert Guarded(isn, stream[..n - 1], r) && FollowsInStream(stream[..n - 1], r);
      hide Guarded, FollowsInStream, HopInto, Serial.Wrap, DeclaredWalk;
      if r.seqStart.Some? && OffsetAt(Some(isn), stream, n - 1).None? {
        UnplacedIs(isn, stream, n - 1);
      }
    }
  }

  /** A hop always loses the record it leads to. */
  lemma HopLoses(isn: u32, stream: seq<Record>, i: nat, j: nat)
    requires HopInto(isn, stream, i, j)
    ensures OffsetAt(Some(isn), stream, j).None?
  {
    WalkAtHint(isn, stream, i, j);
    hide PlacerAfter;
  }

  /**
   * In an accepted stream, before any hop, a hinted record with payload has no offset iff it is
   * itself a hop of exactly 2^31 away from a placed predecessor.
   */
  lemma OnlyHopsLose(isn: u32, stream: seq<Record>, j: nat)
    requires j < |stream| && StreamAccepted(isn, stream) && NoHopBefore(isn, stream, j)
    requires stream[j].seqStart.Some? && stream[j].payload != []
    ensures OffsetAt(Some(isn), stream, j).None? <==> exists i: nat :: HopInto(isn, stream, i, j)
  {
    hide *;
    if OffsetAt(Some(isn), stream, j).None? {
      WalkFollows(isn, stream, j);
      AcceptedAt(isn, stream, j);
      UnplacedIs(isn, stream, j);
    }
    if i: nat :| HopInto(isn, stream, i, j) {
      HopLoses(isn, stream, i, j);
    }
  }

  lemma AcceptedAt(isn: u32, stream: seq<Record>, j: nat)
    requires StreamAccepted(isn, stream) && j < |stream|
    ensures Guarded(isn, stream[..j], stream[j]) && FollowsInStream(stream[..j], stream[j])
  {
  }

  /** Every hinted record with payload of a declared participant whose stream has no hop has an offset. */
  ghost predicate PayloadsPlaced(isns: Isns, written: seq<Record>) {
    forall pid :: pid in isns && NoHopBefore(isns[pid], Sent(written, pid), |Sent(written, pid)|) ==>
      AllPlaced(isns[pid], Sent(written, pid))
  }

  predicate AllPlaced(isn: u32, stream: seq<Record>) {
    forall j :: 0 <= j < |stream| && stream[j].seqStart.Some? && stream[j].payload != [] ==>
      OffsetAt(Some(isn), stream, j).Some?
  }

  lemma AcceptedPayloads(isns: Isns, written: seq<Record>)
    requires Accepted(isns, written)
    ensures PayloadsPlaced(isns, written)
  {
    hide Accepted, Sent, HopInto, OffsetAt, StreamAccepted;
    forall pid | pid in isns && NoHopBefore(isns[pid], Sent(written, pid), |Sent(written, pid)|)
      ensures AllPlaced(isns[pid], Sent(written, pid))
    {
      var stream := Sent(written, pid);
      AcceptedStream(isns, written, pid);
      forall j: nat | j < |stream| && stream[j].seqStart.Some? && stream[j].payload != []
        ensures OffsetAt(Some(isns[pid]), stream, j).Some?
      {
        OnlyHopsLose(isns[pid], stream, j);
      }
    }
  }

  /** What the writer keeps of everything it has written. */
  ghost predicate Kept(isns: Isns, written: seq<Record>) {
    Accepted(isns, written) && SynsAtOrigin(isns, written) && PayloadsPlaced(isns, written)
  }

  lemma NothingWritten(isns: Isns)
    ensures Kept(isns, [])
  {
    hide PayloadsPlaced, SynsAtOrigin;
    AcceptedSyns(isns, []);
    AcceptedPayloads(isns, []);
  }

  lemma KeptSnoc(isns: Isns, written: seq<Record>, r: Record)
    requires Kept(isns, written) && GuardAdmits(isns, written, r) && Admits(None, isns, written, r)
    ensures Kept(isns, written + [r])
  {
    hide PayloadsPlaced, SynsAtOrigin, Accepted, GuardAdmits, Admits;
    AcceptedSnoc(isns, written, r);
    AcceptedSyns(isns, written + [r]);
    AcceptedPayloads(isns, written + [r]);
  }

  /** A single byte of participant 0, without flags that matter here. */
  predicate OneByte(r: Record, seqStart: u32) {
    r.senderPid == 0 && r.seqStart == Some(seqStart) && |r.payload| == 1 && !r.Syn()
  }

  /** Two bytes exactly 2^31 apart, the first past the origin: both are written, the second has no offset. */
  lemma HopIsWritten(isns: Isns, x: Record, y: Record)
    requires isns == map[0 := 0] && OneByte(x, 2) && OneByte(y, 0x8000_0002)
    ensures Accepted(isns, [x, y]) && Sent([x, y], 0) == [x, y] && HopInto(0, [x, y], 0, 1)
    ensures OffsetAt(Some(0), [x, y], 1).None?
  {
    SentSnoc([], x, 0);
    SentSnoc([x], y, 0);
    PlacerSnoc(Some(0), [], x);
    assert [] + [x] == [x] && [x] + [y] == [x, y] && [x, y][..1] == [x];
    assert Place(StartState(Some(0)), x) == Some(1) && DeclaredWalk(0, [x]) == Anchored(1, 2, 1);
    assert Place(DeclaredWalk(0, [x]), y) == None;
    assert LastSeq([x]) == Some(2) && Serial.SeqLeq(2, 0x8000_0002);
    hide PlacerAfter, Place, Sent, LastSeq, Serial.SeqLeq;
    AcceptedSnoc(isns, [], x);
    AcceptedSnoc(isns, [x], y);
  }
}
