/**
 * Which record's byte a stream offset holds: the first stored record that covers it.
 *
 * Nothing here mentions runs, cursors or trimming; `Reassembly` is proved against it.
 */
module FirstStored {
  import opened Prelude
  import opened Blocks
  import opened Serial
  import opened Placement
  import OffsetSpace
  /** Record `i` is placed and its payload covers offset `x`. */
  predicate Holds(isn: Option<u32>, records: seq<Record>, i: nat, x: int) {
    && i < |records| && OffsetAt(isn, records, i).Some?
    && OffsetAt(isn, records, i).value <= x < OffsetAt(isn, records, i).value + |records[i].payload|
  }

  /** The first of the first `n` records that covers `x`. */
  function HolderAmong(isn: Option<u32>, records: seq<Record>, n: nat, x: int): (i: Option<nat>)
    requires n <= |records|
    ensures i.Some? ==> i.value < n && Holds(isn, records, i.value, x)
    ensures forall k :: 0 <= k < (if i.Some? then i.value else n) ==> !Holds(isn, records, k, x)
  {
    if n == 0 then None
    else
      var earlier := HolderAmong(isn, records, n - 1, x);
      if earlier.Some? then earlier
      else if Holds(isn, records, n - 1, x) then Some(n - 1) else None
  }

  /** The record offset `x` belongs to. */
  function Holder(isn: Option<u32>, records: seq<Record>, x: int): Option<nat> {
    HolderAmong(isn, records, |records|, x)
  }

  /** The byte at offset `x`: the first stored one wins. */
  function ByteAt(isn: Option<u32>, records: seq<Record>, x: int): byte
    requires Holder(isn, records, x).Some?
  {
    var i := Holder(isn, records, x).value;
    records[i].payload[x - OffsetAt(isn, records, i).value]
  }

  /** One past the last byte the first `n` records hold. */
  function DataEnd(isn: Option<u32>, records: seq<Record>, n: nat): (end: nat)
    requires n <= |records|
  {
    if n == 0 then 0
    else
      var before, off := DataEnd(isn, records, n - 1), OffsetAt(isn, records, n - 1);
      if off.None? || records[n - 1].payload == [] then before
      else Max(before, off.value + |records[n - 1].payload|)
  }

  lemma DataEndStep(isn: Option<u32>, records: seq<Record>, n: nat)
    requires n < |records| && OffsetAt(isn, records, n).Some? && records[n].payload != []
    ensures DataEnd(isn, records, n + 1)
         == Max(DataEnd(isn, records, n), OffsetAt(isn, records, n).value + |records[n].payload|)
  {
  }

  lemma {:induction false} DataEndIsReached(isn: Option<u32>, records: seq<Record>, n: nat)
    requires n <= |records|
    ensures DataEnd(isn, records, n) <= OffsetSpace.Reach(isn, records, n)
  {
    if n > 0 {
      DataEndIsReached(isn, records, n - 1);
    }
  }

  /** How the walk moves over record `n`: forwards, or not at all. */
  lemma WalkMovesForward(isn: Option<u32>, records: seq<Record>, n: nat)
    requires n < |records|
    ensures var st, next, off := PlacerAfter(isn, records[..n]), PlacerAfter(isn, records[..n + 1]), OffsetAt(isn, records, n);
      && (off.None? ==> next == st)
      && (off.Some? ==> next.Anchored? && next.position == off.value)
      && (off.Some? ==> off.value >= if st.Anchored? then st.position else 0)
  {
    assert records[..n + 1] == records[..n] + [records[n]];
    PlacerSnoc(isn, records[..n], records[n]);
  }

  /**
   * Placed offsets never move back, so everything from the walk's position up to the last
   * byte is already held and nothing beyond it is.
   */
  lemma {:induction false} HeldSoFar(isn: Option<u32>, records: seq<Record>, n: nat, x: int)
    requires n <= |records|
    ensures var st := PlacerAfter(isn, records[..n]);
      && (st.Anchored? ==> st.position >= 0)
      && (st.Unanchored? ==> DataEnd(isn, records, n) == 0)
      && (st.Anchored? && st.position <= x < DataEnd(isn, records, n) ==> HolderAmong(isn, records, n, x).Some?)
    ensures x >= DataEnd(isn, records, n) || x < 0 ==> HolderAmong(isn, records, n, x).None?
  {
    if n > 0 {
      HeldSoFar(isn, records, n - 1, x);
      WalkMovesForward(isn, records, n - 1);
      hide PlacerAfter, OffsetAt;
    }
  }

  /** What record `n` adds: exactly the bytes past everything already held. */
  lemma HolderStep(isn: Option<u32>, records: seq<Record>, n: nat, x: int)
    requires n < |records|
    ensures var off := OffsetAt(isn, records, n);
      HolderAmong(isn, records, n + 1, x)
      == if off.Some? && Max(off.value, DataEnd(isn, records, n)) <= x < off.value + |records[n].payload|
         then Some(n) else HolderAmong(isn, records, n, x)
  {
    HeldSoFar(isn, records, n, x);
    WalkMovesForward(isn, records, n);
    hide PlacerAfter, OffsetAt;
  }

  /** What is below the last byte is settled: no later record changes it. */
  lemma {:induction false} Settled(isn: Option<u32>, records: seq<Record>, n: nat, m: nat, x: int)
    requires n <= m <= |records| && x < DataEnd(isn, records, n)
    ensures HolderAmong(isn, records, m, x) == HolderAmong(isn, records, n, x)
    ensures DataEnd(isn, records, n) <= DataEnd(isn, records, m)
    decreases m
  {
    hide HolderAmong, OffsetAt;
    if n < m {
      Settled(isn, records, n, m - 1, x);
      HolderStep(isn, records, m - 1, x);
    }
  }

  /** The offsets record `n` takes for good, and the hole it leaves before them. */
  lemma NewHolder(isn: Option<u32>, records: seq<Record>, n: nat, x: int)
    requires n < |records| && OffsetAt(isn, records, n).Some? && records[n].payload != []
    requires DataEnd(isn, records, n) <= x < OffsetAt(isn, records, n).value + |records[n].payload|
    ensures Holder(isn, records, x) == if x >= OffsetAt(isn, records, n).value then Some(n) else None
  {
    hide OffsetAt, HolderAmong, PlacerAfter, DataEnd;
    DataEndStep(isn, records, n);
    HolderStep(isn, records, n, x);
    HeldSoFar(isn, records, n, x);
    Settled(isn, records, n + 1, |records|, x);
  }

  lemma OffsetOfPrefix(isn: Option<u32>, records: seq<Record>, more: seq<Record>, i: nat)
    requires i < |records|
    ensures OffsetAt(isn, records + more, i) == OffsetAt(isn, records, i)
  {
    assert (records + more)[..i] == records[..i];
  }

  /** The first `n` records hold the same offsets whatever is stored after them. */
  lemma {:induction false} HolderOfPrefix(isn: Option<u32>, records: seq<Record>, more: seq<Record>, n: nat, x: int)
    requires n <= |records|
    ensures HolderAmong(isn, records + more, n, x) == HolderAmong(isn, records, n, x)
  {
    hide OffsetAt;
    if n > 0 {
      HolderOfPrefix(isn, records, more, n - 1, x);
      OffsetOfPrefix(isn, records, more, n - 1);
    }
  }

  /** A record whose own range excludes `x` does not hold it. */
  lemma HolderHolds(isn: Option<u32>, records: seq<Record>, n: nat, x: int)
    requires !Holds(isn, records, n, x)
    ensures Holder(isn, records, x) != Some(n)
  {
  }

  // ----- Retransmits ------------------------------------------------------------------------

  /** Stored after `before`, record `r` brings no byte that is not already held. */
  predicate Covered(isn: Option<u32>, before: seq<Record>, r: Record) {
    var off := Place(PlacerAfter(isn, before), r);
    off.Some? ==> forall y :: off.value <= y < off.value + |r.payload| ==> Holder(isn, before, y).Some?
  }

  /**
   * The stream goes on after `r` as it would have without it: the next hinted record is not
   * serially below `r`, and is within 2^31 of the record `r` was placed after. `r` is not the
   * record that gives the stream its origin.
   */
  predicate GoesOn(isn: Option<u32>, before: seq<Record>, r: Record, after: seq<Record>) {
    var st, next := PlacerAfter(isn, before), OffsetSpace.FirstHint(after);
    Place(st, r).Some? ==>
      && (r.payload != [] || st.Anchored?)
      && (next.Some? && st.Anchored? ==>
            && SerialDelta(next.value, r.seqStart.value) >= 0
            && SerialDelta(next.value, r.seqStart.value) + SerialDelta(r.seqStart.value, st.value) < SEQ_HIGH_BIT)
  }

  /** Bytes already held were placed, so the stream has its origin. */
  lemma CoveredIsAnchored(isn: Option<u32>, before: seq<Record>, r: Record)
    requires Covered(isn, before, r) && Place(PlacerAfter(isn, before), r).Some? && r.payload != []
    ensures PlacerAfter(isn, before).Anchored?
  {
    var off := Place(PlacerAfter(isn, before), r).value;
    assert before[..|before|] == before;
    HeldSoFar(isn, before, |before|, off);
    assert Holder(isn, before, off).Some?;
    hide Place, PlacerAfter;
  }

  /** Without and with `r`, the placer is in the same state again at the next hint it can use. */
  lemma StatesMeet(st: PlacerState, r: Record, next: Record)
    requires st.Anchored? && Place(st, r).Some? && next.seqStart.Some?
    requires SerialDelta(next.seqStart.value, r.seqStart.value) >= 0
    requires SerialDelta(next.seqStart.value, r.seqStart.value) + SerialDelta(r.seqStart.value, st.value) < SEQ_HIGH_BIT
    ensures Place(PlaceStep(st, r), next) == Place(st, next)
    ensures PlaceStep(PlaceStep(st, r), next) == PlaceStep(st, next)
  {
    DeltasAdd(next.seqStart.value, r.seqStart.value, st.value);
    hide SerialDelta;
  }

  lemma DeltasAdd(c: u32, b: u32, a: u32)
    requires SerialDelta(c, b) >= 0 && SerialDelta(b, a) >= 0 && SerialDelta(c, b) + SerialDelta(b, a) < SEQ_HIGH_BIT
    ensures SerialDelta(c, a) == SerialDelta(c, b) + SerialDelta(b, a)
  {
    var d := SerialDelta(c, b) + SerialDelta(b, a);
    var k := Turns(b, a) + Turns(c, b);
    assert a + d == c + k * SEQ_SPACE;
    hide SerialDelta;
    DeltaIs(c, a, d, k);
  }

  /** How often the wire values wrapped on the way from `a` to `b`. */
  function Turns(b: u32, a: u32): (k: int)
    ensures a + SerialDelta(b, a) == b + k * SEQ_SPACE
  {
    (a + SerialDelta(b, a) - b) / SEQ_SPACE
  }

  lemma DeltaIs(c: u32, a: u32, d: int, k: int)
    requires -SEQ_HIGH_BIT <= d < SEQ_HIGH_BIT && a + d == c + k * SEQ_SPACE
    ensures SerialDelta(c, a) == d
  {
    var m := Turns(c, a);
    assert SerialDelta(c, a) - d == (m - k) * SEQ_SPACE;
    hide SerialDelta;
  }

  predicate Hinted(after: seq<Record>, j: nat) {
    exists i :: 0 <= i < j && i < |after| && after[i].seqStart.Some?
  }

  /** Before record `j` of what follows, the two placers differ only if nothing was hinted yet. */
  lemma {:induction false} StateBefore(isn: Option<u32>, before: seq<Record>, r: Record, after: seq<Record>, j: nat)
    requires Covered(isn, before, r) && GoesOn(isn, before, r, after) && j <= |after|
    ensures var st := PlacerAfter(isn, before);
      && (!Hinted(after, j) ==> PlacerAfter(isn, before + after[..j]) == st)
      && PlacerAfter(isn, before + [r] + after[..j])
         == if Hinted(after, j) then PlacerAfter(isn, before + after[..j]) else PlaceStep(st, r)
  {
    var st := PlacerAfter(isn, before);
    if j == 0 {
      assert before + after[..0] == before && before + [r] + after[..0] == before + [r];
      PlacerSnoc(isn, before, r);
    } else {
      StateBefore(isn, before, r, after, j - 1);
      var next := after[j - 1];
      assert before + after[..j] == before + after[..j - 1] + [next];
      assert before + [r] + after[..j] == before + [r] + after[..j - 1] + [next];
      PlacerSnoc(isn, before + after[..j - 1], next);
      PlacerSnoc(isn, before + [r] + after[..j - 1], next);
      NextMeets(isn, before, r, after, j - 1);
      hide PlacerAfter, Place, SerialDelta, Covered, GoesOn, OffsetSpace.FirstHint;
      assert Hinted(after, j) <==> Hinted(after, j - 1) || next.seqStart.Some?;
    }
  }

  /** One more record after the retransmit, hinted or not. */
  lemma NextMeets(isn: Option<u32>, before: seq<Record>, r: Record, after: seq<Record>, j: nat)
    requires Covered(isn, before, r) && GoesOn(isn, before, r, after) && j < |after|
    ensures var st := PlacerAfter(isn, before);
      && (after[j].seqStart.None? ==> forall s :: PlaceStep(s, after[j]) == s && Place(s, after[j]).None?)
      && (after[j].seqStart.Some? && !Hinted(after, j) ==>
            && PlaceStep(PlaceStep(st, r), after[j]) == PlaceStep(st, after[j])
            && Place(PlaceStep(st, r), after[j]) == Place(st, after[j]))
  {
    var st := PlacerAfter(isn, before);
    if after[j].seqStart.Some? && !Hinted(after, j) && Place(st, r).Some? {
      OffsetSpace.FirstHintIs(after, j);
      if r.payload != [] {
        CoveredIsAnchored(isn, before, r);
      }
      hide Place, PlaceStep, SerialDelta, PlacerAfter, OffsetSpace.FirstHint;
      StatesMeet(st, r, after[j]);
    }
    hide SerialDelta, PlacerAfter, OffsetSpace.FirstHint;
  }

  /** Every record after the retransmit is placed where it would have been without it. */
  lemma OffsetsStay(isn: Option<u32>, before: seq<Record>, r: Record, after: seq<Record>, j: nat)
    requires Covered(isn, before, r) && GoesOn(isn, before, r, after) && j < |after|
    ensures OffsetAt(isn, before + [r] + after, |before| + 1 + j) == OffsetAt(isn, before + after, |before| + j)
  {
    assert (before + [r] + after)[..|before| + 1 + j] == before + [r] + after[..j];
    assert (before + after)[..|before| + j] == before + after[..j];
    StateBefore(isn, before, r, after, j);
    NextMeets(isn, before, r, after, j);
    hide PlacerAfter, Place, PlaceStep;
  }

  /** The index a record has once one more is stored at `n`. */
  function Shifted(i: Option<nat>, n: nat): Option<nat> {
    if i.Some? && i.value >= n then Some(i.value + 1) else i
  }

  /** With only the retransmit stored after them, the first records hold what they held. */
  lemma CoveredHoldsNothing(isn: Option<u32>, before: seq<Record>, r: Record, x: int)
    requires Covered(isn, before, r)
    ensures HolderAmong(isn, before + [r], |before| + 1, x) == HolderAmong(isn, before, |before|, x)
  {
    HolderOfPrefix(isn, before, [r], |before|, x);
    assert (before + [r])[..|before|] == before;
    assert Place(PlacerAfter(isn, before), r) == OffsetAt(isn, before + [r], |before|);
    hide PlacerAfter, Place, OffsetAt;
    assert Holder(isn, before, x) == HolderAmong(isn, before, |before|, x);
  }

  lemma HolderNext(isn: Option<u32>, records: seq<Record>, n: nat, x: int)
    requires n < |records|
    ensures var earlier := HolderAmong(isn, records, n, x);
      HolderAmong(isn, records, n + 1, x)
      == if earlier.Some? then earlier else if Holds(isn, records, n, x) then Some(n) else None
  {
    hide Holds;
  }

  lemma HoldsAlike(isn: Option<u32>, before: seq<Record>, r: Record, after: seq<Record>, j: nat, x: int)
    requires Covered(isn, before, r) && GoesOn(isn, before, r, after) && j < |after|
    ensures Holds(isn, before + [r] + after, |before| + 1 + j, x) <==> Holds(isn, before + after, |before| + j, x)
  {
    OffsetsStay(isn, before, r, after, j);
    hide OffsetAt, Covered, GoesOn;
  }

  lemma {:induction false} HoldersStay(isn: Option<u32>, before: seq<Record>, r: Record, after: seq<Record>, j: nat, x: int)
    requires Covered(isn, before, r) && GoesOn(isn, before, r, after) && j <= |after|
    ensures HolderAmong(isn, before + [r] + after, |before| + 1 + j, x)
         == Shifted(HolderAmong(isn, before + after, |before| + j, x), |before|)
  {
    hide OffsetAt, Covered, GoesOn, Holds, HolderAmong;
    if j == 0 {
      CoveredHoldsNothing(isn, before, r, x);
      HolderOfPrefix(isn, before + [r], after, |before| + 1, x);
      HolderOfPrefix(isn, before, after, |before|, x);
    } else {
      HoldersStay(isn, before, r, after, j - 1, x);
      HoldsAlike(isn, before, r, after, j - 1, x);
      HolderNext(isn, before + [r] + after, |before| + j, x);
      HolderNext(isn, before + after, |before| + j - 1, x);
    }
  }

  /**
   * A retransmit whose every byte is already held takes over no offset and moves none, whatever is
   * stored after it.
   */
  lemma CoveredRetransmit(isn: Option<u32>, before: seq<Record>, r: Record, after: seq<Record>, x: int)
    requires Covered(isn, before, r) && GoesOn(isn, before, r, after)
    ensures Holder(isn, before + [r] + after, x) == Shifted(Holder(isn, before + after, x), |before|)
    ensures Holder(isn, before + after, x).Some? ==>
      ByteAt(isn, before + [r] + after, x) == ByteAt(isn, before + after, x)
  {
    hide OffsetAt, HolderAmong, Covered, GoesOn;
    HoldersStay(isn, before, r, after, |after|, x);
    assert |before + [r] + after| == |before| + 1 + |after|;
    var i := Holder(isn, before + after, x);
    if i.Some? {
      SameOffset(isn, before, r, after, i.value);
    }
  }

  /** A stored record keeps its place when the retransmit is stored too. */
  lemma SameOffset(isn: Option<u32>, before: seq<Record>, r: Record, after: seq<Record>, i: nat)
    requires Covered(isn, before, r) && GoesOn(isn, before, r, after) && i < |before + after|
    ensures var k := Shifted(Some(i), |before|).value;
      && (before + [r] + after)[k] == (before + after)[i]
      && OffsetAt(isn, before + [r] + after, k) == OffsetAt(isn, before + after, i)
  {
    if i < |before| {
      OffsetOfPrefix(isn, before, after, i);
      OffsetOfPrefix(isn, before, [r], i);
      OffsetOfPrefix(isn, before + [r], after, i);
    } else {
      OffsetsStay(isn, before, r, after, i - |before|);
    }
    hide OffsetAt;
  }
}
