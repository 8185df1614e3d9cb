/**
 * The causal-order rule of a SEQUENCED session, stated over pairs of records.
 *
 * This is the quadratic form: every pair is compared, and positions are taken from
 * the whole stored prefix. `StoredOrder` and `CausalMerge` are proved against it.
 */
module CausalRule {
  import opened Prelude
  import opened Blocks
  import Serial
  import opened Placement

  type Isns = map<u16, u32>

  function IsnOf(isns: Isns, pid: u16): Option<u32> {
    if pid in isns then Some(isns[pid]) else None
  }

  /** One participant's records, in stored order. */
  function Sent(order: seq<Record>, pid: u16): seq<Record> {
    if order == [] then []
    else
      var before, r := Sent(order[..|order| - 1], pid), order[|order| - 1];
      if r.senderPid == pid then before + [r] else before
  }

  lemma SentSnoc(order: seq<Record>, r: Record, pid: u16)
    ensures Sent(order + [r], pid)
         == if r.senderPid == pid then Sent(order, pid) + [r] else Sent(order, pid)
  {
    Snoc(order, r);
  }

  /** The last sequence number the stored records of one participant carried. */
  function LastSeq(stored: seq<Record>): Option<u32> {
    if stored == [] then None
    else if stored[|stored| - 1].seqStart.Some? then stored[|stored| - 1].seqStart
    else LastSeq(stored[..|stored| - 1])
  }

  predicate KeepsOrder(last: Option<u32>, r: Record) {
    r.seqStart.Some? && last.Some? ==> Serial.SeqLeq(last.value, r.seqStart.value)
  }

  predicate FollowsInStream(stored: seq<Record>, r: Record) {
    KeepsOrder(LastSeq(stored), r)
  }

  /** `i` and `j` carry consecutive sequence numbers of the stream. */
  predicate NextHint(stream: seq<Record>, i: nat, j: nat) {
    && i < j < |stream| && stream[i].seqStart.Some? && stream[j].seqStart.Some?
    && forall k :: i < k < j ==> stream[k].seqStart.None?
  }

  /** From `i`'s number to `j`'s is at most 2^31 forward, mod 2^32. */
  predicate StepsForward(stream: seq<Record>, i: nat, j: nat)
    requires NextHint(stream, i, j)
  {
    (stream[j].seqStart.value - stream[i].seqStart.value) % 0x1_0000_0000 <= 0x8000_0000
  }

  /** Along the stream no sequence number steps back. */
  ghost predicate InSerialOrder(stream: seq<Record>) {
    forall i: nat, j: nat :: NextHint(stream, i, j) ==> StepsForward(stream, i, j)
  }

  /** The last sequence number of a stream is that of its last hinted record. */
  lemma {:induction false} LastSeqIs(stream: seq<Record>) returns (i: nat)
    requires LastSeq(stream).Some?
    ensures i < |stream| && stream[i].seqStart == LastSeq(stream)
    ensures forall k :: i < k < |stream| ==> stream[k].seqStart.None?
  {
    var n := |stream| - 1;
    if stream[n].seqStart.Some? {
      i := n;
    } else {
      i := LastSeqIs(stream[..n]);
    }
  }

  lemma {:induction false} LastHint(stream: seq<Record>, i: nat) returns (last: u32)
    requires i < |stream| && stream[i].seqStart.Some? && forall k :: i < k < |stream| ==> stream[k].seqStart.None?
    ensures LastSeq(stream) == stream[i].seqStart == Some(last)
  {
    last := stream[i].seqStart.value;
    if i < |stream| - 1 {
      last := LastHint(stream[..|stream| - 1], i);
    }
  }

  /** For one record. */
  lemma FollowsIsForward(stream: seq<Record>, k: nat)
    requires k < |stream|
    ensures FollowsInStream(stream[..k], stream[k]) <==> forall i: nat :: NextHint(stream, i, k) ==> StepsForward(stream, i, k)
  {
    hide LastSeq;
    if LastSeq(stream[..k]).Some? {
      var i := LastSeqIs(stream[..k]);
      if stream[k].seqStart.Some? {
        assert NextHint(stream, i, k);
      }
    } else if i: nat :| NextHint(stream, i, k) {
      var last := LastHint(stream[..k], i);
      assert false;
    }
  }

  /** Each record following the last number carried before it is the order of the whole stream. */
  lemma FollowsIsInOrder(stream: seq<Record>)
    ensures (forall k :: 0 <= k < |stream| ==> FollowsInStream(stream[..k], stream[k])) <==> InSerialOrder(stream)
  {
    hide FollowsInStream, StepsForward;
    forall k: nat | k < |stream|
      ensures FollowsInStream(stream[..k], stream[k]) <==> forall i: nat :: NextHint(stream, i, k) ==> StepsForward(stream, i, k)
    {
      FollowsIsForward(stream, k);
    }
  }

  /** The state of `r`'s placer once `r` has arrived after `stored`. */
  function PlacedState(isns: Isns, stored: seq<Record>, r: Record): PlacerState {
    PlaceStep(PlacerAfter(IsnOf(isns, r.senderPid), Sent(stored, r.senderPid)), r)
  }

  /** One past the last sequence number `r` occupies in its sender's offset space. */
  function EndAfter(isns: Isns, stored: seq<Record>, r: Record): (end: Option<int>)
    ensures end.Some? ==> PlacedState(isns, stored, r).Anchored?
  {
    SequenceEnd(r, Place(PlacerAfter(IsnOf(isns, r.senderPid), Sent(stored, r.senderPid)), r))
  }

  /** The ack state of record `i`'s sender once `i` has been observed. */
  function AckStateAt(order: seq<Record>, i: nat): (st: AckState)
    requires i < |order| && order[i].ack.Some?
    ensures st.Acked?
  {
    AckStep(AckAfter(Sent(order[..i], order[i].senderPid)), order[i].ack.value)
  }

  /** Record `i`'s ack as a position of a stream with the given origin. */
  function AckedAt(order: seq<Record>, i: nat, origin: u32): int
    requires i < |order| && order[i].ack.Some?
  {
    Serial.SerialDelta(AckStateAt(order, i).first, origin) + AckStateAt(order, i).position
  }

  /** `r`, stored after record `i`, was not already acknowledged by `i`. */
  predicate EdgeKept(isns: Isns, stored: seq<Record>, i: nat, r: Record)
    requires i < |stored|
  {
    stored[i].senderPid != r.senderPid && stored[i].ack.Some? && EndAfter(isns, stored, r).Some? ==>
      AckedAt(stored, i, PlacedState(isns, stored, r).origin) < EndAfter(isns, stored, r).value
  }

  function Senders(stored: seq<Record>): set<u16> {
    set r | r in stored :: r.senderPid
  }

  /** Ack edges are defined pairwise: they bind a two-participant session only. */
  predicate AcksBind(count: Option<nat>, senders: set<u16>) {
    if count.Some? then count.value == 2 else |senders| <= 2
  }

  predicate EdgesKept(isns: Isns, stored: seq<Record>, r: Record) {
    forall i :: 0 <= i < |stored| ==> EdgeKept(isns, stored, i, r)
  }

  /** Whether `r` may be stored after `stored`. */
  predicate Admits(count: Option<nat>, isns: Isns, stored: seq<Record>, r: Record) {
    && FollowsInStream(Sent(stored, r.senderPid), r)
    && (AcksBind(count, Senders(stored) + {r.senderPid}) ==> EdgesKept(isns, stored, r))
  }

  /** A valid causal linearization: no record is stored after one that precludes it. */
  predicate CausalOrder(count: Option<nat>, isns: Isns, order: seq<Record>) {
    forall j :: 0 <= j < |order| ==> Admits(count, isns, order[..j], order[j])
  }

  lemma CausalOrderSnoc(count: Option<nat>, isns: Isns, order: seq<Record>, r: Record)
    ensures CausalOrder(count, isns, order + [r])
        <==> CausalOrder(count, isns, order) && Admits(count, isns, order, r)
  {
    var whole, n := order + [r], |order|;
    assert whole[..n] == order && whole[n] == r;
    assert forall j :: 0 <= j < n ==> whole[..j] == order[..j] && whole[j] == order[j];
    if CausalOrder(count, isns, whole) {
      assert Admits(count, isns, whole[..n], whole[n]);
      forall j | 0 <= j < n ensures Admits(count, isns, order[..j], order[j]) {
        assert Admits(count, isns, whole[..j], whole[j]);
      }
    }
  }

  /** Spelled out over pairs of one stored order: the quadratic reading of the rule. */
  lemma CausalOrderPairwise(isns: Isns, order: seq<Record>)
    ensures CausalOrder(Some(2), isns, order)
        <==> && (forall j :: 0 <= j < |order| ==>
                   FollowsInStream(Sent(order[..j], order[j].senderPid), order[j]))
             && (forall j, i :: 0 <= i < j < |order| ==> EdgeKept(isns, order[..j], i, order[j]))
  {
    if forall j, i :: 0 <= i < j < |order| ==> EdgeKept(isns, order[..j], i, order[j]) {
      forall j | 0 <= j < |order| ensures EdgesKept(isns, order[..j], order[j]) {
        forall i | 0 <= i < |order[..j]| ensures EdgeKept(isns, order[..j], i, order[j]) {
        }
      }
    }
    if CausalOrder(Some(2), isns, order) {
      forall j | 0 <= j < |order|
        ensures FollowsInStream(Sent(order[..j], order[j].senderPid), order[j])
        ensures EdgesKept(isns, order[..j], order[j])
      {
        assert Admits(Some(2), isns, order[..j], order[j]);
      }
    }
  }
}
