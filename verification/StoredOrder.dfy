/**
 * The single-pass check of a stored order, with one running maximum per participant.
 *
 * `StoredOrder.Observe` keeps a bounded amount of state per participant; it accepts
 * exactly the records the pairwise rule of `CausalRule` admits.
 */
module StoredOrderCheck {
  import opened Prelude
  import opened Blocks
  import opened Serial
  import opened Placement
  import opened CausalRule

  // ----- The running maximum loses nothing ----------------------------------

  /** Every ack `pid` has stored lies below `end`, in a stream with the given origin. */
  predicate AllAcksBelow(stored: seq<Record>, pid: u16, origin: u32, end: int) {
    forall i :: 0 <= i < |stored| && stored[i].senderPid == pid && stored[i].ack.Some? ==>
      AckedAt(stored, i, origin) < end
  }

  /** One ack more, as a position of that stream. */
  lemma BelowSnoc(before: seq<Record>, r: Record, pid: u16, origin: u32, end: int)
    ensures AllAcksBelow(before + [r], pid, origin, end) <==>
      && AllAcksBelow(before, pid, origin, end)
      && (r.senderPid == pid && r.ack.Some? ==>
            var st := AckStep(AckAfter(Sent(before, pid)), r.ack.value);
            SerialDelta(st.first, origin) + st.position < end)
  {
    var stored, n := before + [r], |before|;
    assert stored[..n] == before && stored[n] == r;
    forall i | 0 <= i < n && stored[i].ack.Some? ensures AckedAt(before, i, origin) == AckedAt(stored, i, origin) {
      assert before[..i] == stored[..i];
    }
    hide AckAfter, AckStep, Sent, SerialDelta;
    if AllAcksBelow(stored, pid, origin, end) {
      forall i | 0 <= i < n && before[i].senderPid == pid && before[i].ack.Some? ensures AckedAt(before, i, origin) < end {
        assert stored[i] == before[i] && AckedAt(stored, i, origin) < end;
      }
      assert stored[n].senderPid == pid && stored[n].ack.Some? ==> AckedAt(stored, n, origin) < end;
    }
  }

  lemma {:induction false} RunningMaximumIsExact(stored: seq<Record>, pid: u16, origin: u32, end: int)
    ensures AllAcksBelow(stored, pid, origin, end)
        <==> var st := AckAfter(Sent(stored, pid));
             st.Acked? ==> SerialDelta(st.first, origin) + st.highest < end
    ensures AckAfter(Sent(stored, pid)).Acked? ==>
        AckAfter(Sent(stored, pid)).highest >= AckAfter(Sent(stored, pid)).position
  {
    if stored == [] {
    } else {
      var n := |stored| - 1;
      var before, r := stored[..n], stored[n];
      assert stored == before + [r];
      RunningMaximumIsExact(before, pid, origin, end);
      SentSnoc(before, r, pid);
      AckSnoc(Sent(before, pid), r);
      BelowSnoc(before, r, pid, origin, end);
      hide AllAcksBelow, AckAfter, Sent, SerialDelta;
    }
  }

  /** The pairwise rule for one record, read through each peer's highest ack. */
  lemma EdgesThroughMaximum(isns: Isns, stored: seq<Record>, r: Record)
    requires EndAfter(isns, stored, r).Some?
    ensures EdgesKept(isns, stored, r)
        <==> forall pid :: pid in Senders(stored) && pid != r.senderPid ==>
               AllAcksBelow(stored, pid, PlacedState(isns, stored, r).origin, EndAfter(isns, stored, r).value)
  {
    var origin, end := PlacedState(isns, stored, r).origin, EndAfter(isns, stored, r).value;
    if EdgesKept(isns, stored, r) {
      forall pid | pid in Senders(stored) && pid != r.senderPid
        ensures AllAcksBelow(stored, pid, origin, end)
      {
        forall i | 0 <= i < |stored| && stored[i].senderPid == pid && stored[i].ack.Some?
          ensures AckedAt(stored, i, origin) < end
        {
          assert EdgeKept(isns, stored, i, r);
        }
      }
    }
    if forall pid :: pid in Senders(stored) && pid != r.senderPid ==> AllAcksBelow(stored, pid, origin, end) {
      forall i | 0 <= i < |stored| ensures EdgeKept(isns, stored, i, r) {
        assert stored[i].senderPid in Senders(stored);
      }
    }
  }

  /** No peer's highest ack covers `end`, a position of a stream with the given origin. */
  predicate ClearOfPeers(stored: seq<Record>, pid: u16, origin: u32, end: int) {
    forall q :: q != pid && AckAfter(Sent(stored, q)).Acked? ==>
      SerialDelta(AckAfter(Sent(stored, q)).first, origin) + AckAfter(Sent(stored, q)).highest < end
  }

  lemma {:induction false} AcksComeFromSenders(stored: seq<Record>, pid: u16)
    requires AckAfter(Sent(stored, pid)).Acked?
    ensures pid in Senders(stored)
  {
    if stored != [] {
      var before, r := stored[..|stored| - 1], stored[|stored| - 1];
      assert stored == before + [r];
      SentSnoc(before, r, pid);
      if r.senderPid != pid {
        AcksComeFromSenders(before, pid);
      }
    }
  }

  lemma EdgesKeptIffClear(isns: Isns, stored: seq<Record>, r: Record)
    ensures EdgesKept(isns, stored, r)
        <==> (EndAfter(isns, stored, r).Some? ==>
                ClearOfPeers(stored, r.senderPid, PlacedState(isns, stored, r).origin,
                             EndAfter(isns, stored, r).value))
  {
    if EndAfter(isns, stored, r).Some? {
      var origin, end := PlacedState(isns, stored, r).origin, EndAfter(isns, stored, r).value;
      EdgesThroughMaximum(isns, stored, r);
      forall pid: u16 {
        RunningMaximumIsExact(stored, pid, origin, end);
      }
      forall pid | pid !in Senders(stored) ensures AckAfter(Sent(stored, pid)).NoAck? {
        if AckAfter(Sent(stored, pid)).Acked? {
          AcksComeFromSenders(stored, pid);
        }
      }
    }
  }

  /** What storing `r` does to every participant's walks. */
  lemma WalksAfter(isns: Isns, stored: seq<Record>, r: Record, pid: u16)
    ensures var isn := IsnOf(isns, pid);
            PlacerAfter(isn, Sent(stored + [r], pid))
            == if pid == r.senderPid then PlaceStep(PlacerAfter(isn, Sent(stored, pid)), r)
               else PlacerAfter(isn, Sent(stored, pid))
    ensures AckAfter(Sent(stored + [r], pid))
         == if pid == r.senderPid && r.ack.Some? then AckStep(AckAfter(Sent(stored, pid)), r.ack.value)
            else AckAfter(Sent(stored, pid))
    ensures LastSeq(Sent(stored + [r], pid))
         == if pid == r.senderPid && r.seqStart.Some? then r.seqStart else LastSeq(Sent(stored, pid))
  {
    SentSnoc(stored, r, pid);
    PlacerSnoc(IsnOf(isns, pid), Sent(stored, pid), r);
    AckSnoc(Sent(stored, pid), r);
    Snoc(Sent(stored, pid), r);
  }

  lemma {:induction false} SubsetSize<T>(a: set<T>, b: set<T>)
    requires a <= b
    ensures |a| <= |b|
  {
    if x :| x in a {
      SubsetSize(a - {x}, b - {x});
    }
  }

  lemma SendersGrow(stored: seq<Record>, r: Record)
    ensures Senders(stored + [r]) == Senders(stored) + {r.senderPid}
    ensures |Senders(stored)| <= |Senders(stored) + {r.senderPid}|
  {
    assert forall x :: x in stored + [r] <==> x in stored || x == r;
    SubsetSize(Senders(stored), Senders(stored) + {r.senderPid});
  }

  /** No third participant has sent anything. */
  ghost predicate TwoAtMost(order: seq<Record>) {
    exists x: u16, y: u16 :: OnlyFrom(order, x, y)
  }

  predicate OnlyFrom(order: seq<Record>, x: u16, y: u16) {
    forall i :: 0 <= i < |order| ==> order[i].senderPid == x || order[i].senderPid == y
  }

  lemma {:induction false} SendersAreTwo(order: seq<Record>)
    ensures |Senders(order)| <= 2 <==> TwoAtMost(order)
  {
    if order == [] {
      assert OnlyFrom(order, 0, 0);
      return;
    }
    var before, r := order[..|order| - 1], order[|order| - 1];
    assert order == before + [r];
    SendersAreTwo(before);
    SendersGrow(before, r);
    if x: u16, y: u16 :| OnlyFrom(order, x, y) {
      FewSenders(order, x, y);
    }
    if |Senders(order)| <= 2 {
      var x: u16, y: u16 :| OnlyFrom(before, x, y);
      OneMoreSender(before, r, x, y);
    }
  }

  lemma FewSenders(order: seq<Record>, x: u16, y: u16)
    requires OnlyFrom(order, x, y)
    ensures |Senders(order)| <= 2
  {
    SubsetSize(Senders(order), {x, y});
  }

  lemma OneMoreSender(before: seq<Record>, r: Record, x: u16, y: u16)
    requires OnlyFrom(before, x, y) && |Senders(before + [r])| <= 2
    ensures TwoAtMost(before + [r])
  {
    var z := r.senderPid;
    if z == x || z == y || x == y {
      assert OnlyFrom(before + [r], x, if z == x then y else z);
    } else if j :| 0 <= j < |before| && before[j].senderPid == x {
      if k :| 0 <= k < |before| && before[k].senderPid == y {
        assert before[j] in before + [r] && before[k] in before + [r] && r in before + [r];
        SubsetSize({x, y, z}, Senders(before + [r]));
      } else {
        assert OnlyFrom(before + [r], x, z);
      }
    } else {
      assert OnlyFrom(before + [r], y, z);
    }
  }

  /** What acknowledgements ask of the record stored at `j`. */
  predicate EdgesIntoKept(isns: Isns, order: seq<Record>, j: nat)
    requires j < |order|
  {
    forall i :: 0 <= i < j ==> EdgeKept(isns, order[..j], i, order[j])
  }

  /**
   * What the record stored at `j` is held to: its sender's own order, and what acknowledges it, if
   * acknowledgements bind. With a known count they do iff it is two; with an unknown one, the
   * writer's case, as long as no third participant has sent anything.
   */
  ghost predicate HeldTo(count: Option<nat>, isns: Isns, order: seq<Record>, j: nat)
    requires j < |order|
  {
    && FollowsInStream(Sent(order[..j], order[j].senderPid), order[j])
    && ((if count.Some? then count.value == 2 else TwoAtMost(order[..j + 1])) ==> EdgesIntoKept(isns, order, j))
  }

  lemma CountDecidesWhatBinds(count: Option<nat>, isns: Isns, order: seq<Record>)
    ensures CausalOrder(count, isns, order) <==> forall j: nat :: j < |order| ==> HeldTo(count, isns, order, j)
  {
    hide Sent, EdgeKept, FollowsInStream, TwoAtMost, Senders, HeldTo, Admits;
    forall j: nat | j < |order| ensures Admits(count, isns, order[..j], order[j]) <==> HeldTo(count, isns, order, j) {
      AdmitsIsHeld(count, isns, order, j);
    }
  }

  lemma AdmitsIsHeld(count: Option<nat>, isns: Isns, order: seq<Record>, j: nat)
    requires j < |order|
    ensures Admits(count, isns, order[..j], order[j]) <==> HeldTo(count, isns, order, j)
  {
    hide Sent, EdgeKept, FollowsInStream, TwoAtMost, Senders;
    assert order[..j + 1] == order[..j] + [order[j]];
    SendersGrow(order[..j], order[j]);
    SendersAreTwo(order[..j + 1]);
  }

  /** The walk states of participants, with the state a missing one would start from. */
  function PlacerIn(states: map<u16, PlacerState>, isns: Isns, pid: u16): PlacerState {
    if pid in states then states[pid] else StartState(IsnOf(isns, pid))
  }

  function AckIn(states: map<u16, AckState>, pid: u16): AckState {
    if pid in states then states[pid] else NoAck
  }

  function SeqIn(last: map<u16, u32>, pid: u16): Option<u32> {
    if pid in last then Some(last[pid]) else None
  }

  // ----- The checker ---------------------------------------------------------

  /** Every participant's walks stand where the records stored so far have taken them. */
  ghost predicate Tracks(isns: Isns, stored: seq<Record>, placed: map<u16, PlacerState>, last: map<u16, u32>) {
    && (forall p :: PlacerIn(placed, isns, p) == PlacerAfter(IsnOf(isns, p), Sent(stored, p)))
    && (forall p :: SeqIn(last, p) == LastSeq(Sent(stored, p)))
  }

  ghost predicate TracksAcks(stored: seq<Record>, acked: map<u16, AckState>) {
    forall p :: AckIn(acked, p) == AckAfter(Sent(stored, p))
  }

  function NextSeqs(last: map<u16, u32>, r: Record): map<u16, u32> {
    if r.seqStart.Some? then last[r.senderPid := r.seqStart.value] else last
  }

  function NextPlaced(isns: Isns, placed: map<u16, PlacerState>, r: Record): map<u16, PlacerState> {
    placed[r.senderPid := PlaceStep(PlacerIn(placed, isns, r.senderPid), r)]
  }

  function NextAcked(acked: map<u16, AckState>, r: Record): map<u16, AckState> {
    if r.ack.Some? then acked[r.senderPid := AckStep(AckIn(acked, r.senderPid), r.ack.value)] else acked
  }

  lemma TracksSnoc(isns: Isns, stored: seq<Record>, placed: map<u16, PlacerState>, last: map<u16, u32>, r: Record)
    requires Tracks(isns, stored, placed, last)
    ensures Tracks(isns, stored + [r], NextPlaced(isns, placed, r), NextSeqs(last, r))
  {
    hide PlaceStep, Place, PlacerAfter, Sent, LastSeq;
    forall p: u16 {
      WalksAfter(isns, stored, r, p);
    }
  }

  lemma TracksAcksSnoc(stored: seq<Record>, acked: map<u16, AckState>, r: Record)
    requires TracksAcks(stored, acked)
    ensures TracksAcks(stored + [r], NextAcked(acked, r))
  {
    hide AckAfter, Sent;
    forall p: u16 {
      WalksAfter(map[], stored, r, p);
    }
  }

  lemma EndsAreAnchored(st: PlacerState, r: Record)
    ensures SequenceEnd(r, Place(st, r)).Some? ==> PlaceStep(st, r).Anchored?
  {
  }

  /** The single-pass verdict on `r`, from the walks of everyone seen before it. */
  predicate Verdict(last: map<u16, u32>, placer: PlacerState, acked: map<u16, AckState>, binds: bool, r: Record) {
    var end, origin := SequenceEnd(r, Place(placer, r)), OriginOf(PlaceStep(placer, r));
    && KeepsOrder(SeqIn(last, r.senderPid), r)
    && (binds && end.Some? && origin.Some? ==> ClearOf(acked, r.senderPid, origin.value, end.value))
  }

  /** No peer's highest ack covers `end`, read from the walks. */
  predicate ClearOf(acked: map<u16, AckState>, pid: u16, origin: u32, end: int) {
    forall q :: q in acked && q != pid && acked[q].Acked? ==>
      SerialDelta(acked[q].first, origin) + acked[q].highest < end
  }

  /** The single-pass verdict is the pairwise rule. */
  lemma VerdictIsAdmits(count: Option<nat>, isns: Isns, stored: seq<Record>, last: map<u16, u32>,
                        placed: map<u16, PlacerState>, acked: map<u16, AckState>, r: Record)
    requires Tracks(isns, stored, placed, last)
    requires AcksBind(count, Senders(stored)) ==> TracksAcks(stored, acked)
    ensures var binds := AcksBind(count, Senders(stored) + {r.senderPid});
            Verdict(last, PlacerIn(placed, isns, r.senderPid), acked, binds, r) == Admits(count, isns, stored, r)
  {
    hide PlaceStep, Place, PlacerAfter, Sent, AckAfter, SequenceEnd, LastSeq, SeqLeq, EdgesKept, Senders, ClearOfPeers;
    EndsAreAnchored(PlacerIn(placed, isns, r.senderPid), r);
    SendersGrow(stored, r);
    EdgesKeptIffClear(isns, stored, r);
    assert PlacerIn(placed, isns, r.senderPid) == PlacerAfter(IsnOf(isns, r.senderPid), Sent(stored, r.senderPid));
    assert SeqIn(last, r.senderPid) == LastSeq(Sent(stored, r.senderPid));
    var end := EndAfter(isns, stored, r);
    if end.Some? && AcksBind(count, Senders(stored) + {r.senderPid}) {
      ClearFromWalks(stored, acked, r.senderPid, PlacedState(isns, stored, r).origin, end.value);
    }
  }

  /** The verdict on an end, read from the walks rather than from the stored records. */
  lemma ClearFromWalks(stored: seq<Record>, acked: map<u16, AckState>, pid: u16, origin: u32, end: int)
    requires TracksAcks(stored, acked)
    ensures ClearOfPeers(stored, pid, origin, end) == ClearOf(acked, pid, origin, end)
  {
    hide AckAfter, Sent;
    assert forall q :: q in acked ==> AckIn(acked, q) == acked[q];
  }

  // ----- The checker ---------------------------------------------------------

  class StoredOrder {
    const count: Option<nat>
    const isns: Isns
    var lastSeq: map<u16, u32>
    var placers: map<u16, StreamPlacer>
    var acks: map<u16, AckWalk>
    var senders: set<u16>
    var ackChecks: bool

    ghost var seen: seq<Record>
    ghost var placed: map<u16, PlacerState>
    ghost var acked: map<u16, AckState>
    ghost var repr: set<object>

    /** Every walk belongs to this checker, to one participant, and stands where the ghost maps say. */
    ghost predicate Owned()
      reads this, repr
    {
      && this in repr
      && placed.Keys == placers.Keys && acked.Keys == acks.Keys
      && (forall p :: p in placers ==>
            placers[p] in repr && placers[p].pid == p && placers[p].State() == placed[p])
      && (forall p :: p in acks ==>
            acks[p] in repr && acks[p].pid == p && acks[p].State() == acked[p] && acked[p].Acked?)
    }

    ghost predicate Valid()
      reads this, repr
    {
      && Owned()
      && senders == Senders(seen)
      && ackChecks == AcksBind(count, senders)
      && Tracks(isns, seen, placed, lastSeq)
      && (ackChecks ==> TracksAcks(seen, acked))
    }

    constructor (count: Option<nat>, isns: Isns)
      ensures Valid() && fresh(repr)
      ensures seen == [] && this.count == count && this.isns == isns
    {
      this.count := count;
      this.isns := isns;
      lastSeq, placers, acks, senders := map[], map[], map[], {};
      ackChecks := count == Some(2) || count == None;
      seen, placed, acked := [], map[], map[];
      repr := {this};
    }

    /** Place the sender's next record; no other walk moves. */
    method PlaceFor(r: Record) returns (off: Option<int>, origin: Option<u32>)
      requires Owned()
      modifies repr
      ensures Owned() && fresh(repr - old(repr))
      ensures unchanged(`lastSeq, `acks, `senders, `ackChecks, `seen, `acked)
      ensures off == Place(PlacerIn(old(placed), isns, r.senderPid), r)
      ensures placed == NextPlaced(isns, old(placed), r)
      ensures origin == OriginOf(placed[r.senderPid])
    {
      assert this in repr;
      hide Owned, Place, PlaceStep;
      AddPlacer(r.senderPid);
      off, origin := Move(r);
    }

    /** Place the record with its sender's placer, which is there. */
    method Move(r: Record) returns (off: Option<int>, origin: Option<u32>)
      requires Owned() && r.senderPid in placers && placers[r.senderPid] in repr && r.senderPid in placed
      modifies placers[r.senderPid], `placed
      ensures Owned()
      ensures off == Place(old(placed)[r.senderPid], r)
      ensures placed == old(placed)[r.senderPid := PlaceStep(old(placed)[r.senderPid], r)]
      ensures origin == OriginOf(placed[r.senderPid])
    {
      hide Place, PlaceStep;
      var placer := placers[r.senderPid];
      off := placer.PlaceRecord(r);
      origin := placer.origin;
      placed := placed[r.senderPid := placer.State()];
    }

    /** Give the participant a placer, if this is its first record. */
    method AddPlacer(pid: u16)
      requires Owned()
      modifies `placers, `placed, `repr
      ensures Owned() && fresh(repr - old(repr))
      ensures pid in placers && placers[pid] in repr && (placers[pid] in old(repr) || fresh(placers[pid]))
      ensures placed == old(placed)[pid := PlacerIn(old(placed), isns, pid)]
    {
      if pid !in placers {
        var placer := new StreamPlacer(pid, IsnOf(isns, pid));
        placers := placers[pid := placer];
        repr := repr + {placer};
        placed := placed[pid := placer.State()];
      }
    }

    /** Walk the sender's next ack; no other walk moves. */
    method ObserveAck(pid: u16, ack: u32)
      requires Owned()
      modifies repr
      ensures Owned() && fresh(repr - old(repr))
      ensures unchanged(`lastSeq, `placers, `senders, `ackChecks, `seen, `placed)
      ensures acked == old(acked)[pid := AckStep(AckIn(old(acked), pid), ack)]
    {
      var walk: AckWalk;
      if pid !in acks {
        walk := new AckWalk(pid);
        acks := acks[pid := walk];
        repr := repr + {walk};
      } else {
        walk := acks[pid];
      }
      var _ := walk.Observe(ack);
      acked := acked[pid := walk.State()];
    }

    /** Whether no peer's highest ack already covers a record that ends at `end`. */
    method NotAlreadyAcked(pid: u16, end: int, origin: u32) returns (ok: bool)
      requires Owned()
      ensures ok == ClearOf(acked, pid, origin, end)
    {
      var rest := acks.Keys;
      while rest != {}
        invariant rest <= acks.Keys
        invariant forall q :: q in acked && q !in rest && q != pid && acked[q].Acked? ==>
                    SerialDelta(acked[q].first, origin) + acked[q].highest < end
        decreases rest
      {
        var other :| other in rest;
        var walk := acks[other];
        if other != pid {
          assert walk.State() == acked[other];
          var reached := walk.Position(walk.highest, origin);
          if end <= reached {
            return false;
          }
        }
        rest := rest - {other};
      }
      ok := true;
    }

    /** Count the sender; from a third sender on, an unknown count drops the ack checks. */
    method CountSender(pid: u16)
      requires Owned() && ackChecks == AcksBind(count, senders)
      modifies `senders, `ackChecks
      ensures Owned()
      ensures senders == old(senders) + {pid}
      ensures ackChecks == AcksBind(count, senders) && (ackChecks ==> old(ackChecks))
    {
      SubsetSize(senders, senders + {pid});
      senders := senders + {pid};
      if count.None? && |senders| > 2 {
        ackChecks := false;
      }
    }

    /** Hold `r` to its participant's own order, and remember its sequence number. */
    method CheckSequence(r: Record) returns (ok: bool)
      requires Owned()
      modifies `lastSeq, `seen
      ensures Owned() && seen == old(seen) + [r]
      ensures ok <==> KeepsOrder(SeqIn(old(lastSeq), r.senderPid), r)
      ensures ok ==> lastSeq == NextSeqs(old(lastSeq), r)
    {
      seen := seen + [r];
      if r.seqStart.Some? {
        if r.senderPid in lastSeq && !SeqLeq(lastSeq[r.senderPid], r.seqStart.value) {
          return false;
        }
        lastSeq := lastSeq[r.senderPid := r.seqStart.value];
      }
      ok := true;
    }

    /** Move the sender's walks; `ok` is false where the source raises. */
    method Absorb(r: Record) returns (ok: bool)
      requires this in repr && Owned() && ackChecks == AcksBind(count, senders)
      modifies repr
      ensures Owned() && fresh(repr - old(repr)) && seen == old(seen) + [r]
      ensures senders == old(senders) + {r.senderPid}
      ensures ackChecks == AcksBind(count, senders) && (ackChecks ==> old(ackChecks))
      ensures ok <==> Verdict(old(lastSeq), PlacerIn(old(placed), isns, r.senderPid), old(acked), ackChecks, r)
      ensures ok ==> lastSeq == NextSeqs(old(lastSeq), r)
      ensures ok ==> placed == NextPlaced(isns, old(placed), r)
      ensures ok && ackChecks ==> acked == NextAcked(old(acked), r)
    {
      hide Owned, ClearOf, PlaceStep, Place, AckStep, SequenceEnd, SeqLeq;
      CountSender(r.senderPid);
      var follows := CheckSequence(r);
      if !follows {
        return false;
      }
      var off, origin := PlaceFor(r);
      var end := SequenceEnd(r, off);
      if ackChecks && end.Some? && origin.Some? {
        var clear := NotAlreadyAcked(r.senderPid, end.value, origin.value);
        if !clear {
          return false;
        }
      }
      if ackChecks && r.ack.Some? {
        ObserveAck(r.senderPid, r.ack.value);
      }
      ok := true;
    }

    /** Fold one record in; `ok` is false where the source raises. */
    method Observe(r: Record) returns (ok: bool)
      requires Valid()
      modifies repr
      ensures ok <==> Admits(count, isns, old(seen), r)
      ensures ok ==> Valid() && seen == old(seen) + [r]
      ensures fresh(repr - old(repr))
    {
      VerdictIsAdmits(count, isns, seen, lastSeq, placed, acked, r);
      TracksSnoc(isns, seen, placed, lastSeq, r);
      if ackChecks {
        TracksAcksSnoc(seen, acked, r);
      }
      SendersGrow(seen, r);
      assert this in repr;
      hide Owned, Tracks, TracksAcks, Verdict, Admits, Senders, NextSeqs, NextPlaced, NextAcked;
      ok := Absorb(r);
    }
  }

  /** Check a whole stored order, as a reader does. */
  method VerifySequenced(records: seq<Record>, count: Option<nat>, isns: Isns) returns (ok: bool)
    ensures ok <==> CausalOrder(count, isns, records)
  {
    hide StoredOrder.Valid;
    var state := new StoredOrder(count, isns);
    for n := 0 to |records|
      invariant state.Valid() && fresh(state.repr)
      invariant state.count == count && state.isns == isns
      invariant state.seen == records[..n]
      invariant CausalOrder(count, isns, records[..n])
    {
      assert records[..n + 1] == records[..n] + [records[n]];
      CausalOrderSnoc(count, isns, records[..n], records[n]);
      var admitted := state.Observe(records[n]);
      if !admitted {
        assert !Admits(count, isns, records[..n], records[n]);
        return false;
      }
    }
    assert records[..|records|] == records;
    ok := true;
  }
}
