/**
 * The linearizing session writer: buffer each participant's records, merge them into
 * causal order, and hold every record to the placement guard and the stored-order check.
 */
module SessionWriter {
  import opened Prelude
  import opened Blocks
  import opened Serial
  import opened Placement
  import opened CausalRule
  import opened CausalMerge
  import opened MergeTheorems
  import opened PlacementGuard
  import StoredOrderCheck
  import Unwrapping
  import opened HonestRun

  /** The anchors the guard keeps: where each declared stream's next record is measured from. */
  ghost predicate AnchorsAgree(isns: Isns, stored: seq<Record>, anchor: map<u16, u32>) {
    && anchor.Keys == isns.Keys
    && forall p :: p in isns ==> anchor[p] == DeclaredWalk(isns[p], Sent(stored, p)).value
  }

  function NextAnchor(isns: Isns, anchor: map<u16, u32>, r: Record): map<u16, u32> {
    if r.senderPid in isns && r.senderPid in anchor && r.seqStart.Some?
       && SerialDelta(r.seqStart.value, anchor[r.senderPid]) >= 0
    then anchor[r.senderPid := r.seqStart.value] else anchor
  }

  lemma AnchorsSnoc(isns: Isns, stored: seq<Record>, anchor: map<u16, u32>, r: Record)
    requires AnchorsAgree(isns, stored, anchor)
    ensures AnchorsAgree(isns, stored + [r], NextAnchor(isns, anchor, r))
  {
    forall p | p in isns
      ensures NextAnchor(isns, anchor, r)[p] == DeclaredWalk(isns[p], Sent(stored + [r], p)).value
    {
      StoredOrderCheck.WalksAfter(isns, stored, r, p);
      assert anchor[p] == DeclaredWalk(isns[p], Sent(stored, p)).value;
      hide Sent, PlacerAfter, Wrap;
    }
  }

  /** At most two streams, none read yet. */
  predicate FromStart(views: seq<View>) {
    |views| <= 2 && forall k :: 0 <= k < |views| ==> views[k].next == 0
  }

  /**
   * What a flush has written, on top of what was there: all the merge emits, or what comes before
   * the first record refused.
   */
  ghost predicate FlushSays(result: FlushResult, isns: Isns, views: seq<View>, before: seq<Record>, written: seq<Record>) {
    FromStart(views) &&
    var m := LinearOf(views);
    match result
    case Flushed =>
      m.outcome == Complete && written == before + m.emitted
    case MergeFailed(outcome) =>
      outcome == m.outcome != Complete && written == before + m.emitted
    case PlacementRefused(k) =>
      k < |m.emitted| && written == before + m.emitted[..k] && !GuardAdmits(isns, written, m.emitted[k])
    case OrderRefused(k) =>
      && k < |m.emitted| && written == before + m.emitted[..k] && !Admits(None, isns, written, m.emitted[k])
      && (before == [] ==> !AllMergeable(isns, views))
  }

  function BufferedViews(isns: Isns, pending: map<u16, seq<Record>>, pids: seq<u16>): (views: seq<View>)
    ensures |views| == |pids|
    ensures forall k :: 0 <= k < |views| && pids[k] in pending ==>
      views[k] == View(pids[k], IsnOf(isns, pids[k]), pending[pids[k]], 0)
  {
    seq(|pids|, k requires 0 <= k < |pids| =>
      View(pids[k], IsnOf(isns, pids[k]), if pids[k] in pending then pending[pids[k]] else [], 0))
  }

  datatype FlushResult = Flushed | PlacementRefused(at: nat) | OrderRefused(at: nat) | MergeFailed(outcome: Outcome)

  class SessionWriter {
    const isns: Isns
    const order: StoredOrderCheck.StoredOrder
    var anchor: map<u16, u32>
    var pending: map<u16, seq<Record>>
    var written: seq<Record>

    ghost predicate Valid()
      reads this, order, order.repr
    {
      && order.Valid() && order.isns == isns && order.count == None && this !in order.repr
      && order.seen == written
      && AnchorsAgree(isns, written, anchor)
      && PendingSent()
      && Kept(isns, written)
    }

    constructor (isns: Isns)
      ensures Valid() && fresh(order) && fresh(order.repr)
      ensures this.isns == isns && pending == map[] && written == []
    {
      this.isns := isns;
      order := new StoredOrderCheck.StoredOrder(None, isns);
      anchor := map p | p in isns :: Wrap(isns[p] as int + 1);
      pending := map[];
      written := [];
      NothingWritten(isns);
    }

    /** The placement guard: false if a reader could give this record no offset. */
    method GuardPlacement(r: Record) returns (ok: bool)
      requires AnchorsAgree(isns, written, anchor)
      modifies `anchor
      ensures ok <==> GuardAdmits(isns, written, r)
      ensures ok ==> anchor == NextAnchor(isns, old(anchor), r)
    {
      hide SerialDelta, Wrap, Sent, PlacerAfter;
      if r.senderPid !in isns || r.seqStart.None? {
        return true;
      }
      var origin := Wrap(isns[r.senderPid] as int + 1);
      if r.Syn() && r.seqStart.value != origin {
        return false;
      }
      var last := anchor[r.senderPid];
      if SerialDelta(r.seqStart.value, last) >= 0 {
        anchor := anchor[r.senderPid := r.seqStart.value];
        return true;
      }
      ok := last != origin || r.payload == [];
    }

    /** Buffer one record behind its sender's earlier ones. */
    method Buffer(r: Record)
      requires Valid()
      modifies `pending
      ensures Valid()
      ensures pending.Keys == old(pending.Keys) + {r.senderPid}
      ensures pending[r.senderPid]
           == (if r.senderPid in old(pending) then old(pending[r.senderPid]) else []) + [r]
      ensures forall p :: p in old(pending) && p != r.senderPid ==> pending[p] == old(pending[p])
    {
      hide StoredOrderCheck.StoredOrder.Valid, AnchorsAgree, Kept;
      var queue := if r.senderPid in pending then pending[r.senderPid] else [];
      pending := pending[r.senderPid := queue + [r]];
    }

    /** Write one record, unless the guard or the order check objects. */
    method EmitRecord(r: Record) returns (result: EmitResult)
      requires Valid()
      modifies `anchor, `written, order, order.repr
      ensures fresh(order.repr - old(order.repr))
      ensures result == (if !GuardAdmits(isns, old(written), r) then Misplaced
                         else if !Admits(None, isns, old(written), r) then Precluded
                         else Emitted)
      ensures result.Emitted? ==> Valid() && written == old(written) + [r]
      ensures !result.Emitted? ==> written == old(written)
      ensures Kept(isns, written)
    {
      hide *;
      WhatHolds();
      AnchorsSnoc(isns, written, anchor, r);
      var placed := GuardPlacement(r);
      if !placed {
        return Misplaced;
      }
      var admitted := order.Observe(r);
      if !admitted {
        return Precluded;
      }
      KeptSnoc(isns, written, r);
      written := written + [r];
      HoldsAgain();
      result := Emitted;
    }

    /** Every buffered record stands behind its own sender. */
    ghost predicate PendingSent()
      reads `pending
    {
      forall p :: p in pending ==> SentBy(p, pending[p])
    }

    lemma WhatHolds()
      requires Valid()
      ensures order.Valid() && order.isns == isns && order.count == None && this !in order.repr
      ensures order.seen == written && AnchorsAgree(isns, written, anchor) && PendingSent() && Kept(isns, written)
    {
      hide AnchorsAgree, Kept, StoredOrderCheck.StoredOrder.Valid;
    }

    lemma HoldsAgain()
      requires order.Valid() && order.isns == isns && order.count == None && this !in order.repr
      requires order.seen == written && AnchorsAgree(isns, written, anchor) && PendingSent() && Kept(isns, written)
      ensures Valid()
    {
      hide AnchorsAgree, Kept, StoredOrderCheck.StoredOrder.Valid;
    }

    /** The buffered streams, in the order of `pids`. */
    function Views(pids: seq<u16>): (views: seq<View>)
      reads `pending
      ensures |views| == |pids|
    {
      BufferedViews(isns, pending, pids)
    }

    /** `causal_merge` of what is buffered. */
    method MergePending(pids: seq<u16>) returns (emitted: seq<Record>, outcome: Outcome)
      requires |pids| <= 2 && (forall k :: 0 <= k < |pids| ==> pids[k] in pending)
      requires |pids| == 2 ==> pids[0] < pids[1]
      ensures FromStart(Views(pids)) && Linear(emitted, outcome) == LinearOf(Views(pids))
    {
      hide MergeFrom, SingleFrom;
      if |pids| == 0 {
        return [], Complete;
      }
      if |pids| == 1 {
        emitted, outcome := MergeSingle(View(pids[0], IsnOf(isns, pids[0]), pending[pids[0]], 0));
      } else {
        emitted, outcome := Merge(View(pids[0], IsnOf(isns, pids[0]), pending[pids[0]], 0),
                                  View(pids[1], IsnOf(isns, pids[1]), pending[pids[1]], 0));
      }
    }

    /**
     * Emit what is buffered, of at most two participants, in causal order after what is already
     * written. From well-behaved streams the order check refuses nothing at a first flush.
     */
    method FlushPending(pids: seq<u16>) returns (result: FlushResult)
      requires Valid() && |pids| <= 2 && (forall p :: p in pending <==> p in pids)
      requires |pids| == 2 ==> pids[0] < pids[1]
      modifies this, order, order.repr
      ensures pending == map[]
      ensures FlushSays(result, isns, old(Views(pids)), old(written), written)
      ensures Kept(isns, written)
      ensures result.Flushed? || result.MergeFailed? ==> Valid()
    {
      ghost var views := Views(pids);
      OrderedViews(pids);
      hide *;
      var emitted, outcome := MergePending(pids);
      TakePending();
      ghost var m := LinearOf(views);
      var k, step := EmitAll(emitted);
      match step {
        case Misplaced =>
          result := PlacementRefused(k);
        case Precluded =>
          assert [] + emitted[..k] == emitted[..k];
          if old(written) == [] && AllMergeable(isns, views) {
            AdmitsWellBehaved(isns, views, k);
          }
          result := OrderRefused(k);
        case Emitted =>
          assert emitted[..k] == emitted;
          result := if outcome == Complete then Flushed else MergeFailed(outcome);
      }
      FlushSaysSo(result, isns, views, old(written), written, k, step);
    }

    method TakePending()
      requires Valid()
      modifies `pending
      ensures Valid() && pending == map[]
    {
      hide StoredOrderCheck.StoredOrder.Valid, AnchorsAgree, SentBy, Kept;
      pending := map[];
    }

    /** Write the records one by one, up to the first that is refused; `k` are written. */
    method EmitAll(emitted: seq<Record>) returns (k: nat, step: EmitResult)
      requires Valid()
      modifies `anchor, `written, order, order.repr
      ensures k <= |emitted| && written == old(written) + emitted[..k]
      ensures step.Emitted? <==> k == |emitted|
      ensures Kept(isns, written) && (step.Emitted? ==> Valid())
      ensures step.Misplaced? ==> !GuardAdmits(isns, written, emitted[k])
      ensures step.Precluded? ==> !Admits(None, isns, written, emitted[k])
    {
      hide *;
      assert written + emitted[..0] == written;
      k := 0;
      while k < |emitted|
        invariant k <= |emitted|
        invariant Valid() && written == old(written) + emitted[..k]
        invariant fresh(order.repr - old(order.repr))
      {
        step := EmitRecord(emitted[k]);
        assert old(written) + emitted[..k + 1] == old(written) + emitted[..k] + [emitted[k]];
        if !step.Emitted? {
          return;
        }
        k := k + 1;
      }
      step := Emitted;
      WhatHolds();
    }

    lemma OrderedViews(pids: seq<u16>)
      requires |pids| <= 2 && (forall k :: 0 <= k < |pids| ==> pids[k] in pending)
      requires |pids| == 2 ==> pids[0] < pids[1]
      ensures FromStart(Views(pids)) && (|pids| == 2 ==> Views(pids)[0].pid < Views(pids)[1].pid)
    {
    }
  }

  datatype EmitResult = Emitted | Misplaced | Precluded

  lemma FlushSaysSo(result: FlushResult, isns: Isns, views: seq<View>, before: seq<Record>, written: seq<Record>,
                    k: nat, step: EmitResult)
    requires FromStart(views) && k <= |LinearOf(views).emitted| && written == before + LinearOf(views).emitted[..k]
    requires step.Emitted? <==> k == |LinearOf(views).emitted|
    requires match step
      case Misplaced => result == PlacementRefused(k) && !GuardAdmits(isns, written, LinearOf(views).emitted[k])
      case Precluded => result == OrderRefused(k) && !Admits(None, isns, written, LinearOf(views).emitted[k])
                        && (before == [] ==> !AllMergeable(isns, views))
      case Emitted => result == if LinearOf(views).outcome == Complete then Flushed else MergeFailed(LinearOf(views).outcome)
    ensures FlushSays(result, isns, views, before, written)
  {
    hide LinearOf, GuardAdmits, Admits, AllMergeable;
    var emitted := LinearOf(views).emitted;
    assert emitted[..|emitted|] == emitted;
  }

  /** The hypotheses of a safe merge; a stream with no peer only has to be one sender's. */
  predicate AllMergeable(isns: Isns, views: seq<View>) {
    if |views| == 2 then Mergeable(isns, views[0]) && Mergeable(isns, views[1])
    else forall k :: 0 <= k < |views| ==> SentBy(views[k].pid, views[k].records)
  }

  /** Written first, what the merge emits from such streams always passes the order check. */
  lemma AdmitsWellBehaved(isns: Isns, views: seq<View>, k: nat)
    requires FromStart(views) && (|views| == 2 ==> views[0].pid != views[1].pid)
    requires k < |LinearOf(views).emitted| && AllMergeable(isns, views)
    ensures Admits(None, isns, LinearOf(views).emitted[..k], LinearOf(views).emitted[k])
  {
    if |views| == 2 {
      MergeIsSafe(None, isns, views[0], views[1]);
    } else {
      SingleIsAdmitted(isns, views[0], k);
    }
  }

  /** One sender's stream is held to its own order only, which the merge has checked. */
  lemma SingleIsAdmitted(isns: Isns, v: View, k: nat)
    requires v.Valid() && v.next == 0 && SentBy(v.pid, v.records) && k < |SingleFrom(v).emitted|
    ensures Admits(None, isns, SingleFrom(v).emitted[..k], SingleFrom(v).emitted[k])
  {
    SingleIsPrefix(v);
    var emitted := SingleFrom(v).emitted;
    assert emitted[..k] == v.records[..k] && emitted[k] == v.records[k];
    AllSent(v.records[..k], v.pid);
    assert v.records[..0] == [];
    forall i | 0 <= i < k ensures EdgeKept(isns, emitted[..k], i, emitted[k]) {
      assert emitted[..k][i] == v.records[i];
    }
  }

  lemma {:induction false} AllSent(order: seq<Record>, pid: u16)
    requires SentBy(pid, order)
    ensures Sent(order, pid) == order
  {
    if order != [] {
      AllSent(order[..|order| - 1], pid);
    }
  }

  /** One side of an honest capture passes the placement guard wherever it is stored. */
  lemma CapturePassesGuard(s: Session, run: seq<Event>, fromA: bool, at: seq<nat>, v: View, peerOrigin: int,
                           isns: Isns, stored: seq<Record>, i: nat)
    requires Honest(s, run) && CaptureOf(s, run, fromA, at, v, peerOrigin) && v.isn == IsnOf(isns, v.pid)
    requires i < |at| && Sent(stored, v.pid) == v.records[..i]
    ensures GuardAdmits(isns, stored, v.records[i])
  {
    hide PlacerAfter, Place, Wrap, SendFrontier, PositionAfter, Unwrapping.NearbySteps, Unwrapping.NearbyAcks, Sent, TrueOrigin;
    assert HonestStep(s, run, at[i]);
    if v.pid in isns {
      CaptureIsPlaced(s, run, fromA, at, v, peerOrigin, i);
      hide CaptureOf, Captures;
      assert DeclaredWalk(isns[v.pid], v.records[..i]) == PlacerAfter(v.isn, v.records[..i]);
    }
  }

  /**
   * From an honest capture of a two-party run, nothing is refused: the merge completes, and
   * every record it emits passes the placement guard and the stored-order check.
   */
  lemma HonestFlushSucceeds(isns: Isns, s: Session, run: seq<Event>,
                            ata: seq<nat>, a: View, atb: seq<nat>, b: View)
    requires Honest(s, run) && Captured(s, run, ata, a, atb, b)
    requires a.isn == IsnOf(isns, a.pid) && b.isn == IsnOf(isns, b.pid)
    ensures MergeOf(a, b).outcome == Complete && Mergeable(isns, a) && Mergeable(isns, b)
    ensures forall k :: 0 <= k < |MergeOf(a, b).emitted| ==>
        GuardAdmits(isns, MergeOf(a, b).emitted[..k], MergeOf(a, b).emitted[k])
  {
    HonestCaptureMerges(None, isns, s, run, ata, a, atb, b);
    var originA, originB := TrueOrigin(s, run, true, ata, a.isn), TrueOrigin(s, run, false, atb, b.isn);
    CaptureIsMergeable(s, run, true, ata, a, originB);
    CaptureIsMergeable(s, run, false, atb, b, originA);
    hide GuardAdmits, MergeFrom, WellBehaved, CausalOrder;
    var order := MergeOf(a, b).emitted;
    forall k | 0 <= k < |order| ensures GuardAdmits(isns, order[..k], order[k]) {
      NextOfItsStream(order, k);
      var i := |Sent(order[..k], order[k].senderPid)|;
      if order[k].senderPid == a.pid {
        CapturePassesGuard(s, run, true, ata, a, originB, isns, order[..k], i);
      } else {
        CapturePassesGuard(s, run, false, atb, b, originA, isns, order[..k], i);
      }
    }
  }
}
