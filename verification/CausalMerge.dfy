/**
 * The streaming merge of a two-participant session into causal order.
 *
 * A `View` is a stream together with how far it has been read; `MergeFrom` says what
 * the merge does from two views. `Frontier` and `Merge` are the incremental form.
 */
module CausalMerge {
  import opened Prelude
  import opened Blocks
  import Serial
  import opened Placement
  import opened CausalRule

  // ----- Specification -------------------------------------------------------

  /** The highest end of the stored records, or 0. */
  function ReachedAfter(isn: Option<u32>, stored: seq<Record>): (high: int)
    ensures high >= 0
  {
    if stored == [] then 0
    else
      var n := |stored| - 1;
      var before, end := ReachedAfter(isn, stored[..n]), EndAt(isn, stored, n);
      if end.None? then before else Max(before, end.value)
  }

  /** One participant's stream; `records[next]` is its head, and -1 is before the first load. */
  datatype View = View(pid: u16, isn: Option<u32>, records: seq<Record>, next: int)
  {
    predicate Valid() {
      -1 <= next <= |records|
    }

    predicate HasHead() {
      0 <= next < |records|
    }

    function Emitted(): seq<Record>
      requires Valid()
    {
      records[..Max(next, 0)]
    }

    function Loaded(): seq<Record>
      requires Valid()
    {
      records[..Min(next + 1, |records|)]
    }

    function HeadOffset(): Option<int> {
      if HasHead() then OffsetAt(isn, records, next) else None
    }

    function HeadEnd(): Option<int> {
      if HasHead() then EndAt(isn, records, next) else None
    }

    /** The head's ack, relative to the stream's first one. */
    function HeadAck(): (ack: Option<int>)
      requires Valid()
      ensures ack.Some? ==> AckAfter(Loaded()).Acked?
    {
      if HasHead() && records[next].ack.Some?
      then AckSnoc(records[..next], records[next]);
           assert Loaded() == records[..next] + [records[next]];
           Some(AckAfter(Loaded()).position)
      else None
    }

    function Origin(): Option<u32>
      requires Valid()
    {
      OriginOf(PlacerAfter(isn, Loaded()))
    }

    function Reached(): int
      requires Valid()
    {
      ReachedAfter(isn, Emitted())
    }

    /** The least end that the head or any record behind it could have. */
    function LowestEnd(): int
      requires Valid()
    {
      if HeadEnd().Some? then HeadEnd().value
      else if HeadOffset().Some? then Max(Reached(), HeadOffset().value + 1)
      else Reached()
    }

    function Advanced(): View {
      View(pid, isn, records, next + 1)
    }

    /** Loading the head did not break the stream's own order. */
    predicate InOrder()
      requires Valid()
    {
      HasHead() ==> FollowsInStream(records[..next], records[next])
    }
  }

  predicate PairReady(f: View, peer: View)
    requires f.Valid() && peer.Valid()
  {
    && f.HasHead()
    && (f.HeadAck().Some? && peer.HasHead() && peer.Origin().Some? ==>
          Serial.SerialDelta(AckAfter(f.Loaded()).first, peer.Origin().value) + f.HeadAck().value < peer.LowestEnd())
  }

  /** The tie-break between concurrent heads: by (timestamp, pid). */
  predicate KeyLess(f: View, g: View)
    requires f.HasHead() && g.HasHead()
  {
    var x, y := f.records[f.next].timestamp, g.records[g.next].timestamp;
    x < y || (x == y && f.pid < g.pid)
  }

  predicate Picks(f: View, g: View)
    requires f.Valid() && g.Valid()
  {
    PairReady(f, g) && (PairReady(g, f) ==> KeyLess(f, g))
  }

  datatype Outcome = Complete | Stalled | OutOfOrder

  /** What was emitted, how the merge ended, and where each stream stood then. */
  datatype Merged = Merged(emitted: seq<Record>, outcome: Outcome, left: View, right: View)

  function Prepend(r: Record, m: Merged): Merged {
    m.(emitted := [r] + m.emitted)
  }

  function MergeFrom(f: View, g: View): (m: Merged)
    requires f.Valid() && g.Valid() && f.next >= 0 && g.next >= 0
    ensures m.left.Valid() && m.right.Valid() && m.left.next >= 0 && m.right.next >= 0
    ensures m.left == f.(next := m.left.next) && m.right == g.(next := m.right.next)
    decreases |f.records| - f.next + |g.records| - g.next
  {
    if !PairReady(f, g) && !PairReady(g, f) then
      Merged([], if f.HasHead() || g.HasHead() then Stalled else Complete, f, g)
    else if Picks(f, g) then
      if f.Advanced().InOrder() then Prepend(f.records[f.next], MergeFrom(f.Advanced(), g))
      else Merged([], OutOfOrder, f, g)
    else
      if g.Advanced().InOrder() then Prepend(g.records[g.next], MergeFrom(f, g.Advanced()))
      else Merged([], OutOfOrder, f, g)
  }

  /** The merge of two whole streams. */
  function MergeOf(a: View, b: View): Merged
    requires a.next == b.next == 0
  {
    MergeFrom(a, b)
  }

  // ----- The incremental form -------------------------------------------------

  /** What advancing a view does to everything that is read from it. */
  lemma LoadedSnoc(v: View)
    requires v.Valid() && v.next < |v.records|
    ensures var w := v.Advanced();
            && w.Valid()
            && w.Emitted() == v.Loaded()
            && w.Loaded() == (if w.HasHead() then v.Loaded() + [v.records[w.next]] else v.Loaded())
            && w.Reached() == (if v.HeadEnd().Some? then Max(v.Reached(), v.HeadEnd().value) else v.Reached())
            && (!w.HasHead() ==> w.HeadOffset() == w.HeadEnd() == w.HeadAck() == None)
  {
    var w := v.Advanced();
    if w.HasHead() {
      assert v.records[..w.next + 1] == v.records[..w.next] + [v.records[w.next]];
    }
    if v.HasHead() {
      assert v.Loaded()[..v.next] == v.Emitted();
      assert v.Loaded()[v.next] == v.records[v.next];
    }
  }

  lemma NextHead(v: View)
    requires v.Valid() && v.next + 1 < |v.records|
    ensures var w, r := v.Advanced(), v.records[v.next + 1];
            var st := PlacerAfter(v.isn, v.Loaded());
            && w.InOrder() == FollowsInStream(v.Loaded(), r)
            && w.HeadOffset() == Place(st, r) && w.HeadEnd() == SequenceEnd(r, Place(st, r))
            && PlacerAfter(w.isn, w.Loaded()) == PlaceStep(st, r)
            && LastSeq(w.Loaded()) == (if r.seqStart.Some? then r.seqStart else LastSeq(v.Loaded()))
    ensures var w, r := v.Advanced(), v.records[v.next + 1];
            && AckAfter(w.Loaded()) == (if r.ack.Some? then AckStep(AckAfter(v.Loaded()), r.ack.value) else AckAfter(v.Loaded()))
            && w.HeadAck() == (if r.ack.Some? then Some(AckAfter(w.Loaded()).position) else None)
  {
    LoadedSnoc(v);
    var r := v.records[v.next + 1];
    Snoc(v.Loaded(), r);
    PlacerSnoc(v.isn, v.Loaded(), r);
    AckSnoc(v.Loaded(), r);
  }

  /** One participant's place in the merge: the record loaded and not yet emitted. */
  class Frontier {
    const pid: u16
    const placer: StreamPlacer
    const acks: AckWalk
    var stream: seq<Record>
    var head: Option<Record>
    var lastSeq: Option<u32>
    var headOffset: Option<int>
    var headEnd: Option<int>
    var headAck: Option<int>
    var reached: int

    /** The walks have seen everything `v` has loaded, and `stream` holds the rest. */
    ghost predicate WalksAt(v: View)
      reads `stream, `lastSeq, placer, acks
    {
      && v.Valid() && v.pid == pid
      && stream == v.records[Min(v.next + 1, |v.records|)..]
      && lastSeq == LastSeq(v.Loaded())
      && placer.State() == PlacerAfter(v.isn, v.Loaded())
      && acks.State() == AckAfter(v.Loaded())
    }

    ghost predicate HeadAt(v: View)
      requires v.Valid()
      reads `head, `headOffset, `headEnd, `headAck
    {
      && head == (if v.HasHead() then Some(v.records[v.next]) else None)
      && headOffset == v.HeadOffset()
      && headEnd == v.HeadEnd()
      && headAck == v.HeadAck()
    }

    /** Every field agrees with the view `v`. */
    ghost predicate At(v: View)
      reads this, placer, acks
    {
      WalksAt(v) && HeadAt(v) && reached == v.Reached()
    }

    constructor (pid: u16, stream: seq<Record>, isn: Option<u32>)
      ensures At(View(pid, isn, stream, -1))
      ensures fresh(placer) && fresh(acks)
    {
      this.pid := pid;
      this.stream := stream;
      placer := new StreamPlacer(pid, isn);
      acks := new AckWalk(pid);
      head, lastSeq, headOffset, headEnd, headAck := None, None, None, None, None;
      reached := 0;
    }

    /** Load the next record, holding the stream to its own order. */
    method Advance(ghost v: View) returns (ok: bool)
      requires At(v) && v.next < |v.records|
      modifies this, placer, acks
      ensures ok <==> v.Advanced().InOrder()
      ensures ok ==> At(v.Advanced())
    {
      hide *;
      Unpack(v);
      Retire();
      if stream == [] {
        Exhausted(v);
        return true;
      }
      ok := Load(v);
      if ok {
        Pack(v.Advanced());
      }
    }

    /** Count the head's end and let go of it. */
    method Retire()
      modifies `reached, `head, `headOffset, `headEnd, `headAck
      ensures reached == if old(headEnd).Some? then Max(old(reached), old(headEnd).value) else old(reached)
      ensures head == None && headOffset == headEnd == headAck == None
    {
      if headEnd.Some? {
        reached := Max(reached, headEnd.value);
      }
      head, headOffset, headEnd, headAck := None, None, None, None;
    }

    /** What advancing needs to know of the view left behind. */
    lemma Unpack(v: View)
      requires At(v) && v.next < |v.records|
      ensures WalksAt(v) && v.Valid() && v.Advanced().Valid()
      ensures stream == [] <==> v.next + 1 == |v.records|
      ensures v.Advanced().Reached() == if headEnd.Some? then Max(reached, headEnd.value) else reached
    {
      LoadedSnoc(v);
    }

    lemma Pack(v: View)
      requires WalksAt(v) && v.Valid() && HeadAt(v) && reached == v.Reached()
      ensures At(v)
    {
    }

    /** With the stream used up there is no head, and nothing more to walk. */
    lemma Exhausted(v: View)
      requires WalksAt(v) && v.Valid() && v.next + 1 == |v.records| && v.Advanced().Valid()
      requires head == None && headOffset == headEnd == headAck == None
      requires reached == v.Advanced().Reached()
      ensures v.Advanced().InOrder() && At(v.Advanced())
    {
      LoadedSnoc(v);
    }

    /** Take the next record off the stream and walk it. */
    method Load(ghost v: View) returns (ok: bool)
      requires WalksAt(v) && v.next + 1 < |v.records|
      requires head == None && headOffset == headEnd == headAck == None
      modifies this, placer, acks
      ensures reached == old(reached)
      ensures ok <==> v.Advanced().InOrder()
      ensures ok ==> WalksAt(v.Advanced()) && HeadAt(v.Advanced())
    {
      NextHead(v);
      hide PlacerAfter, AckAfter, LastSeq, Place, PlaceStep, AckStep, SequenceEnd, Serial.SeqLeq;
      hide View.HeadOffset, View.HeadEnd, View.HeadAck, View.Loaded;
      var record := stream[0];
      head, stream := Some(record), stream[1..];
      if record.seqStart.Some? {
        if lastSeq.Some? && !Serial.SeqLeq(lastSeq.value, record.seqStart.value) {
          return false;
        }
        lastSeq := record.seqStart;
      }
      headOffset := placer.PlaceRecord(record);
      headEnd := SequenceEnd(record, headOffset);
      if record.ack.Some? {
        var relative := acks.Observe(record.ack.value);
        headAck := Some(relative);
      }
      ok := true;
    }
  }

  /** Whether `f`'s head may be emitted before anything more of `peer`. */
  method PairReadyNow(f: Frontier, peer: Frontier, ghost v: View, ghost w: View) returns (ready: bool)
    requires f.At(v) && peer.At(w)
    ensures ready == PairReady(v, w)
    ensures ready ==> v.HasHead()
  {
    if f.head.None? {
      return false;
    }
    if f.headAck.None? {
      return true;
    }
    if peer.head.None? || peer.placer.origin.None? {
      return true;
    }
    var acked := f.acks.Position(f.headAck.value, peer.placer.origin.value);
    var peerEnd;
    if peer.headEnd.Some? {
      peerEnd := peer.headEnd.value;
    } else if peer.headOffset.Some? {
      peerEnd := Max(peer.reached, peer.headOffset.value + 1);
    } else {
      peerEnd := peer.reached;
    }
    ready := acked < peerEnd;
  }

  /** Having emitted `emitted` and reached `f` and `g` is on the way to `whole`. */
  predicate OnTheWay(whole: Merged, emitted: seq<Record>, f: View, g: View) {
    && f.Valid() && g.Valid() && f.next >= 0 && g.next >= 0
    && whole.emitted == emitted + MergeFrom(f, g).emitted
    && whole.outcome == MergeFrom(f, g).outcome
  }

  lemma StartOnTheWay(a: View, b: View)
    requires a.next == b.next == 0
    ensures OnTheWay(MergeOf(a, b), [], a, b) && a.Valid() && b.Valid()
  {
    hide MergeFrom;
  }

  lemma StepOnTheWay(whole: Merged, emitted: seq<Record>, f: View, g: View)
    requires OnTheWay(whole, emitted, f, g) && (PairReady(f, g) || PairReady(g, f))
    ensures Picks(f, g) ==> f.HasHead()
    ensures !Picks(f, g) ==> g.HasHead()
    ensures Picks(f, g) && f.Advanced().InOrder() ==>
        OnTheWay(whole, emitted + [f.records[f.next]], f.Advanced(), g)
    ensures !Picks(f, g) && g.Advanced().InOrder() ==>
        OnTheWay(whole, emitted + [g.records[g.next]], f, g.Advanced())
    ensures Picks(f, g) && !f.Advanced().InOrder() ==> whole.emitted == emitted && whole.outcome == OutOfOrder
    ensures !Picks(f, g) && !g.Advanced().InOrder() ==> whole.emitted == emitted && whole.outcome == OutOfOrder
  {
    hide View.InOrder;
    if Picks(f, g) && f.Advanced().InOrder() {
      var rest := MergeFrom(f.Advanced(), g).emitted;
      assert emitted + ([f.records[f.next]] + rest) == (emitted + [f.records[f.next]]) + rest;
    }
    if !Picks(f, g) && g.Advanced().InOrder() {
      var rest := MergeFrom(f, g.Advanced()).emitted;
      assert emitted + ([g.records[g.next]] + rest) == (emitted + [g.records[g.next]]) + rest;
    }
  }

  /** The pick is the earlier ready head; a tie goes to the lower participant id. */
  lemma EarliestFirst(f: View, g: View)
    requires f.Valid() && g.Valid() && f.pid < g.pid
    ensures PairReady(f, g) ==> f.HasHead() && f.next < |f.records|
    ensures PairReady(g, f) ==> g.HasHead() && g.next < |g.records|
    ensures Picks(f, g) <==>
        && PairReady(f, g)
        && (PairReady(g, f) ==> f.records[f.next].timestamp <= g.records[g.next].timestamp)
  {
  }

  lemma StuckOnTheWay(whole: Merged, emitted: seq<Record>, f: View, g: View)
    requires OnTheWay(whole, emitted, f, g) && !PairReady(f, g) && !PairReady(g, f)
    ensures whole.emitted == emitted
    ensures whole.outcome == if f.HasHead() || g.HasHead() then Stalled else Complete
  {
    hide PairReady;
  }

  lemma HeadOf(f: Frontier, v: View)
    requires f.At(v)
    ensures v.Valid() && f.pid == v.pid && v.next <= |v.records|
    ensures v.HasHead() ==> v.next < |v.records| && v.Advanced() == v.(next := v.next + 1) && v.Advanced().Valid()
    ensures f.head == if v.HasHead() then Some(v.records[v.next]) else None
  {
  }

  /** Merge two streams, keyed by ascending participant id. */
  method Merge(a: View, b: View) returns (emitted: seq<Record>, outcome: Outcome)
    requires a.next == b.next == 0 && a.pid < b.pid
    ensures emitted == MergeOf(a, b).emitted && outcome == MergeOf(a, b).outcome
  {
    hide *;
    StartOnTheWay(a, b);
    var first := new Frontier(a.pid, a.records, a.isn);
    var second := new Frontier(b.pid, b.records, b.isn);
    ghost var f, g := a.(next := -1), b.(next := -1);
    FirstLoads(a);
    FirstLoads(b);
    var primed := first.Advance(f);
    primed := second.Advance(g);
    f, g := a, b;
    emitted := [];
    while true
      invariant first.At(f) && second.At(g)
      invariant f.pid < g.pid && f.Valid() && g.Valid()
      invariant OnTheWay(MergeOf(a, b), emitted, f, g)
      invariant fresh({first, second, first.placer, first.acks, second.placer, second.acks})
      invariant {first, first.placer, first.acks} !! {second, second.placer, second.acks}
      decreases |f.records| - f.next + |g.records| - g.next
    {
      HeadOf(first, f);
      HeadOf(second, g);
      var readyA := PairReadyNow(first, second, f, g);
      var readyB := PairReadyNow(second, first, g, f);
      if !readyA && !readyB {
        StuckOnTheWay(MergeOf(a, b), emitted, f, g);
        outcome := if first.head.Some? || second.head.Some? then Stalled else Complete;
        return;
      }
      StepOnTheWay(MergeOf(a, b), emitted, f, g);
      EarliestFirst(f, g);
      if readyA && (!readyB || first.head.value.timestamp <= second.head.value.timestamp) {
        var record := first.head.value;
        var ok := first.Advance(f);
        if !ok {
          return emitted, OutOfOrder;
        }
        emitted, f := emitted + [record], f.Advanced();
      } else {
        var record := second.head.value;
        var ok := second.Advance(g);
        if !ok {
          return emitted, OutOfOrder;
        }
        emitted, g := emitted + [record], g.Advanced();
      }
    }
  }

  lemma FirstLoads(v: View)
    requires v.next == 0
    ensures v.InOrder() && v.(next := -1).Advanced() == v
  {
  }

  // ----- One stream on its own -----------------------------------------------------

  datatype Linear = Linear(emitted: seq<Record>, outcome: Outcome)

  /** A stream with no peer is emitted as stored, up to where it breaks its own order. */
  function SingleFrom(v: View): Linear
    requires v.Valid() && v.next >= 0
    decreases |v.records| - v.next
  {
    if !v.HasHead() then Linear([], Complete)
    else if !v.Advanced().InOrder() then Linear([], OutOfOrder)
    else
      var rest := SingleFrom(v.Advanced());
      Linear([v.records[v.next]] + rest.emitted, rest.outcome)
  }

  /** The merge of the streams of a session with at most two participants. */
  function LinearOf(views: seq<View>): Linear
    requires |views| <= 2 && forall k :: 0 <= k < |views| ==> views[k].next == 0
  {
    if |views| == 0 then Linear([], Complete)
    else if |views| == 1 then SingleFrom(views[0])
    else Linear(MergeOf(views[0], views[1]).emitted, MergeOf(views[0], views[1]).outcome)
  }

  lemma NextInOrder(v: View)
    requires v.Valid() && v.HasHead()
    ensures v.Advanced().InOrder()
       <==> (v.next + 1 < |v.records| ==> FollowsInStream(v.records[..v.next + 1], v.records[v.next + 1]))
  {
  }

  /** What one stream emits is a prefix of it in its own order: all of it iff it keeps that order. */
  lemma {:induction false} SingleIsPrefix(v: View)
    requires v.Valid() && v.next >= 0
    ensures var m := SingleFrom(v);
      && |m.emitted| <= |v.records| - v.next && m.emitted == v.records[v.next..v.next + |m.emitted|]
      && (m.outcome == Complete <==> |m.emitted| == |v.records| - v.next)
      && (m.outcome == Complete <==>
            forall k :: v.next < k < |v.records| ==> FollowsInStream(v.records[..k], v.records[k]))
      && (forall k :: v.next < k < v.next + |m.emitted| ==> FollowsInStream(v.records[..k], v.records[k]))
    decreases |v.records| - v.next
  {
    hide FollowsInStream, View.InOrder, SingleFrom;
    SingleStep(v);
    if v.HasHead() {
      NextInOrder(v);
      if v.Advanced().InOrder() {
        SingleIsPrefix(v.Advanced());
        var rest := SingleFrom(v.Advanced()).emitted;
        assert [v.records[v.next]] + rest == v.records[v.next..v.next + 1 + |rest|];
      }
    }
  }

  lemma SingleStep(v: View)
    requires v.Valid() && v.next >= 0
    ensures !v.HasHead() ==> SingleFrom(v) == Linear([], Complete)
    ensures v.HasHead() && !v.Advanced().InOrder() ==> SingleFrom(v) == Linear([], OutOfOrder)
    ensures v.HasHead() && v.Advanced().InOrder() ==>
      var rest := SingleFrom(v.Advanced());
      SingleFrom(v) == Linear([v.records[v.next]] + rest.emitted, rest.outcome)
  {
    hide View.InOrder;
  }

  /** The merge loop with a single frontier. */
  method MergeSingle(a: View) returns (emitted: seq<Record>, outcome: Outcome)
    requires a.next == 0
    ensures Linear(emitted, outcome) == SingleFrom(a)
  {
    hide *;
    var frontier := new Frontier(a.pid, a.records, a.isn);
    ghost var f := a.(next := -1);
    FirstLoads(a);
    var primed := frontier.Advance(f);
    f := a;
    HeadOf(frontier, f);
    emitted := [];
    assert emitted + SingleFrom(f).emitted == SingleFrom(f).emitted;
    while frontier.head.Some?
      invariant frontier.At(f) && f.Valid() && f.next >= 0
      invariant fresh({frontier, frontier.placer, frontier.acks})
      invariant SingleFrom(a) == Linear(emitted + SingleFrom(f).emitted, SingleFrom(f).outcome)
      decreases |f.records| - f.next
    {
      HeadOf(frontier, f);
      SingleStep(f);
      var record := frontier.head.value;
      var ok := frontier.Advance(f);
      if !ok {
        assert emitted + [] == emitted;
        return emitted, OutOfOrder;
      }
      assert emitted + ([record] + SingleFrom(f.Advanced()).emitted) == (emitted + [record]) + SingleFrom(f.Advanced()).emitted;
      emitted, f := emitted + [record], f.Advanced();
      HeadOf(frontier, f);
    }
    HeadOf(frontier, f);
    SingleStep(f);
    assert emitted + [] == emitted;
    outcome := Complete;
  }
}
