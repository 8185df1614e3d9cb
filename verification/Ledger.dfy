/** What a stage has said of its input so far, and what it still owes. */
module Ledgers {
  import opened Prelude
  import opened Blocks
  import opened Intervals
  import Reassembly
  import opened StreamViews
  import opened Fills

  /** An input participant stream, in the input's own id namespace. */
  datatype Key = Key(sessionId: u64, pid: u16)

  /** What is stored for one input participant. */
  datatype StoredStream = StoredStream(isn: Option<u32>, blocks: seq<StreamBlock>)
  {
    function Extent(): nat {
      ExtentOf(isn, blocks)
    }

    function Fins(): seq<int> {
      FinsOf(isn, blocks)
    }

    predicate LostAt(x: int) {
      Lost(isn, blocks, x)
    }
  }

  type Inputs = map<Key, StoredStream>

  /** An input stream being read, and the view it is read through. */
  datatype InputStream = InputStream(key: Key, view: StreamView)

  /** The view shows the stream the input file stores under this key. */
  predicate Shows(inputs: Inputs, stream: InputStream) {
    && stream.key in inputs
    && stream.view.isn == inputs[stream.key].isn && stream.view.blocks == inputs[stream.key].blocks
  }

  predicate NamesOffset(sp: Span, source: u16, key: Key, x: int) {
    && sp.sourceId == source && sp.sessionId == key.sessionId && sp.participantId == key.pid
    && sp.offStart <= x < sp.offEnd
  }

  /** Some span cites offset `x` of the stream. */
  ghost predicate CitedBy(spans: seq<Span>, source: u16, key: Key, x: int) {
    exists sp :: sp in spans && NamesOffset(sp, source, key, x)
  }

  predicate MarksOffset(u: Undecoded, source: u16, key: Key, x: int) {
    && u.sourceId == source && u.sessionId == key.sessionId && u.participantId == key.pid
    && u.offStart <= x < u.offEnd
  }

  /** Some Undecoded block names offset `x` of the stream. */
  ghost predicate MarkedBy(blocks: seq<Undecoded>, source: u16, key: Key, x: int) {
    exists u :: u in blocks && MarksOffset(u, source, key, x)
  }

  lemma CitedConcat(a: seq<Span>, b: seq<Span>, source: u16, key: Key, x: int)
    ensures CitedBy(a + b, source, key, x) <==> CitedBy(a, source, key, x) || CitedBy(b, source, key, x)
  {
    if CitedBy(a, source, key, x) {
      var sp :| sp in a && NamesOffset(sp, source, key, x);
      assert sp in a + b;
    }
    if CitedBy(b, source, key, x) {
      var sp :| sp in b && NamesOffset(sp, source, key, x);
      assert sp in a + b;
    }
  }

  lemma CitedOne(sp: Span, source: u16, key: Key, x: int)
    ensures CitedBy([sp], source, key, x) <==> NamesOffset(sp, source, key, x)
  {
    assert sp in [sp];
  }

  lemma MarkedConcat(a: seq<Undecoded>, b: seq<Undecoded>, source: u16, key: Key, x: int)
    ensures MarkedBy(a + b, source, key, x) <==> MarkedBy(a, source, key, x) || MarkedBy(b, source, key, x)
  {
    if MarkedBy(a, source, key, x) {
      var u :| u in a && MarksOffset(u, source, key, x);
      assert u in a + b;
    }
    if MarkedBy(b, source, key, x) {
      var u :| u in b && MarksOffset(u, source, key, x);
      assert u in a + b;
    }
  }

  lemma MarkedOne(u: Undecoded, source: u16, key: Key, x: int)
    ensures MarkedBy([u], source, key, x) <==> MarksOffset(u, source, key, x)
  {
    assert u in [u];
  }

  /** A coalesced list per input stream, denoting exactly what `said` says of it. */
  ghost predicate Denotes(lists: map<Key, seq<Range>>, key: Key, x: int, said: bool) {
    Covers(ListOf(lists, key), x) <==> said
  }

  function ListOf(lists: map<Key, seq<Range>>, key: Key): seq<Range> {
    if key in lists then lists[key] else []
  }

  ghost predicate AllCoalesced(lists: map<Key, seq<Range>>) {
    forall key :: Coalesced(ListOf(lists, key))
  }

  /** Merge a range into one stream's list, in place. */
  method AddTo(lists: map<Key, seq<Range>>, key: Key, start: int, end: int) returns (out: map<Key, seq<Range>>)
    requires AllCoalesced(lists)
    ensures AllCoalesced(out)
    ensures forall k :: k != key ==> ListOf(out, k) == ListOf(lists, k)
    ensures forall x :: Covers(ListOf(out, key), x) <==> Covers(ListOf(lists, key), x) || start <= x < end
  {
    var list := new RangeList();
    list.ranges := ListOf(lists, key);
    assert Coalesced(ListOf(lists, key));
    hide Coalesced, Covers;
    list.Add(start, end);
    out := lists[key := list.ranges];
    forall k ensures Coalesced(ListOf(out, k)) && (k != key ==> ListOf(out, k) == ListOf(lists, k)) {
      assert Coalesced(ListOf(lists, k));
    }
    assert ListOf(out, key) == list.ranges;
  }

  /** The Undecoded blocks auto-fill writes for one stream. */
  function FillBlocks(source: u16, key: Key, fills: seq<Fill>): (blocks: seq<Undecoded>)
    ensures |blocks| == |fills|
    ensures forall k :: 0 <= k < |fills| ==> blocks[k] == FillBlock(source, key, fills[k])
  {
    seq(|fills|, k requires 0 <= k < |fills| => FillBlock(source, key, fills[k]))
  }

  function FillBlock(source: u16, key: Key, f: Fill): Undecoded {
    Undecoded(source, key.sessionId, key.pid, f.range.start, f.range.end, Some(f.reason), None)
  }

  lemma FillBlocksMark(source: u16, key: Key, fills: seq<Fill>, other: Key, x: int)
    ensures MarkedBy(FillBlocks(source, key, fills), source, other, x) <==> other == key && Filled(fills, x)
  {
    var blocks := FillBlocks(source, key, fills);
    if MarkedBy(blocks, source, other, x) {
      var u :| u in blocks && MarksOffset(u, source, other, x);
      var k :| 0 <= k < |blocks| && blocks[k] == u;
      assert fills[k] in fills && fills[k].range.Has(x);
    }
    if other == key && Filled(fills, x) {
      var f :| f in fills && f.range.Has(x);
      var k :| 0 <= k < |fills| && fills[k] == f;
      assert blocks[k] in blocks && MarksOffset(blocks[k], source, other, x);
    }
  }

  /** A well-labelled fill of the stream: `gap` inside its holes, `skipped` outside them. */
  ghost predicate FillOf(inputs: Inputs, source: u16, u: Undecoded) {
    var key := Key(u.sessionId, u.participantId);
    && u.sourceId == source && key in inputs && u.offStart < u.offEnd
    && (u.reason == Some(GAP) || u.reason == Some(SKIPPED)) && u.reasonClass.None?
    && (forall x :: u.offStart <= x < u.offEnd ==> (inputs[key].LostAt(x) <==> u.reason == Some(GAP)))
  }

  /** Two blocks of one stream, the first wholly before the second. */
  predicate InTurn(u: Undecoded, v: Undecoded) {
    u.sessionId == v.sessionId && u.participantId == v.participantId ==> u.offEnd <= v.offStart
  }

  /** Well-labelled, and pairwise disjoint within each stream. */
  ghost predicate GoodFills(inputs: Inputs, source: u16, blocks: seq<Undecoded>) {
    && (forall k :: 0 <= k < |blocks| ==> FillOf(inputs, source, blocks[k]))
    && (forall k, l :: 0 <= k < l < |blocks| ==> InTurn(blocks[k], blocks[l]))
  }

  lemma FillBlocksGood(inputs: Inputs, source: u16, key: Key, fills: seq<Fill>, gaps: seq<Range>)
    requires key in inputs && forall x :: Covers(gaps, x) <==> inputs[key].LostAt(x)
    requires forall k :: 0 <= k < |fills| ==> Labelled(fills[k], gaps)
    requires forall k, l :: 0 <= k < l < |fills| ==> fills[k].range.end <= fills[l].range.start
    ensures GoodFills(inputs, source, FillBlocks(source, key, fills))
  {
    hide Covers, Lost;
    var blocks := FillBlocks(source, key, fills);
    forall k | 0 <= k < |blocks| ensures FillOf(inputs, source, blocks[k]) {
      var f := fills[k];
      assert Labelled(f, gaps);
      forall x | f.range.start <= x < f.range.end ensures inputs[key].LostAt(x) <==> f.reason == GAP {
        assert f.range.Has(x);
      }
    }
  }

  /** Blocks of another stream never conflict. */
  lemma GoodConcat(inputs: Inputs, source: u16, a: seq<Undecoded>, b: seq<Undecoded>, key: Key)
    requires GoodFills(inputs, source, a) && GoodFills(inputs, source, b)
    requires forall k :: 0 <= k < |a| ==> Key(a[k].sessionId, a[k].participantId) != key
    requires forall k :: 0 <= k < |b| ==> Key(b[k].sessionId, b[k].participantId) == key
    ensures GoodFills(inputs, source, a + b)
  {
    hide FillOf;
    var all := a + b;
    assert forall k :: 0 <= k < |all| ==> all[k] == if k < |a| then a[k] else b[k - |a|];
  }

  /** The file a stage writes: what of it the coverage guarantee speaks of. */
  class OutputFile {
    var records: seq<Record>
    var undecoded: seq<Undecoded>
    var declared: seq<InputExtent>

    constructor ()
      ensures records == [] && undecoded == [] && declared == []
    {
      records, undecoded, declared := [], [], [];
    }
  }

  class Ledger {
    const source: u16
    const inputs: Inputs
    var cited: map<Key, seq<Range>>
    var marked: map<Key, seq<Range>>
    var metrics: map<Key, Reassembly.Measured>
    /** Everything counted so far, in order. */
    ghost var spans: seq<Span>
    ghost var marks: seq<Undecoded>

    ghost predicate Valid()
      reads this
    {
      && AllCoalesced(cited) && AllCoalesced(marked)
      && (forall key, x :: Denotes(cited, key, x, CitedBy(spans, source, key, x)))
      && (forall key, x :: Denotes(marked, key, x, MarkedBy(marks, source, key, x)))
      && (forall key :: key in metrics ==>
            key in inputs && Measures(inputs[key].isn, inputs[key].blocks, metrics[key]))
    }

    constructor (source: u16, inputs: Inputs)
      ensures Valid() && this.source == source && this.inputs == inputs && spans == [] && marks == []
    {
      this.source, this.inputs := source, inputs;
      cited, marked, metrics := map[], map[], map[];
      spans, marks := [], [];
    }

    /** Add to the cited lists those spans that name the stage's own input. */
    method Cite(news: seq<Span>)
      requires Valid()
      modifies this`cited, this`spans
      ensures Valid() && spans == old(spans) + news
    {
      hide Coalesced, Covers, Measures, CitedBy, MarkedBy, AllCoalesced, ListOf;
      assert old(spans) + news[..0] == old(spans);
      for n := 0 to |news|
        invariant Valid() && spans == old(spans) + news[..n]
      {
        var sp := news[n];
        ghost var before := spans;
        CitesMore(before, sp, source);
        assert news[..n + 1] == news[..n] + [sp];
        if sp.sourceId == source && sp.offStart < sp.offEnd {
          cited := AddTo(cited, Key(sp.sessionId, sp.participantId), sp.offStart, sp.offEnd);
        }
        spans := spans + [sp];
      }
      assert news[..|news|] == news;
    }

    /** Count a range of a stream that the block `u`, just written, names. */
    method Mark(key: Key, offStart: int, offEnd: int, ghost u: Undecoded)
      requires Valid()
      requires u.sourceId == source && Key(u.sessionId, u.participantId) == key
      requires u.offStart == offStart && u.offEnd == offEnd
      modifies this`marked, this`marks
      ensures Valid() && marks == old(marks) + [u]
    {
      hide Coalesced, Covers, Measures, CitedBy, MarkedBy, AllCoalesced, ListOf;
      MarksMore(marks, u, source);
      if offStart < offEnd {
        marked := AddTo(marked, key, offStart, offEnd);
      }
      marks := marks + [u];
    }

    /** One input stream's extent, holes and FIN positions, measured once. */
    method MetricsFor(stream: InputStream) returns (m: Reassembly.Measured)
      requires Valid() && stream.view.Valid() && Shows(inputs, stream)
      modifies this`metrics, stream.view
      ensures Valid() && stream.view.Valid()
      ensures Measures(inputs[stream.key].isn, inputs[stream.key].blocks, m)
    {
      hide Measures, Denotes, AllCoalesced, CitedBy, MarkedBy;
      if stream.key !in metrics {
        var measured := MeasureView(stream);
        metrics := metrics[stream.key := measured];
      }
      return metrics[stream.key];
    }

    /** How long one input stream is, from its view. */
    method Extent(stream: InputStream) returns (extent: int)
      requires Valid() && stream.view.Valid() && Shows(inputs, stream)
      modifies this`metrics, stream.view
      ensures Valid() && stream.view.Valid()
      ensures extent == inputs[stream.key].Extent()
    {
      hide Valid, StreamView.Valid;
      var m := MetricsFor(stream);
      return m.extent;
    }

    /** `x` lies in the stream and nothing said so far accounts for it. */
    ghost predicate Owed(key: Key, x: int)
      requires key in inputs
      reads this`spans, this`marks
    {
      && 0 <= x < inputs[key].Extent() && x !in inputs[key].Fins()
      && !CitedBy(spans, source, key, x) && !MarkedBy(marks, source, key, x)
    }

    /** Some offset of the stream is both cited and explicitly marked. */
    ghost predicate Clashes(key: Key)
      reads this`spans, this`marks
    {
      exists x :: CitedBy(spans, source, key, x) && MarkedBy(marks, source, key, x)
    }

    /** The blocks that close one stream, or None if something is both cited and marked. */
    method FillStream(stream: InputStream) returns (blocks: Option<seq<Undecoded>>)
      requires Valid() && stream.view.Valid() && Shows(inputs, stream)
      modifies this`metrics, stream.view
      ensures Valid() && stream.view.Valid()
      ensures blocks.None? <==> Clashes(stream.key)
      ensures blocks.Some? ==> GoodFills(inputs, source, blocks.value)
      ensures blocks.Some? ==> forall k :: 0 <= k < |blocks.value| ==>
        Key(blocks.value[k].sessionId, blocks.value[k].participantId) == stream.key
      ensures blocks.Some? ==> forall x :: MarkedBy(blocks.value, source, stream.key, x) <==> Owed(stream.key, x)
    {
      var key := stream.key;
      var citedHere, markedHere := ListOf(cited, key), ListOf(marked, key);
      ListsDenote(key);
      CoalescedIsSorted(citedHere);
      CoalescedIsSorted(markedHere);
      hide *;
      var clash := Intersections(citedHere, markedHere);
      EmptyIffDisjoint(clash, citedHere, markedHere);
      ClashesIff(key, citedHere, markedHere);
      if clash != [] {
        return None;
      }
      var m := MetricsFor(stream);
      MeasuredParts(stream.key, m);
      var owed := PointRanges(m.fins);
      var covered := Coalesce(citedHere + markedHere + owed);
      CoalescedIsSorted(covered);
      var uncovered := Complement(covered, m.extent);
      var fills := LabelFills(uncovered, m.holes);
      FillBlocksGood(inputs, source, key, fills, m.holes);
      FillBlocksAre(source, key, fills);
      FillsAreOwed(key, citedHere, markedHere, owed, m, uncovered, fills);
      return Some(FillBlocks(source, key, fills));
    }

    lemma ListsDenote(key: Key)
      requires Valid()
      ensures Coalesced(ListOf(cited, key)) && Coalesced(ListOf(marked, key))
      ensures forall x :: Covers(ListOf(cited, key), x) <==> CitedBy(spans, source, key, x)
      ensures forall x :: Covers(ListOf(marked, key), x) <==> MarkedBy(marks, source, key, x)
    {
      hide Coalesced, Covers, Measures, CitedBy, MarkedBy, ListOf;
      forall x
        ensures Covers(ListOf(cited, key), x) <==> CitedBy(spans, source, key, x)
        ensures Covers(ListOf(marked, key), x) <==> MarkedBy(marks, source, key, x)
      {
        assert Denotes(cited, key, x, CitedBy(spans, source, key, x));
        assert Denotes(marked, key, x, MarkedBy(marks, source, key, x));
      }
    }

    lemma ClashesIff(key: Key, citedHere: seq<Range>, markedHere: seq<Range>)
      requires forall x :: Covers(citedHere, x) <==> CitedBy(spans, source, key, x)
      requires forall x :: Covers(markedHere, x) <==> MarkedBy(marks, source, key, x)
      ensures Clashes(key) <==> exists x :: Covers(citedHere, x) && Covers(markedHere, x)
    {
    }

    lemma MeasuredParts(key: Key, m: Reassembly.Measured)
      requires key in inputs && Measures(inputs[key].isn, inputs[key].blocks, m)
      ensures m.extent == inputs[key].Extent() && m.fins == inputs[key].Fins()
      ensures forall x :: Covers(m.holes, x) <==> inputs[key].LostAt(x)
    {
    }

    lemma OwedIff(key: Key, citedHere: seq<Range>, markedHere: seq<Range>, x: int)
      requires key in inputs
      requires Covers(citedHere, x) <==> CitedBy(spans, source, key, x)
      requires Covers(markedHere, x) <==> MarkedBy(marks, source, key, x)
      ensures Owed(key, x) <==>
        && 0 <= x < inputs[key].Extent() && x !in inputs[key].Fins()
        && !Covers(citedHere, x) && !Covers(markedHere, x)
    {
    }

    /** The fills name exactly what is still owed. */
    lemma FillsAreOwed(key: Key, citedHere: seq<Range>, markedHere: seq<Range>, owed: seq<Range>, m: Reassembly.Measured,
                       uncovered: seq<Range>, fills: seq<Fill>)
      requires key in inputs && m.extent == inputs[key].Extent() && m.fins == inputs[key].Fins()
      requires forall x :: Covers(citedHere, x) <==> CitedBy(spans, source, key, x)
      requires forall x :: Covers(markedHere, x) <==> MarkedBy(marks, source, key, x)
      requires owed == PointRanges(m.fins)
      requires forall x :: Covers(uncovered, x) <==> 0 <= x < m.extent && !Covers(citedHere + markedHere + owed, x)
      requires forall x :: Filled(fills, x) <==> Covers(uncovered, x)
      ensures forall x :: MarkedBy(FillBlocks(source, key, fills), source, key, x) <==> Owed(key, x)
    {
      hide *;
      forall x ensures MarkedBy(FillBlocks(source, key, fills), source, key, x) <==> Owed(key, x) {
        FillBlocksMark(source, key, fills, key, x);
        CoversConcat(citedHere + markedHere, owed, x);
        CoversConcat(citedHere, markedHere, x);
        PointsCover(m.fins, x);
        OwedIff(key, citedHere, markedHere, x);
      }
    }

    /** The streams are distinct, and each view shows what the input stores. */
    ghost predicate Reads(streams: seq<InputStream>)
      reads set i | 0 <= i < |streams| :: streams[i].view
    {
      && (forall i :: 0 <= i < |streams| ==> Shows(inputs, streams[i]) && streams[i].view.Valid())
      && (forall i, j :: 0 <= i < j < |streams| ==> streams[i].key != streams[j].key)
    }

    /**
     * Mark every uncovered input offset, gaps included; `ok` is false if some offset is both
     * cited and explicitly marked, and then the streams before the clash are already filled.
     */
    method Autofill(streams: seq<InputStream>, writer: OutputFile) returns (ok: bool, ghost fills: seq<Undecoded>)
      requires Valid() && Reads(streams)
      modifies this`metrics, writer`undecoded, set i | 0 <= i < |streams| :: streams[i].view
      ensures Valid() && Reads(streams)
      ensures ok <==> forall i :: 0 <= i < |streams| ==> !Clashes(streams[i].key)
      ensures writer.undecoded == old(writer.undecoded) + fills
      ensures GoodFills(inputs, source, fills)
      ensures ok ==> forall i, x :: 0 <= i < |streams| ==>
        (MarkedBy(fills, source, streams[i].key, x) <==> Owed(streams[i].key, x))
    {
      hide GoodFills, MarkedBy, Owed, Clashes, Valid, StreamView.Valid, FromSome;
      ok, fills := true, [];
      NoFills(inputs, source);
      assert old(writer.undecoded) + [] == writer.undecoded;
      var n := 0;
      while n < |streams|
        invariant 0 <= n <= |streams|
        invariant Valid() && Reads(streams)
        invariant writer.undecoded == old(writer.undecoded) + fills && GoodFills(inputs, source, fills)
        invariant forall i :: 0 <= i < n ==> !Clashes(streams[i].key)
        invariant forall k :: 0 <= k < |fills| ==> FromSome(streams, n, fills[k])
        invariant forall i, x :: 0 <= i < n ==>
          (MarkedBy(fills, source, streams[i].key, x) <==> Owed(streams[i].key, x))
      {
        assert Shows(inputs, streams[n]);
        var blocks := FillStream(streams[n]);
        if blocks.None? {
          return false, fills;
        }
        NextFills(inputs, source, streams, n, fills, blocks.value);
        writer.undecoded := writer.undecoded + blocks.value;
        fills := fills + blocks.value;
        n := n + 1;
      }
    }
  }

  /** The block is of one of the first `n` streams. */
  predicate FromSome(streams: seq<InputStream>, n: nat, u: Undecoded) {
    exists i :: 0 <= i < n <= |streams| && streams[i].key == Key(u.sessionId, u.participantId)
  }

  /** What one stream's fills change: nothing for the streams before it. */
  lemma NextFills(inputs: Inputs, source: u16, streams: seq<InputStream>, n: nat, fills: seq<Undecoded>,
                  more: seq<Undecoded>)
    requires n < |streams| && GoodFills(inputs, source, fills) && GoodFills(inputs, source, more)
    requires forall i, j :: 0 <= i < j < |streams| ==> streams[i].key != streams[j].key
    requires forall k :: 0 <= k < |fills| ==> FromSome(streams, n, fills[k])
    requires forall k :: 0 <= k < |more| ==> Key(more[k].sessionId, more[k].participantId) == streams[n].key
    ensures GoodFills(inputs, source, fills + more)
    ensures forall k :: 0 <= k < |fills + more| ==> FromSome(streams, n + 1, (fills + more)[k])
    ensures forall i, x :: 0 <= i < n ==>
      (MarkedBy(fills + more, source, streams[i].key, x) <==> MarkedBy(fills, source, streams[i].key, x))
    ensures forall x :: MarkedBy(fills + more, source, streams[n].key, x) <==> MarkedBy(more, source, streams[n].key, x)
  {
    hide GoodFills;
    forall k | 0 <= k < |fills| ensures Key(fills[k].sessionId, fills[k].participantId) != streams[n].key {
      assert FromSome(streams, n, fills[k]);
    }
    GoodConcat(inputs, source, fills, more, streams[n].key);
    forall i, x | 0 <= i < n
      ensures MarkedBy(fills + more, source, streams[i].key, x) <==> MarkedBy(fills, source, streams[i].key, x)
    {
      MarkedConcat(fills, more, source, streams[i].key, x);
    }
    forall x ensures MarkedBy(fills + more, source, streams[n].key, x) <==> MarkedBy(more, source, streams[n].key, x) {
      MarkedConcat(fills, more, source, streams[n].key, x);
    }
    forall k | 0 <= k < |fills + more| ensures FromSome(streams, n + 1, (fills + more)[k]) {
      if k < |fills| {
        assert FromSome(streams, n, fills[k]);
      } else {
        assert streams[n].key == Key(more[k - |fills|].sessionId, more[k - |fills|].participantId);
      }
    }
  }

  lemma NoFills(inputs: Inputs, source: u16)
    ensures GoodFills(inputs, source, [])
  {
  }

  lemma FillBlocksAre(source: u16, key: Key, fills: seq<Fill>)
    ensures forall k :: 0 <= k < |FillBlocks(source, key, fills)| ==>
      Key(FillBlocks(source, key, fills)[k].sessionId, FillBlocks(source, key, fills)[k].participantId) == key
  {
  }

  /** The view's measurement, as a measurement of the stored stream it shows. */
  method MeasureView(stream: InputStream) returns (m: Reassembly.Measured)
    requires stream.view.Valid()
    modifies stream.view
    ensures stream.view.Valid() && Measures(stream.view.isn, stream.view.blocks, m)
  {
    hide Measures;
    m := stream.view.Measurement();
  }

  lemma CitesMore(spans: seq<Span>, sp: Span, source: u16)
    ensures forall key, x :: CitedBy(spans + [sp], source, key, x)
                        <==> CitedBy(spans, source, key, x) || NamesOffset(sp, source, key, x)
  {
    forall key, x
      ensures CitedBy(spans + [sp], source, key, x)
         <==> CitedBy(spans, source, key, x) || NamesOffset(sp, source, key, x)
    {
      CitedConcat(spans, [sp], source, key, x);
      CitedOne(sp, source, key, x);
    }
  }

  lemma MarksMore(blocks: seq<Undecoded>, u: Undecoded, source: u16)
    ensures forall key, x :: MarkedBy(blocks + [u], source, key, x)
                        <==> MarkedBy(blocks, source, key, x) || MarksOffset(u, source, key, x)
  {
    forall key, x
      ensures MarkedBy(blocks + [u], source, key, x)
         <==> MarkedBy(blocks, source, key, x) || MarksOffset(u, source, key, x)
    {
      MarkedConcat(blocks, [u], source, key, x);
      MarkedOne(u, source, key, x);
    }
  }
}
