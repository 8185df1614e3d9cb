/** A sessionization stage: any number of output sessions over one ledger of the input. */
module Stages {
  import opened Prelude
  import opened Blocks
  import OffsetSpace
  import opened StreamViews
  import opened Ledgers
  import opened CoverageCheck

  const UNDECODABLE := "undecodable"

  datatype Refusal = CitesNothing | NoEvidenceOfJoin | SessionEnded | WriterRefused | NotAnInput

  function AllSpans(records: seq<Record>): seq<Span> {
    if records == [] then [] else AllSpans(records[..|records| - 1]) + records[|records| - 1].spans
  }

  /** A record must cite something, and several ranges only with the evidence of its own join. */
  function CheckCites(r: Record): Option<Refusal> {
    if r.spans == [] then Some(CitesNothing)
    else if |r.spans| > 1 && r.seqStart.None? && !r.IsMessage() then Some(NoEvidenceOfJoin)
    else None
  }

  /** The record cites the input, and several ranges of it only as a hinted record or as one message. */
  predicate Stands(r: Record) {
    r.spans != [] && (|r.spans| == 1 || r.seqStart.Some? || r.flags / 0x80 % 2 == 1)
  }

  predicate AllStand(records: seq<Record>) {
    forall i :: 0 <= i < |records| ==> Stands(records[i])
  }

  lemma AllStandSnoc(records: seq<Record>, r: Record)
    requires AllStand(records) && Stands(r)
    ensures AllStand(records + [r])
  {
  }

  /** The declared length is the input stream's own. */
  predicate DeclaresTruly(inputs: Inputs, source: u16, e: InputExtent) {
    var key := Key(e.sessionId, e.participantId);
    e.sourceId == source && key in inputs && e.extent == inputs[key].Extent()
  }

  predicate AllTrue(inputs: Inputs, source: u16, declared: seq<InputExtent>) {
    forall k :: 0 <= k < |declared| ==> DeclaresTruly(inputs, source, declared[k])
  }

  /** What a session declares of one input stream it cited. */
  function DeclarationOf(inputs: Inputs, source: u16, key: Key): InputExtent {
    InputExtent(source, key.sessionId, key.pid, if key in inputs then inputs[key].Extent() else 0)
  }

  function Declarations(inputs: Inputs, source: u16, keys: seq<Key>): (out: seq<InputExtent>)
    ensures |out| == |keys| && forall k :: 0 <= k < |out| ==> out[k] == DeclarationOf(inputs, source, keys[k])
  {
    seq(|keys|, k requires 0 <= k < |keys| => DeclarationOf(inputs, source, keys[k]))
  }

  /** Each of these streams has its extent declared. */
  predicate AllDeclared(inputs: Inputs, source: u16, keys: seq<Key>, declared: seq<InputExtent>) {
    forall key :: key in keys ==> DeclarationOf(inputs, source, key) in declared
  }

  lemma DeclarationsSnoc(inputs: Inputs, source: u16, keys: seq<Key>, n: nat)
    requires n < |keys|
    ensures Declarations(inputs, source, keys[..n + 1])
         == Declarations(inputs, source, keys[..n]) + [DeclarationOf(inputs, source, keys[n])]
  {
    hide DeclarationOf;
  }

  lemma TrueDeclarations(inputs: Inputs, source: u16, keys: seq<Key>, declared: seq<InputExtent>)
    requires forall key :: key in keys ==> key in inputs
    ensures AllTrue(inputs, source, declared) ==> AllTrue(inputs, source, declared + Declarations(inputs, source, keys))
    ensures AllDeclared(inputs, source, keys, declared + Declarations(inputs, source, keys))
  {
    hide StoredStream.Extent;
    var more := Declarations(inputs, source, keys);
    forall key | key in keys ensures DeclarationOf(inputs, source, key) in declared + more {
      var k :| 0 <= k < |keys| && keys[k] == key;
      assert more[k] in more;
    }
    if AllTrue(inputs, source, declared) {
      forall k | 0 <= k < |declared + more| ensures DeclaresTruly(inputs, source, (declared + more)[k]) {
        if k >= |declared| {
          assert (declared + more)[k] == DeclarationOf(inputs, source, keys[k - |declared|]);
          assert keys[k - |declared|] in keys;
        }
      }
    }
  }

  /** One of the spans names this stream of the input. */
  predicate Names(spans: seq<Span>, key: Key) {
    exists i :: 0 <= i < |spans| && Key(spans[i].sessionId, spans[i].participantId) == key
  }

  /** The streams being read, by key. */
  ghost predicate Registered(inputs: Inputs, streams: map<Key, InputStream>) {
    forall key :: key in streams ==> streams[key].key == key && Shows(inputs, streams[key])
  }

  function ViewsOf(streams: map<Key, InputStream>): set<StreamView> {
    set key | key in streams :: streams[key].view
  }

  lemma NamesSnoc(spans: seq<Span>, n: nat)
    requires n < |spans|
    ensures forall key :: Names(spans[..n + 1], key)
                     <==> Names(spans[..n], key) || key == Key(spans[n].sessionId, spans[n].participantId)
  {
    var more, fewer := spans[..n + 1], spans[..n];
    forall key
      ensures Names(more, key) <==> Names(fewer, key) || key == Key(spans[n].sessionId, spans[n].participantId)
    {
      if i :| 0 <= i < |fewer| && Key(fewer[i].sessionId, fewer[i].participantId) == key {
        assert more[i] == fewer[i];
      }
      if i :| 0 <= i < |more| && Key(more[i].sessionId, more[i].participantId) == key {
        assert more[i] == if i < n then fewer[i] else spans[n];
      }
      assert more[n] == spans[n];
    }
  }

  /** One output session. */
  class FlowSession {
    const sessionId: u64
    const streams: map<Key, InputStream>
    const ledger: Ledger
    const writer: OutputFile
    var cited: seq<Key>
    var ended: bool

    constructor (sessionId: u64, streams: map<Key, InputStream>, ledger: Ledger, writer: OutputFile)
      ensures this.sessionId == sessionId && this.streams == streams
      ensures this.ledger == ledger && this.writer == writer
      ensures cited == [] && !ended
    {
      this.sessionId, this.streams := sessionId, streams;
      this.ledger, this.writer := ledger, writer;
      cited, ended := [], false;
    }

    ghost predicate CitesKnown()
      reads this`cited
    {
      forall i :: 0 <= i < |cited| ==> cited[i] in streams
    }

    /** Write one record citing the input; it counts only once the writer has accepted it. */
    method AddRecord(r: Record, accepted: bool) returns (refusal: Option<Refusal>)
      requires ledger.Valid() && CitesKnown()
      modifies this`cited, ledger`cited, ledger`spans, writer`records
      ensures ledger.Valid() && CitesKnown()
      ensures refusal == if CheckCites(r).Some? then CheckCites(r)
                         else if ended then Some(SessionEnded)
                         else if !accepted then Some(WriterRefused) else None
      ensures refusal.None? <==> Stands(r) && !ended && accepted
      ensures refusal == Some(CitesNothing) <==> r.spans == []
      ensures refusal.Some? ==>
        writer.records == old(writer.records) && ledger.spans == old(ledger.spans) && cited == old(cited)
      ensures refusal.None? ==> writer.records == old(writer.records) + [r] && ledger.spans == old(ledger.spans) + r.spans
      ensures refusal.None? ==> forall key :: key in cited <==> key in old(cited) || (key in streams && Names(r.spans, key))
    {
      hide Ledger.Valid;
      refusal := CheckCites(r);
      if refusal.Some? {
        return;
      }
      if ended {
        return Some(SessionEnded);
      }
      if !accepted {
        return Some(WriterRefused);
      }
      writer.records := writer.records + [r];
      ledger.Cite(r.spans);
      for n := 0 to |r.spans|
        invariant ledger.Valid() && CitesKnown()
        invariant writer.records == old(writer.records) + [r] && ledger.spans == old(ledger.spans) + r.spans
        invariant forall key :: key in cited <==> key in old(cited) || (key in streams && Names(r.spans[..n], key))
      {
        NamesSnoc(r.spans, n);
        var key := Key(r.spans[n].sessionId, r.spans[n].participantId);
        if key in streams && key !in cited {
          cited := cited + [key];
        }
      }
      assert r.spans[..|r.spans|] == r.spans;
    }

    /** What the session's end declares, stream by stream. */
    method InputExtents() returns (extents: seq<InputExtent>)
      requires ledger.Valid() && CitesKnown() && Registered(ledger.inputs, streams)
      requires forall view :: view in ViewsOf(streams) ==> view.Valid()
      modifies ledger`metrics, ViewsOf(streams)
      ensures ledger.Valid()
      ensures forall view :: view in ViewsOf(streams) ==> view.Valid()
      ensures extents == Declarations(ledger.inputs, ledger.source, cited)
    {
      hide Ledger.Valid, StreamView.Valid, Declarations, DeclarationOf, Registered, Shows, CitesKnown, StoredStream.Extent;
      extents := [];
      for n := 0 to |cited|
        invariant ledger.Valid() && CitesKnown()
        invariant forall view :: view in ViewsOf(streams) ==> view.Valid()
        invariant extents == Declarations(ledger.inputs, ledger.source, cited[..n])
      {
        CitedIsShown(n);
        var stream := streams[cited[n]];
        var extent := ledger.Extent(stream);
        extents := extents + [InputExtent(ledger.source, stream.key.sessionId, stream.key.pid, extent)];
        DeclarationsSnoc(ledger.inputs, ledger.source, cited, n);
      }
      assert cited[..|cited|] == cited;
    }

    /** Close the session; a second call does nothing. */
    method End()
      requires ledger.Valid() && CitesKnown() && Registered(ledger.inputs, streams)
      requires forall view :: view in ViewsOf(streams) ==> view.Valid()
      modifies this`ended, ledger`metrics, writer`declared, ViewsOf(streams)
      ensures ledger.Valid() && ended && cited == old(cited)
      ensures forall view :: view in ViewsOf(streams) ==> view.Valid()
      ensures writer.declared == old(writer.declared)
                + if old(ended) then [] else Declarations(ledger.inputs, ledger.source, cited)
    {
      hide *;
      if ended {
        assert writer.declared + [] == writer.declared;
        return;
      }
      ended := true;
      var extents := InputExtents();
      writer.declared := writer.declared + extents;
    }

    lemma CitedIsShown(n: nat)
      requires CitesKnown() && Registered(ledger.inputs, streams) && n < |cited|
      ensures cited[n] in streams
      ensures var stream := streams[cited[n]];
        && stream.view in ViewsOf(streams) && Shows(ledger.inputs, stream)
        && InputExtent(ledger.source, stream.key.sessionId, stream.key.pid, ledger.inputs[stream.key].Extent())
           == DeclarationOf(ledger.inputs, ledger.source, cited[n])
    {
      hide StoredStream.Extent;
    }
  }

  // ----- What a clean close owes ------------------------------------------------------------

  /** Citations and markers name offsets the input has. */
  ghost predicate InRange(inputs: Inputs, source: u16, spans: seq<Span>, marks: seq<Undecoded>) {
    forall key, x :: AccountedFor(spans, marks, source, key, x) ==> key in inputs && 0 <= x < inputs[key].Extent()
  }

  /** The file the validator opens is the one the stage read, and its layers agree with the views. */
  ghost predicate SameInput(input: InputFile, inputs: Inputs) {
    && input.Valid() && input.streams == inputs
    && (forall key :: key in inputs ==> LayerAgrees(inputs[key], input.layers[key]))
  }

  /** Nothing is both cited and explicitly marked. */
  ghost predicate NoClash(inputs: Inputs, source: u16, spans: seq<Span>, marks: seq<Undecoded>) {
    forall key, x :: key in inputs ==> !(CitedBy(spans, source, key, x) && MarkedBy(marks, source, key, x))
  }

  /** The fills are exactly the offsets nothing else accounts for. */
  ghost predicate FillsTheRest(inputs: Inputs, source: u16, spans: seq<Span>, marks: seq<Undecoded>,
                               fills: seq<Undecoded>) {
    forall key, x :: key in inputs ==> (MarkedBy(fills, source, key, x) <==> Unsaid(inputs[key], source, spans, marks, key, x))
  }

  ghost predicate Unsaid(stored: StoredStream, source: u16, spans: seq<Span>, marks: seq<Undecoded>, key: Key, x: int) {
    && 0 <= x < stored.Extent() && x !in stored.Fins()
    && !CitedBy(spans, source, key, x) && !MarkedBy(marks, source, key, x)
  }

  /** What was added are fills: well labelled, disjoint, and on exactly what was still owed. */
  ghost predicate AddsFills(inputs: Inputs, source: u16, spans: seq<Span>, before: seq<Undecoded>, after: seq<Undecoded>) {
    exists fills :: after == before + fills && GoodFills(inputs, source, fills)
      && FillsTheRest(inputs, source, spans, before, fills)
  }

  lemma AddedFills(inputs: Inputs, source: u16, spans: seq<Span>, before: seq<Undecoded>, fills: seq<Undecoded>)
    requires GoodFills(inputs, source, fills) && FillsTheRest(inputs, source, spans, before, fills)
    ensures AddsFills(inputs, source, spans, before, before + fills)
  {
    hide GoodFills, FillsTheRest;
  }

  /** No block of another stream's. */
  ghost predicate OnlyInputs(inputs: Inputs, source: u16, fills: seq<Undecoded>) {
    forall key, x :: MarkedBy(fills, source, key, x) ==> key in inputs
  }

  /** One stream, once the fills are in: the guarantee holds of it. */
  lemma FilledIsClean(inputs: Inputs, source: u16, spans: seq<Span>, marks: seq<Undecoded>, fills: seq<Undecoded>, key: Key)
    requires key in inputs && InRange(inputs, source, spans, marks) && NoClash(inputs, source, spans, marks)
    requires FillsTheRest(inputs, source, spans, marks, fills)
    ensures StreamClean(spans, marks + fills, source, key, inputs[key].Extent(), inputs[key].Fins())
  {
    hide CitedBy, MarkedBy, ExtentOf, FinsOf;
    var E, F := inputs[key].Extent(), inputs[key].Fins();
    forall x
      ensures 0 <= x < E && x !in F ==> AccountedFor(spans, marks + fills, source, key, x)
      ensures !(CitedBy(spans, source, key, x) && MarkedBy(marks + fills, source, key, x))
      ensures AccountedFor(spans, marks + fills, source, key, x) ==> x < E
    {
      MarkedConcat(marks, fills, source, key, x);
      assert MarkedBy(fills, source, key, x) <==> Unsaid(inputs[key], source, spans, marks, key, x);
      assert AccountedFor(spans, marks, source, key, x) ==> 0 <= x < E;
    }
  }

  /** A stage that closed cleanly leaves a file the validator finds nothing in. */
  lemma CleanCloseIsClean(input: InputFile, inputs: Inputs, source: u16, spans: seq<Span>, marks: seq<Undecoded>,
                          fills: seq<Undecoded>, declared: seq<InputExtent>)
    requires SameInput(input, inputs) && InRange(inputs, source, spans, marks) && NoClash(inputs, source, spans, marks)
    requires FillsTheRest(inputs, source, spans, marks, fills) && OnlyInputs(inputs, source, fills)
    requires AllTrue(inputs, source, declared)
    ensures FileClean(input, source, spans, marks + fills, declared)
  {
    forall key ensures KeyClean(input, source, spans, marks + fills, key) {
      if key in inputs {
        FilledIsClean(inputs, source, spans, marks, fills, key);
        MeasuredAlike(inputs[key], input.layers[key]);
        KeyMeasures(input, key);
      } else {
        OtherKeyIsClean(inputs, source, spans, marks, fills, key);
        KeyMeasures(input, key);
      }
    }
    forall k | 0 <= k < |declared| ensures DeclaredRight(input, source, declared[k]) {
      var key := Key(declared[k].sessionId, declared[k].participantId);
      assert DeclaresTruly(inputs, source, declared[k]);
      MeasuredAlike(inputs[key], input.layers[key]);
      KeyMeasures(input, key);
    }
    hide KeyClean, DeclaredRight, InputFile.Valid;
  }

  lemma KeyMeasures(input: InputFile, key: Key)
    requires input.Valid()
    ensures key !in input.streams ==> input.Extent(key) == 0 && input.Exempt(key) == []
    ensures key in input.streams ==>
      && input.Extent(key) == OffsetSpace.StreamExtent(input.streams[key].isn, input.streams[key].blocks, input.layers[key])
      && input.Exempt(key) == if input.layers[key].Transport?
             && OffsetSpace.TransportOrigin(input.streams[key].isn, OffsetSpace.RecordsOf(input.streams[key].blocks)).Some?
           then OffsetSpace.FinsInside(input.streams[key].isn, OffsetSpace.RecordsOf(input.streams[key].blocks)) else []
  {
  }

  lemma OtherKeyIsClean(inputs: Inputs, source: u16, spans: seq<Span>, marks: seq<Undecoded>, fills: seq<Undecoded>, key: Key)
    requires key !in inputs && InRange(inputs, source, spans, marks) && OnlyInputs(inputs, source, fills)
    ensures StreamClean(spans, marks + fills, source, key, 0, [])
  {
    hide CitedBy, MarkedBy;
    forall x ensures !CitedBy(spans, source, key, x) && !MarkedBy(marks + fills, source, key, x) {
      MarkedConcat(marks, fills, source, key, x);
      assert !AccountedFor(spans, marks, source, key, x);
    }
  }

  lemma AllSpansSnoc(records: seq<Record>, r: Record)
    ensures AllSpans(records + [r]) == AllSpans(records) + r.spans
  {
    assert (records + [r])[..|records|] == records;
  }

  lemma FillsAreOfInputs(inputs: Inputs, source: u16, fills: seq<Undecoded>)
    requires GoodFills(inputs, source, fills)
    ensures OnlyInputs(inputs, source, fills)
  {
    hide Lost;
    forall key, x | MarkedBy(fills, source, key, x) ensures key in inputs {
      var u :| u in fills && MarksOffset(u, source, key, x);
      var k :| 0 <= k < |fills| && fills[k] == u;
      assert FillOf(inputs, source, fills[k]);
    }
  }

  /** The list and the table of input streams are the same streams, one per input key. */
  ghost predicate SameStreams(inputs: Inputs, streams: seq<InputStream>, known: map<Key, InputStream>) {
    && (forall key :: key in inputs <==> key in known)
    && (forall i :: 0 <= i < |streams| ==> streams[i].key in known && known[streams[i].key] == streams[i])
    && (forall key :: key in known ==> exists i :: 0 <= i < |streams| && streams[i] == known[key])
    && Registered(inputs, known)
  }

  class SessionizeStage {
    const ledger: Ledger
    const writer: OutputFile
    const streams: seq<InputStream>
    const known: map<Key, InputStream>
    var sessions: seq<FlowSession>
    var closed: bool

    /** What is written and what is counted are the same thing. */
    ghost predicate Valid()
      reads this, ledger, writer, ViewsOf(known), sessions
      reads set i | 0 <= i < |streams| :: streams[i].view
    {
      && ledger.Valid() && ledger.Reads(streams) && SameStreams(ledger.inputs, streams, known)
      && (forall view :: view in ViewsOf(known) ==> view.Valid())
      && ledger.spans == AllSpans(writer.records) && AllStand(writer.records)
      && (!closed ==> ledger.marks == writer.undecoded)
      && AllTrue(ledger.inputs, ledger.source, writer.declared)
      && (forall i :: 0 <= i < |sessions| ==> FlowOf(sessions[i]) && EndedIsDeclared(sessions[i]))
    }

    ghost predicate FlowOf(flow: FlowSession)
      reads flow
    {
      flow.ledger == ledger && flow.writer == writer && flow.streams == known && flow.CitesKnown()
    }

    /** A session that has ended has declared every input stream it cited. */
    ghost predicate EndedIsDeclared(flow: FlowSession)
      reads flow, writer
    {
      flow.ended ==> AllDeclared(ledger.inputs, ledger.source, flow.cited, writer.declared)
    }

    constructor (ledger: Ledger, writer: OutputFile, streams: seq<InputStream>, known: map<Key, InputStream>)
      requires ledger.Valid() && ledger.Reads(streams) && SameStreams(ledger.inputs, streams, known)
      requires forall view :: view in ViewsOf(known) ==> view.Valid()
      requires ledger.spans == [] && ledger.marks == []
      requires writer.records == [] && writer.undecoded == [] && writer.declared == []
      ensures Valid() && !closed && sessions == []
      ensures this.ledger == ledger && this.writer == writer && this.streams == streams && this.known == known
    {
      this.ledger, this.writer, this.streams, this.known := ledger, writer, streams, known;
      sessions, closed := [], false;
    }

    method NewSession(sessionId: u64) returns (flow: FlowSession)
      requires Valid() && !closed
      modifies this`sessions
      ensures Valid() && !closed && sessions == old(sessions) + [flow]
    {
      hide Ledger.Valid, StreamView.Valid, SameStreams, AllTrue, AllSpans, AllStand;
      flow := new FlowSession(sessionId, known, ledger, writer);
      assert forall i :: 0 <= i < |sessions| ==> FlowOf(sessions[i]);
      sessions := sessions + [flow];
      assert FlowOf(flow);
    }

    /** End one session before the stage closes. */
    method EndSession(n: nat)
      requires Valid() && !closed && n < |sessions|
      modifies sessions[n], ledger`metrics, writer`declared, ViewsOf(known)
      ensures Valid() && sessions[n].ended && EndedIsDeclared(sessions[n])
      ensures old(writer.declared) <= writer.declared
    {
      hide Ledger.Valid, StreamView.Valid, SameStreams, AllTrue, AllSpans, AllStand, AllDeclared, Registered, Shows;
      KnownIsRegistered(ledger.inputs, streams, known);
      ghost var before := writer.declared;
      label Before:
      EndFlow(sessions[n]);
      forall i | 0 <= i < |sessions| ensures FlowOf(sessions[i]) && EndedIsDeclared(sessions[i]) {
        assert old@Before(FlowOf(sessions[i]) && EndedIsDeclared(sessions[i]));
        if sessions[i] != sessions[n] && sessions[i].ended {
          StillDeclared(sessions[i].cited, before, writer.declared);
        }
      }
      ReadsStay();
    }

    /** A record of one of the sessions: refused, or written and then counted. */
    method AddRecord(n: nat, r: Record, accepted: bool) returns (refusal: Option<Refusal>)
      requires Valid() && !closed && n < |sessions|
      modifies sessions[n], ledger`cited, ledger`spans, writer`records
      ensures Valid()
      ensures writer.records == old(writer.records) + if refusal.None? then [r] else []
    {
      hide Ledger.Valid, StreamView.Valid, SameStreams, AllTrue, AllSpans, AllStand, Measures;
      refusal := sessions[n].AddRecord(r, accepted);
      AllSpansSnoc(old(writer.records), r);
      if refusal.None? {
        AllStandSnoc(old(writer.records), r);
      }
      assert old(writer.records) + [] == old(writer.records);
    }

    /** An explicit marker, counted only once the writer has accepted it. */
    method MarkUndecoded(key: Key, offStart: int, offEnd: int, reason: Option<string>, reasonClass: Option<string>,
                         accepted: bool)
      requires Valid() && !closed
      modifies ledger`marked, ledger`marks, writer`undecoded
      ensures Valid()
      ensures writer.undecoded == old(writer.undecoded) + if !accepted then [] else
                [Undecoded(ledger.source, key.sessionId, key.pid, offStart, offEnd, reason, reasonClass)]
    {
      hide Ledger.Valid, StreamView.Valid, SameStreams, AllTrue, AllSpans, AllStand, Measures;
      if !accepted {
        assert writer.undecoded + [] == writer.undecoded;
        return;
      }
      var block := Undecoded(ledger.source, key.sessionId, key.pid, offStart, offEnd, reason, reasonClass);
      writer.undecoded := writer.undecoded + [block];
      ledger.Mark(key, offStart, offEnd, block);
    }

    /** Mark the pieces of a message that never completed; nothing is written if one is not an input range. */
    method Incomplete(pieces: seq<Span>) returns (refusal: Option<Refusal>)
      requires Valid() && !closed
      modifies ledger`marked, ledger`marks, writer`undecoded
      ensures Valid()
      ensures refusal == if pieces == [] then Some(CitesNothing)
                         else if exists i :: 0 <= i < |pieces| && !IsInputRange(pieces[i]) then Some(NotAnInput)
                         else None
      ensures writer.undecoded == old(writer.undecoded) + if refusal.Some? then [] else Pieces(pieces)
    {
      hide Ledger.Valid, Ledger.Reads, StreamView.Valid, SameStreams, AllTrue, AllSpans, AllStand, Measures;
      assert writer.undecoded + [] == writer.undecoded;
      if pieces == [] {
        return Some(CitesNothing);
      }
      for n := 0 to |pieces|
        invariant Valid() && writer.undecoded == old(writer.undecoded)
        invariant forall i :: 0 <= i < n ==> IsInputRange(pieces[i])
      {
        if !IsInputRange(pieces[n]) {
          return Some(NotAnInput);
        }
      }
      for n := 0 to |pieces|
        invariant Valid() && writer.undecoded == old(writer.undecoded) + Pieces(pieces[..n])
      {
        var piece := pieces[n];
        assert pieces[..n + 1][..n] == pieces[..n];
        MarkUndecoded(Key(piece.sessionId, piece.participantId), piece.offStart, piece.offEnd,
                      Some(UNDECODABLE), None, true);
      }
      assert pieces[..|pieces|] == pieces;
      return None;
    }

    predicate IsInputRange(piece: Span) {
      piece.sourceId == ledger.source && Key(piece.sessionId, piece.participantId) in known
    }

    function Pieces(pieces: seq<Span>): seq<Undecoded> {
      if pieces == [] then []
      else
        var piece := pieces[|pieces| - 1];
        Pieces(pieces[..|pieces| - 1])
        + [Undecoded(ledger.source, piece.sessionId, piece.participantId, piece.offStart, piece.offEnd,
                     Some(UNDECODABLE), None)]
    }

    /**
     * Auto-fill, then end every session. `ok` is false exactly when something was both cited
     * and marked; otherwise the finished file leaves the validator nothing to find.
     */
    method Close(ghost input: InputFile) returns (ok: bool)
      requires Valid() && !closed && SameInput(input, ledger.inputs)
      modifies this, ledger`metrics, writer, ViewsOf(known), sessions
      modifies set i | 0 <= i < |streams| :: streams[i].view
      ensures closed && writer.records == old(writer.records) && AllStand(writer.records)
      ensures ok <==> NoClash(ledger.inputs, ledger.source, AllSpans(writer.records), old(writer.undecoded))
      ensures ok && InRange(ledger.inputs, ledger.source, AllSpans(writer.records), old(writer.undecoded)) ==>
        FileClean(input, ledger.source, AllSpans(writer.records), writer.undecoded, writer.declared)
      ensures ok ==> forall i :: 0 <= i < |sessions| ==> sessions[i].ended && EndedIsDeclared(sessions[i])
      ensures ok ==> AddsFills(ledger.inputs, ledger.source, AllSpans(writer.records), old(writer.undecoded), writer.undecoded)
    {
      hide *;
      ValidParts();
      ghost var marks, spans := writer.undecoded, AllSpans(writer.records);
      closed := true;
      ghost var fills;
      ok, fills := ledger.Autofill(streams, writer);
      ClashVerdict(marks);
      if !ok {
        return;
      }
      FillsVerdict(marks, fills);
      AddedFills(ledger.inputs, ledger.source, spans, marks, fills);
      KnownIsRegistered(ledger.inputs, streams, known);
      ViewsAgree();
      EachEndedIsDeclared();
      EndAll();
      if InRange(ledger.inputs, ledger.source, spans, marks) {
        CleanCloseIsClean(input, ledger.inputs, ledger.source, spans, marks, fills, writer.declared);
      }
    }

    lemma ValidParts()
      requires Valid()
      ensures ledger.Valid() && ledger.Reads(streams) && SameStreams(ledger.inputs, streams, known)
      ensures ledger.spans == AllSpans(writer.records) && (!closed ==> ledger.marks == writer.undecoded)
      ensures AllStand(writer.records)
      ensures AllTrue(ledger.inputs, ledger.source, writer.declared)
      ensures forall i :: 0 <= i < |sessions| ==> FlowOf(sessions[i])
      ensures AllEndedDeclared(writer.declared)
    {
      hide Ledger.Valid, Ledger.Reads, StreamView.Valid, SameStreams, AllTrue, AllSpans, AllStand;
    }

    ghost predicate AllEndedDeclared(declared: seq<InputExtent>)
      reads this`sessions, sessions
    {
      forall i :: 0 <= i < |sessions| && sessions[i].ended ==>
        AllDeclared(ledger.inputs, ledger.source, sessions[i].cited, declared)
    }

    lemma EachEndedIsDeclared()
      requires AllEndedDeclared(writer.declared)
      ensures forall i :: 0 <= i < |sessions| ==> EndedIsDeclared(sessions[i])
    {
      hide AllDeclared;
    }

    /** One session is ended, declaring what it cited; ending it again changes nothing. */
    method EndFlow(flow: FlowSession)
      requires ledger.Valid() && Registered(ledger.inputs, known) && AllTrue(ledger.inputs, ledger.source, writer.declared)
      requires forall view :: view in ViewsOf(known) ==> view.Valid()
      requires FlowOf(flow) && EndedIsDeclared(flow)
      modifies flow`ended, ledger`metrics, writer`declared, ViewsOf(known)
      ensures ledger.Valid() && AllTrue(ledger.inputs, ledger.source, writer.declared)
      ensures forall view :: view in ViewsOf(known) ==> view.Valid()
      ensures FlowOf(flow) && flow.ended && EndedIsDeclared(flow)
      ensures old(writer.declared) <= writer.declared
    {
      hide Ledger.Valid, StreamView.Valid, AllTrue, Registered, AllDeclared, Declarations;
      CitedAreInputs(flow);
      TrueDeclarations(ledger.inputs, ledger.source, flow.cited, writer.declared);
      assert writer.declared + [] == writer.declared;
      flow.End();
    }

    /** The listed views are the known ones, so they are valid when those are. */
    lemma ReadsStay()
      requires SameStreams(ledger.inputs, streams, known)
      requires forall view :: view in ViewsOf(known) ==> view.Valid()
      requires forall i, j :: 0 <= i < j < |streams| ==> streams[i].key != streams[j].key
      ensures ledger.Reads(streams)
    {
      hide StreamView.Valid, Shows;
      forall i | 0 <= i < |streams| ensures Shows(ledger.inputs, streams[i]) && streams[i].view.Valid() {
        assert known[streams[i].key] == streams[i];
        assert streams[i].view in ViewsOf(known);
      }
    }

    lemma CitedAreInputs(flow: FlowSession)
      requires Registered(ledger.inputs, known) && FlowOf(flow)
      ensures forall key :: key in flow.cited ==> key in ledger.inputs
    {
    }

    /** What is declared stays declared. */
    lemma StillDeclared(keys: seq<Key>, before: seq<InputExtent>, after: seq<InputExtent>)
      requires before <= after && AllDeclared(ledger.inputs, ledger.source, keys, before)
      ensures AllDeclared(ledger.inputs, ledger.source, keys, after)
    {
      hide DeclarationOf;
      forall key | key in keys ensures DeclarationOf(ledger.inputs, ledger.source, key) in after {
        var k :| 0 <= k < |before| && before[k] == DeclarationOf(ledger.inputs, ledger.source, key);
        assert after[k] == before[k];
      }
    }

    /** Every session still open is ended, declaring what it cited. */
    method EndAll()
      requires ledger.Valid() && Registered(ledger.inputs, known) && AllTrue(ledger.inputs, ledger.source, writer.declared)
      requires forall view :: view in ViewsOf(known) ==> view.Valid()
      requires forall i :: 0 <= i < |sessions| ==> FlowOf(sessions[i]) && EndedIsDeclared(sessions[i])
      modifies set i | 0 <= i < |sessions| :: sessions[i]`ended
      modifies ledger`metrics, writer`declared, ViewsOf(known)
      ensures AllTrue(ledger.inputs, ledger.source, writer.declared)
      ensures forall i :: 0 <= i < |sessions| ==> FlowOf(sessions[i]) && sessions[i].ended && EndedIsDeclared(sessions[i])
    {
      hide Ledger.Valid, StreamView.Valid, AllTrue, Registered, AllDeclared;
      for n := 0 to |sessions|
        invariant ledger.Valid() && AllTrue(ledger.inputs, ledger.source, writer.declared)
        invariant forall view :: view in ViewsOf(known) ==> view.Valid()
        invariant forall i :: 0 <= i < |sessions| ==> FlowOf(sessions[i]) && EndedIsDeclared(sessions[i])
        invariant forall i :: 0 <= i < n ==> sessions[i].ended
      {
        ghost var before := writer.declared;
        label Before:
        EndFlow(sessions[n]);
        forall i | 0 <= i < |sessions| ensures FlowOf(sessions[i]) && EndedIsDeclared(sessions[i]) {
          assert old@Before(FlowOf(sessions[i]) && EndedIsDeclared(sessions[i]));
          if sessions[i] != sessions[n] && sessions[i].ended {
            StillDeclared(sessions[i].cited, before, writer.declared);
          }
        }
      }
    }

    /** Some stream clashes iff some input stream does: the list has them all. */
    lemma ClashVerdict(marks: seq<Undecoded>)
      requires SameStreams(ledger.inputs, streams, known)
      requires ledger.spans == AllSpans(writer.records) && ledger.marks == marks
      ensures (forall i :: 0 <= i < |streams| ==> !ledger.Clashes(streams[i].key))
         <==> NoClash(ledger.inputs, ledger.source, AllSpans(writer.records), marks)
    {
      hide CitedBy, MarkedBy, AllSpans, Shows;
      if forall i :: 0 <= i < |streams| ==> !ledger.Clashes(streams[i].key) {
        forall key, x | key in ledger.inputs
          ensures !(CitedBy(ledger.spans, ledger.source, key, x) && MarkedBy(marks, ledger.source, key, x))
        {
          var i :| 0 <= i < |streams| && streams[i] == known[key];
          assert !ledger.Clashes(streams[i].key);
        }
      }
    }

    lemma FillsVerdict(marks: seq<Undecoded>, fills: seq<Undecoded>)
      requires SameStreams(ledger.inputs, streams, known) && GoodFills(ledger.inputs, ledger.source, fills)
      requires ledger.spans == AllSpans(writer.records) && ledger.marks == marks
      requires ledger.Reads(streams)
      requires forall i, x :: 0 <= i < |streams| ==>
        (MarkedBy(fills, ledger.source, streams[i].key, x) <==> ledger.Owed(streams[i].key, x))
      ensures FillsTheRest(ledger.inputs, ledger.source, AllSpans(writer.records), marks, fills)
      ensures OnlyInputs(ledger.inputs, ledger.source, fills)
    {
      FillsAreOfInputs(ledger.inputs, ledger.source, fills);
      hide CitedBy, MarkedBy, AllSpans, GoodFills, ExtentOf, FinsOf;
      forall key, x | key in ledger.inputs
        ensures MarkedBy(fills, ledger.source, key, x)
           <==> Unsaid(ledger.inputs[key], ledger.source, ledger.spans, marks, key, x)
      {
        var i :| 0 <= i < |streams| && streams[i] == known[key];
        assert MarkedBy(fills, ledger.source, streams[i].key, x) <==> ledger.Owed(streams[i].key, x);
      }
    }

    lemma ViewsAgree()
      requires ledger.Reads(streams) && SameStreams(ledger.inputs, streams, known)
      ensures forall view :: view in ViewsOf(known) ==> view.Valid()
    {
      hide StreamView.Valid, Shows;
    }
  }

  lemma KnownIsRegistered(inputs: Inputs, streams: seq<InputStream>, known: map<Key, InputStream>)
    requires SameStreams(inputs, streams, known)
    ensures Registered(inputs, known)
  {
  }
}
