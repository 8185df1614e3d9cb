/** The coverage guarantee, and the validator that has both the output file and its input. */
module CoverageCheck {
  import opened Prelude
  import opened Blocks
  import opened Intervals
  import opened OffsetSpace
  import StreamViews
  import opened Fills
  import opened Ledgers

  // ----- The guarantee ------------------------------------------------------------------

  /** What the file says of one offset: some record cites it, or some Undecoded block names it. */
  ghost predicate AccountedFor(spans: seq<Span>, undecoded: seq<Undecoded>, source: u16, key: Key, x: int) {
    CitedBy(spans, source, key, x) || MarkedBy(undecoded, source, key, x)
  }

  /** Nothing silently dropped, nothing both decoded and undecoded, nothing past the end. */
  ghost predicate StreamClean(spans: seq<Span>, undecoded: seq<Undecoded>, source: u16, key: Key,
                              extent: int, exempt: seq<int>) {
    && (forall x :: 0 <= x < extent && x !in exempt ==> AccountedFor(spans, undecoded, source, key, x))
    && (forall x :: !(CitedBy(spans, source, key, x) && MarkedBy(undecoded, source, key, x)))
    && (forall x :: AccountedFor(spans, undecoded, source, key, x) ==> x < extent)
  }

  // ----- Collecting what the file says -----------------------------------------------------

  predicate CitesStream(sp: Span, source: u16, key: Key) {
    && sp.sourceId == source && sp.offStart < sp.offEnd
    && sp.sessionId == key.sessionId && sp.participantId == key.pid
  }

  predicate MarksStream(u: Undecoded, source: u16, key: Key) {
    && u.sourceId == source && u.offStart < u.offEnd
    && u.sessionId == key.sessionId && u.participantId == key.pid
  }

  function CitedIntervals(spans: seq<Span>, source: u16, key: Key): (ranges: seq<Range>)
    ensures forall r :: r in ranges ==> r.start < r.end
  {
    if spans == [] then []
    else
      var before, sp := CitedIntervals(spans[..|spans| - 1], source, key), spans[|spans| - 1];
      if CitesStream(sp, source, key) then before + [Range(sp.offStart, sp.offEnd)] else before
  }

  function MarkedIntervals(undecoded: seq<Undecoded>, source: u16, key: Key): (ranges: seq<Range>)
    ensures forall r :: r in ranges ==> r.start < r.end
  {
    if undecoded == [] then []
    else
      var before, u := MarkedIntervals(undecoded[..|undecoded| - 1], source, key), undecoded[|undecoded| - 1];
      if MarksStream(u, source, key) then before + [Range(u.offStart, u.offEnd)] else before
  }

  lemma {:induction false} CitedIntervalsCover(spans: seq<Span>, source: u16, key: Key, x: int)
    ensures Covers(CitedIntervals(spans, source, key), x) <==> CitedBy(spans, source, key, x)
  {
    if spans != [] {
      var before, sp := spans[..|spans| - 1], spans[|spans| - 1];
      CitedIntervalsCover(before, source, key, x);
      CoversSnoc(CitedIntervals(before, source, key), Range(sp.offStart, sp.offEnd), x);
      assert spans == before + [sp];
      CitedConcat(before, [sp], source, key, x);
      CitedOne(sp, source, key, x);
      hide CitedBy, Covers;
    }
  }

  lemma {:induction false} MarkedIntervalsCover(undecoded: seq<Undecoded>, source: u16, key: Key, x: int)
    ensures Covers(MarkedIntervals(undecoded, source, key), x) <==> MarkedBy(undecoded, source, key, x)
  {
    if undecoded != [] {
      var before, u := undecoded[..|undecoded| - 1], undecoded[|undecoded| - 1];
      MarkedIntervalsCover(before, source, key, x);
      CoversSnoc(MarkedIntervals(before, source, key), Range(u.offStart, u.offEnd), x);
      assert undecoded == before + [u];
      MarkedConcat(before, [u], source, key, x);
      MarkedOne(u, source, key, x);
      hide MarkedBy, Covers;
    }
  }

  /** A range reaching past the extent is an accounted offset past it. */
  lemma PastIffBeyond(ranges: seq<Range>, extent: int)
    requires forall r :: r in ranges ==> r.start < r.end
    ensures (exists r :: r in ranges && r.end > extent) <==> (exists x :: Covers(ranges, x) && x >= extent)
  {
    if r :| r in ranges && r.end > extent {
      assert r.Has(Max(extent, r.start));
      assert Covers(ranges, Max(extent, r.start));
    }
    if x :| Covers(ranges, x) && x >= extent {
      var r :| r in ranges && r.Has(x);
    }
  }

  // ----- The validator -----------------------------------------------------------------------

  /** One input stream's findings: none iff the guarantee holds of it. */
  method CheckOne(spans: seq<Span>, undecoded: seq<Undecoded>, source: u16, key: Key, extent: int, exempt: seq<int>)
    returns (findings: seq<Finding>)
    ensures findings == [] <==> StreamClean(spans, undecoded, source, key, extent, exempt)
  {
    var cites, marks := CitedIntervals(spans, source, key), MarkedIntervals(undecoded, source, key);
    hide *;
    assert forall r :: r in cites + marks ==> r in cites || r in marks;
    findings := CheckStream(extent, cites, marks, exempt);
    Verdict(spans, undecoded, source, key, extent, exempt, cites, marks, findings);
  }

  lemma Verdict(spans: seq<Span>, undecoded: seq<Undecoded>, source: u16, key: Key, extent: int, exempt: seq<int>,
                cites: seq<Range>, marks: seq<Range>, findings: seq<Finding>)
    requires cites == CitedIntervals(spans, source, key) && marks == MarkedIntervals(undecoded, source, key)
    requires Reports(findings, CoverageOverlap) <==> exists x :: Covers(cites, x) && Covers(marks, x)
    requires Reports(findings, CoverageGap)
        <==> exists x :: 0 <= x < extent && !Covers(cites, x) && !Covers(marks, x) && x !in exempt
    requires Reports(findings, CoverageExcess) <==> exists r :: r in cites + marks && r.end > extent
    requires findings == [] <==>
      !Reports(findings, CoverageOverlap) && !Reports(findings, CoverageGap) && !Reports(findings, CoverageExcess)
    ensures findings == [] <==> StreamClean(spans, undecoded, source, key, extent, exempt)
  {
    PastIffBeyond(cites + marks, extent);
    hide Reports, Covers, CitedBy, MarkedBy;
    forall x
      ensures Covers(cites, x) <==> CitedBy(spans, source, key, x)
      ensures Covers(marks, x) <==> MarkedBy(undecoded, source, key, x)
      ensures Covers(cites + marks, x) <==> AccountedFor(spans, undecoded, source, key, x)
    {
      CitedIntervalsCover(spans, source, key, x);
      MarkedIntervalsCover(undecoded, source, key, x);
      CoversConcat(cites, marks, x);
    }
    assert forall x :: AccountedFor(spans, undecoded, source, key, x) <==> Covers(cites, x) || Covers(marks, x);
  }

  /** The input file: every stream, with the layer its reader resolves. */
  datatype InputFile = InputFile(streams: Inputs, layers: map<Key, Layer>, keys: seq<Key>)
  {
    ghost predicate Valid() {
      && (forall key :: key in keys <==> key in streams)
      && streams.Keys == layers.Keys && (forall key :: key in layers ==> !layers[key].Undefined?)
    }

    ghost function Extent(key: Key): nat
      requires Valid()
    {
      if key in streams then StreamExtent(streams[key].isn, streams[key].blocks, layers[key]) else 0
    }

    ghost function Exempt(key: Key): seq<int>
      requires Valid()
    {
      if key in streams && layers[key].Transport?
         && TransportOrigin(streams[key].isn, RecordsOf(streams[key].blocks)).Some? then
        FinsInside(streams[key].isn, RecordsOf(streams[key].blocks))
      else []
    }
  }

  /** `source` cites or marks the stream in this file. */
  ghost predicate Mentioned(spans: seq<Span>, undecoded: seq<Undecoded>, source: u16, key: Key) {
    exists x :: AccountedFor(spans, undecoded, source, key, x)
  }

  /** The whole file meets the guarantee: every stream it reads or mentions, and every declared length. */
  ghost predicate FileClean(input: InputFile, source: u16, spans: seq<Span>, undecoded: seq<Undecoded>,
                            declared: seq<InputExtent>)
    requires input.Valid()
  {
    && (forall key :: KeyClean(input, source, spans, undecoded, key))
    && (forall k :: 0 <= k < |declared| ==> DeclaredRight(input, source, declared[k]))
  }

  ghost predicate DeclaredRight(input: InputFile, source: u16, e: InputExtent)
    requires input.Valid()
  {
    var key := Key(e.sessionId, e.participantId);
    e.sourceId == source && key in input.streams ==> e.extent == input.Extent(key)
  }

  /** A stream the file neither reads nor mentions is trivially clean. */
  lemma UnmentionedIsClean(spans: seq<Span>, undecoded: seq<Undecoded>, source: u16, key: Key)
    requires !Mentioned(spans, undecoded, source, key)
    ensures StreamClean(spans, undecoded, source, key, 0, [])
  {
    hide CitedBy, MarkedBy;
    forall x
      ensures CitedBy(spans, source, key, x) || MarkedBy(undecoded, source, key, x)
         <==> AccountedFor(spans, undecoded, source, key, x)
      ensures AccountedFor(spans, undecoded, source, key, x) ==> Mentioned(spans, undecoded, source, key)
    {
    }
  }

  /** Every key the check looks at: the input's, then whatever else the file mentions. */
  method AllKeys(input: InputFile, spans: seq<Span>, undecoded: seq<Undecoded>, source: u16) returns (keys: seq<Key>)
    requires input.Valid()
    ensures forall key :: key in input.streams || Mentioned(spans, undecoded, source, key) ==> key in keys
  {
    hide AccountedFor, CitedBy, MarkedBy;
    keys := input.keys;
    for n := 0 to |spans|
      invariant forall key :: key in input.streams ==> key in keys
      invariant forall i :: 0 <= i < n ==> Key(spans[i].sessionId, spans[i].participantId) in keys
    {
      var key := Key(spans[n].sessionId, spans[n].participantId);
      if key !in keys {
        keys := keys + [key];
      }
    }
    for n := 0 to |undecoded|
      invariant forall key :: key in input.streams ==> key in keys
      invariant forall i :: 0 <= i < |spans| ==> Key(spans[i].sessionId, spans[i].participantId) in keys
      invariant forall i :: 0 <= i < n ==> Key(undecoded[i].sessionId, undecoded[i].participantId) in keys
    {
      var key := Key(undecoded[n].sessionId, undecoded[n].participantId);
      if key !in keys {
        keys := keys + [key];
      }
    }
    forall key | Mentioned(spans, undecoded, source, key) ensures key in keys {
      MentionedSomewhere(spans, undecoded, source, key);
    }
  }

  lemma MentionedSomewhere(spans: seq<Span>, undecoded: seq<Undecoded>, source: u16, key: Key)
    requires Mentioned(spans, undecoded, source, key)
    ensures (exists i :: 0 <= i < |spans| && Key(spans[i].sessionId, spans[i].participantId) == key)
         || (exists i :: 0 <= i < |undecoded| && Key(undecoded[i].sessionId, undecoded[i].participantId) == key)
  {
    var x :| AccountedFor(spans, undecoded, source, key, x);
    if CitedBy(spans, source, key, x) {
      var sp :| sp in spans && NamesOffset(sp, source, key, x);
      var i :| 0 <= i < |spans| && spans[i] == sp;
    } else {
      var u :| u in undecoded && MarksOffset(u, source, key, x);
      var i :| 0 <= i < |undecoded| && undecoded[i] == u;
    }
  }

  /** What the input stream measures by the layer's own rule. */
  method MeasureInput(input: InputFile, key: Key) returns (extent: int, exempt: seq<int>)
    requires input.Valid()
    ensures extent == input.Extent(key) && exempt == input.Exempt(key)
  {
    if key !in input.streams {
      return 0, [];
    }
    var stored, layer := input.streams[key], input.layers[key];
    hide Ranges, RecordsOf, TransportOrigin, FinsInside, MaxEnd;
    var ranges := RecordRanges(stored.isn, stored.blocks, layer);
    exempt := FinPositions(stored.isn, stored.blocks, layer);
    extent := MaxEnd(ranges.value);
  }

  /** `check_coverage`: no finding iff the file meets the whole guarantee. */
  method CheckCoverage(input: InputFile, source: u16, spans: seq<Span>, undecoded: seq<Undecoded>,
                       declared: seq<InputExtent>)
    returns (findings: seq<Finding>)
    requires input.Valid()
    ensures findings == [] <==> FileClean(input, source, spans, undecoded, declared)
  {
    hide *;
    var keys := AllKeys(input, spans, undecoded, source);
    findings := [];
    for n := 0 to |keys|
      invariant findings == [] <==> forall i :: 0 <= i < n ==> KeyClean(input, source, spans, undecoded, keys[i])
    {
      var extent, exempt := MeasureInput(input, keys[n]);
      var here := CheckOne(spans, undecoded, source, keys[n], extent, exempt);
      KeyCleanIs(input, source, spans, undecoded, keys[n]);
      findings := findings + here;
    }
    ghost var clean := findings == [];
    EveryKeyChecked(input, source, spans, undecoded, keys);
    for n := 0 to |declared|
      invariant findings == [] <==> clean && forall i :: 0 <= i < n ==> DeclaredRight(input, source, declared[i])
    {
      var e := declared[n];
      var key := Key(e.sessionId, e.participantId);
      var actual, _ := MeasureInput(input, key);
      DeclaredRightIs(input, source, e);
      if e.sourceId == source && key in input.streams && e.extent != actual {
        findings := findings + [Finding(e.extent, ExtentMismatch)];
      }
    }
    FileCleanIs(input, source, spans, undecoded, declared);
  }

  ghost predicate KeyClean(input: InputFile, source: u16, spans: seq<Span>, undecoded: seq<Undecoded>, key: Key)
    requires input.Valid()
  {
    StreamClean(spans, undecoded, source, key, input.Extent(key), input.Exempt(key))
  }

  lemma KeyCleanIs(input: InputFile, source: u16, spans: seq<Span>, undecoded: seq<Undecoded>, key: Key)
    requires input.Valid()
    ensures KeyClean(input, source, spans, undecoded, key)
       <==> StreamClean(spans, undecoded, source, key, input.Extent(key), input.Exempt(key))
  {
  }

  lemma DeclaredRightIs(input: InputFile, source: u16, e: InputExtent)
    requires input.Valid()
    ensures var key := Key(e.sessionId, e.participantId);
      DeclaredRight(input, source, e) <==> (e.sourceId == source && key in input.streams ==> e.extent == input.Extent(key))
  {
  }

  lemma FileCleanIs(input: InputFile, source: u16, spans: seq<Span>, undecoded: seq<Undecoded>,
                    declared: seq<InputExtent>)
    requires input.Valid()
    ensures FileClean(input, source, spans, undecoded, declared)
       <==> && (forall key :: KeyClean(input, source, spans, undecoded, key))
            && (forall k :: 0 <= k < |declared| ==> DeclaredRight(input, source, declared[k]))
  {
  }

  lemma EveryKeyChecked(input: InputFile, source: u16, spans: seq<Span>, undecoded: seq<Undecoded>, keys: seq<Key>)
    requires input.Valid()
    requires forall key :: key in input.streams || Mentioned(spans, undecoded, source, key) ==> key in keys
    ensures (forall i :: 0 <= i < |keys| ==> KeyClean(input, source, spans, undecoded, keys[i]))
       <==> (forall key :: KeyClean(input, source, spans, undecoded, key))
  {
    hide StreamClean, Mentioned, StreamExtent, FinsInside, TransportOrigin;
    if forall i :: 0 <= i < |keys| ==> KeyClean(input, source, spans, undecoded, keys[i]) {
      forall key ensures KeyClean(input, source, spans, undecoded, key) {
        if key in keys {
          var i :| 0 <= i < |keys| && keys[i] == key;
        } else {
          UnmentionedIsClean(spans, undecoded, source, key);
        }
      }
    }
  }

  // ----- When the two measurements agree -------------------------------------------------------

  /** The view's reading of the stream agrees with the layer: a hinted stream is a transport one. */
  predicate LayerAgrees(stored: StoredStream, layer: Layer) {
    if StreamViews.Oriented(stored.isn, stored.blocks) then layer.Transport?
    else layer.Decoded? || (layer.Transport? && TransportOrigin(stored.isn, RecordsOf(stored.blocks)).None?)
  }

  /** Then the stage and the validator measure the same extent and the same FIN positions. */
  lemma MeasuredAlike(stored: StoredStream, layer: Layer)
    requires LayerAgrees(stored, layer)
    ensures StreamExtent(stored.isn, stored.blocks, layer) == stored.Extent()
    ensures stored.Fins() == if layer.Transport? && TransportOrigin(stored.isn, RecordsOf(stored.blocks)).Some?
                             then FinsInside(stored.isn, RecordsOf(stored.blocks)) else []
  {
    hide MaxEnd, PositionalRanges, PlacedRanges, FinsInside, RecordsOf;
  }
}
