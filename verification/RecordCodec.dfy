/**
 * The Record block's content: a fixed body, the payload, and TLV options.
 *
 * Text is UTF-8; `utf8` says which byte strings decode, and nothing else about it is used.
 */
module RecordCodec {
  import opened Prelude
  import opened Blocks
  import opened Wire

  type Utf8 = seq<byte> -> bool

  // ----- Spans: 28 packed bytes each -----------------------------------------------------

  const SPAN_SIZE := 28
  const MAX_SPANS_PER_OPTION := 2340

  function PackSpan(sp: Span): (bytes: seq<byte>)
    ensures |bytes| == SPAN_SIZE
  {
    Pack(sp.sourceId, 2) + Pack(sp.participantId, 2) + Pack(sp.sessionId, 8) + Pack(sp.offStart, 8) + Pack(sp.offEnd, 8)
  }

  /** A reversed range is refused. */
  function UnpackSpan(bytes: seq<byte>): Option<Span>
    requires |bytes| == SPAN_SIZE
  {
    var sp := Span(Unpack16(bytes[..2]), Unpack64(bytes[4..12]), Unpack16(bytes[2..4]),
                   Unpack64(bytes[12..20]), Unpack64(bytes[20..28]));
    if sp.WellFormed() then Some(sp) else None
  }

  lemma SpanRoundTrip(sp: Span)
    ensures UnpackSpan(PackSpan(sp)) == if sp.WellFormed() then Some(sp) else None
  {
    var bytes := PackSpan(sp);
    UnpackPack16(sp.sourceId);
    UnpackPack16(sp.participantId);
    UnpackPack64(sp.sessionId);
    UnpackPack64(sp.offStart);
    UnpackPack64(sp.offEnd);
    hide Pack, Unpack16, Unpack64;
    assert bytes[..2] == Pack(sp.sourceId, 2) && bytes[2..4] == Pack(sp.participantId, 2);
    assert bytes[4..12] == Pack(sp.sessionId, 8) && bytes[12..20] == Pack(sp.offStart, 8);
    assert bytes[20..28] == Pack(sp.offEnd, 8);
  }

  predicate AllWellFormed(spans: seq<Span>) {
    forall k :: 0 <= k < |spans| ==> spans[k].WellFormed()
  }

  function PackSpans(spans: seq<Span>): (bytes: seq<byte>)
    ensures |bytes| == SPAN_SIZE * |spans|
  {
    if spans == [] then [] else PackSpan(spans[0]) + PackSpans(spans[1..])
  }

  function UnpackSpans(bytes: seq<byte>): (spans: Option<seq<Span>>)
    ensures spans.Some? ==> AllWellFormed(spans.value)
  {
    if bytes == [] then Some([])
    else if |bytes| < SPAN_SIZE then None
    else
      var first, rest := UnpackSpan(bytes[..SPAN_SIZE]), UnpackSpans(bytes[SPAN_SIZE..]);
      if first.None? || rest.None? then None else Some([first.value] + rest.value)
  }

  /** A packed list is read back, or refused whole if one of its ranges is reversed. */
  lemma {:induction false} SpansRoundTrip(spans: seq<Span>)
    ensures UnpackSpans(PackSpans(spans)) == if AllWellFormed(spans) then Some(spans) else None
  {
    hide PackSpan, UnpackSpan;
    if spans != [] {
      var bytes := PackSpans(spans);
      SpansRoundTrip(spans[1..]);
      SpanRoundTrip(spans[0]);
      assert bytes[..SPAN_SIZE] == PackSpan(spans[0]) && bytes[SPAN_SIZE..] == PackSpans(spans[1..]);
      assert spans == [spans[0]] + spans[1..];
      assert AllWellFormed(spans) <==> spans[0].WellFormed() && AllWellFormed(spans[1..]);
    }
  }

  /** A list too long for one option's value is split over several. */
  function Chunks(spans: seq<Span>): (chunks: seq<seq<Span>>)
    ensures forall k :: 0 <= k < |chunks| ==> 0 < |chunks[k]| <= 2340
    ensures forall k :: 0 <= k < |chunks| - 1 ==> |chunks[k]| == 2340
  {
    if spans == [] then []
    else
      var n := Min(|spans|, MAX_SPANS_PER_OPTION);
      [spans[..n]] + Chunks(spans[n..])
  }

  function SpanOptions(chunks: seq<seq<Span>>): seq<RawOption> {
    if chunks == [] then [] else [RawOption(OPT_SPANS, PackSpans(chunks[0]))] + SpanOptions(chunks[1..])
  }

  // ----- The option table ------------------------------------------------------------------

  const OPT_COMMENT: u16 := 0x0001
  const OPT_SEQ_START: u16 := 0x0070
  const OPT_ACK: u16 := 0x0072
  const OPT_TS_FIRST: u16 := 0x0073
  const OPT_SPANS: u16 := 0x0080
  const OPT_DECODER_ID: u16 := 0x0090
  const OPT_CONTENT_TYPE: u16 := 0x0091
  const OPT_ROLE: u16 := 0x0092

  /** The ids of the table, in canonical order. */
  const IDS: seq<u16> := [OPT_COMMENT, OPT_SEQ_START, OPT_ACK, OPT_TS_FIRST, OPT_SPANS, OPT_DECODER_ID,
                          OPT_CONTENT_TYPE, OPT_ROLE]

  /** The typed fields the options set. */
  datatype Values = Values(
    comment: Option<seq<byte>>,
    seqStart: Option<u32>,
    ack: Option<u32>,
    tsFirst: Option<i64>,
    spans: seq<Span>,
    decoderId: Option<u16>,
    contentType: Option<seq<byte>>,
    role: Option<seq<byte>>)

  const UNSET := Values(None, None, None, None, [], None, None, None)

  predicate Known(id: u16) {
    id == OPT_COMMENT || id == OPT_SEQ_START || id == OPT_ACK || id == OPT_TS_FIRST || id == OPT_SPANS
    || id == OPT_DECODER_ID || id == OPT_CONTENT_TYPE || id == OPT_ROLE
  }

  /** The value decodes as its id says. */
  predicate Decodes(utf8: Utf8, opt: RawOption) {
    if opt.optionId == OPT_SPANS then |opt.value| % SPAN_SIZE == 0 && UnpackSpans(opt.value).Some?
    else if opt.optionId == OPT_SEQ_START || opt.optionId == OPT_ACK then |opt.value| == 4
    else if opt.optionId == OPT_TS_FIRST then |opt.value| == 8
    else if opt.optionId == OPT_DECODER_ID then |opt.value| == 2
    else utf8(opt.value)
  }

  predicate IsSet(v: Values, id: u16) {
    if id == OPT_COMMENT then v.comment.Some?
    else if id == OPT_SEQ_START then v.seqStart.Some?
    else if id == OPT_ACK then v.ack.Some?
    else if id == OPT_TS_FIRST then v.tsFirst.Some?
    else if id == OPT_DECODER_ID then v.decoderId.Some?
    else if id == OPT_CONTENT_TYPE then v.contentType.Some?
    else if id == OPT_ROLE then v.role.Some?
    else false
  }

  /** Set the field of a recognized option; spans concatenate. */
  function Put(utf8: Utf8, v: Values, opt: RawOption): Values
    requires Known(opt.optionId) && Decodes(utf8, opt)
  {
    if opt.optionId == OPT_COMMENT then v.(comment := Some(opt.value))
    else if opt.optionId == OPT_SEQ_START then v.(seqStart := Some(Unpack32(opt.value)))
    else if opt.optionId == OPT_ACK then v.(ack := Some(Unpack32(opt.value)))
    else if opt.optionId == OPT_TS_FIRST then v.(tsFirst := Some(UnpackI64(opt.value)))
    else if opt.optionId == OPT_SPANS then v.(spans := v.spans + UnpackSpans(opt.value).value)
    else if opt.optionId == OPT_DECODER_ID then v.(decoderId := Some(Unpack16(opt.value)))
    else if opt.optionId == OPT_CONTENT_TYPE then v.(contentType := Some(opt.value))
    else v.(role := Some(opt.value))
  }

  /** Typed values, and the occurrences kept raw in file order. */
  datatype Parsed = Parsed(values: Values, extras: seq<RawOption>)

  /** An occurrence kept raw: of an unknown id, malformed, or a repeat of a single-valued id. */
  predicate Inert(utf8: Utf8, v: Values, opt: RawOption) {
    !Known(opt.optionId) || !Decodes(utf8, opt) || IsSet(v, opt.optionId)
  }

  function Step(utf8: Utf8, st: Parsed, opt: RawOption): Parsed {
    if Inert(utf8, st.values, opt) then Parsed(st.values, st.extras + [opt])
    else Parsed(Put(utf8, st.values, opt), st.extras)
  }

  function Fold(utf8: Utf8, st: Parsed, opts: seq<RawOption>): Parsed
    decreases |opts|
  {
    if opts == [] then st else Fold(utf8, Step(utf8, st, opts[0]), opts[1..])
  }

  lemma {:induction false} FoldConcat(utf8: Utf8, st: Parsed, a: seq<RawOption>, b: seq<RawOption>)
    ensures Fold(utf8, st, a + b) == Fold(utf8, Fold(utf8, st, a), b)
    decreases |a|
  {
    hide Step;
    if a == [] {
      assert a + b == b;
    } else {
      assert (a + b)[1..] == a[1..] + b;
      FoldConcat(utf8, Step(utf8, st, a[0]), a[1..], b);
    }
  }

  lemma FoldOne(utf8: Utf8, st: Parsed, opt: RawOption)
    ensures Fold(utf8, st, [opt]) == Step(utf8, st, opt)
  {
    hide Step;
    assert [opt][1..] == [];
  }

  // ----- What the parser keeps, by position ----------------------------------------------------

  /** An occurrence of the id whose value decodes. */
  predicate Holds(utf8: Utf8, opt: RawOption, id: u16) {
    opt.optionId == id && Decodes(utf8, opt)
  }

  /** The position of the first decodable occurrence of an id. */
  function FirstOf(utf8: Utf8, opts: seq<RawOption>, id: u16): (i: Option<nat>)
    ensures i.Some? ==> i.value < |opts| && Holds(utf8, opts[i.value], id)
    ensures forall k :: 0 <= k < (if i.Some? then i.value else |opts|) ==> !Holds(utf8, opts[k], id)
  {
    if opts == [] then None
    else
      var n := |opts| - 1;
      var before := FirstOf(utf8, opts[..n], id);
      if before.Some? then before else if Holds(utf8, opts[n], id) then Some(n) else None
  }

  function TextAt(opts: seq<RawOption>, i: Option<nat>): Option<seq<byte>>
    requires i.Some? ==> i.value < |opts|
  {
    if i.None? then None else Some(opts[i.value].value)
  }

  function U32At(opts: seq<RawOption>, i: Option<nat>): Option<u32>
    requires i.Some? ==> i.value < |opts| && |opts[i.value].value| == 4
  {
    if i.None? then None else Some(Unpack32(opts[i.value].value))
  }

  function TimeAt(opts: seq<RawOption>, i: Option<nat>): Option<i64>
    requires i.Some? ==> i.value < |opts| && |opts[i.value].value| == 8
  {
    if i.None? then None else Some(UnpackI64(opts[i.value].value))
  }

  function U16At(opts: seq<RawOption>, i: Option<nat>): Option<u16>
    requires i.Some? ==> i.value < |opts| && |opts[i.value].value| == 2
  {
    if i.None? then None else Some(Unpack16(opts[i.value].value))
  }

  /** The spans of every decodable span option, one after the other. */
  function SpansIn(utf8: Utf8, opts: seq<RawOption>): seq<Span> {
    if opts == [] then []
    else
      var n := |opts| - 1;
      SpansIn(utf8, opts[..n]) + if Holds(utf8, opts[n], OPT_SPANS) then UnpackSpans(opts[n].value).value else []
  }

  /** A single-valued field is that of the first decodable occurrence of its id. */
  predicate FieldIs(utf8: Utf8, opts: seq<RawOption>, v: Values, id: u16) {
    var first := FirstOf(utf8, opts, id);
    if id == OPT_COMMENT then v.comment == TextAt(opts, first)
    else if id == OPT_SEQ_START then v.seqStart == U32At(opts, first)
    else if id == OPT_ACK then v.ack == U32At(opts, first)
    else if id == OPT_TS_FIRST then v.tsFirst == TimeAt(opts, first)
    else if id == OPT_DECODER_ID then v.decoderId == U16At(opts, first)
    else if id == OPT_CONTENT_TYPE then v.contentType == TextAt(opts, first)
    else id == OPT_ROLE && v.role == TextAt(opts, first)
  }

  predicate FieldsAre(utf8: Utf8, opts: seq<RawOption>, v: Values) {
    forall id :: id in IDS && id != OPT_SPANS ==> FieldIs(utf8, opts, v, id)
  }

  /** Occurrence `i` is read into a field: a decodable span list, or the first of its id that decodes. */
  predicate Taken(utf8: Utf8, opts: seq<RawOption>, i: nat)
    requires i < |opts|
  {
    Known(opts[i].optionId) && Decodes(utf8, opts[i])
    && (opts[i].optionId == OPT_SPANS || FirstOf(utf8, opts, opts[i].optionId) == Some(i))
  }

  /** The positions of all other occurrences, in file order. */
  function Remaining(utf8: Utf8, opts: seq<RawOption>): (at: seq<nat>)
    ensures forall i :: i in at <==> 0 <= i < |opts| && !Taken(utf8, opts, i)
    ensures forall k, l :: 0 <= k < l < |at| ==> at[k] < at[l]
  {
    if opts == [] then []
    else
      var n := |opts| - 1;
      TakenInPrefix(utf8, opts);
      var before := Remaining(utf8, opts[..n]);
      assert forall k :: 0 <= k < |before| ==> before[k] in before;
      if Taken(utf8, opts, n) then before else before + [n]
  }

  lemma TakenInPrefix(utf8: Utf8, opts: seq<RawOption>)
    requires opts != []
    ensures forall i :: 0 <= i < |opts| - 1 ==> (Taken(utf8, opts[..|opts| - 1], i) <==> Taken(utf8, opts, i))
  {
    hide Decodes, Known;
  }

  /** What a region's options are read as: fields, spans and what is kept raw, each by position. */
  predicate ReadsAs(utf8: Utf8, opts: seq<RawOption>, parsed: Parsed) {
    && FieldsAre(utf8, opts, parsed.values) && parsed.values.spans == SpansIn(utf8, opts)
    && var at := Remaining(utf8, opts);
      |parsed.extras| == |at| && forall k :: 0 <= k < |at| ==> at[k] in at && parsed.extras[k] == opts[at[k]]
  }

  /** Folding the options one by one reads them so. */
  lemma {:induction false} FoldReads(utf8: Utf8, opts: seq<RawOption>)
    ensures ReadsAs(utf8, opts, Fold(utf8, Parsed(UNSET, []), opts))
  {
    if opts != [] {
      var n := |opts| - 1;
      FoldReads(utf8, opts[..n]);
      assert opts == opts[..n] + [opts[n]];
      FoldConcat(utf8, Parsed(UNSET, []), opts[..n], [opts[n]]);
      FoldOne(utf8, Fold(utf8, Parsed(UNSET, []), opts[..n]), opts[n]);
      hide Fold, ReadsAs, Step;
      StepReads(utf8, opts, Fold(utf8, Parsed(UNSET, []), opts[..n]));
    }
  }

  /** The first occurrence is the prefix's, or else the last option. */
  lemma FirstSnoc(utf8: Utf8, opts: seq<RawOption>, id: u16)
    requires opts != []
    ensures var n, before := |opts| - 1, FirstOf(utf8, opts[..|opts| - 1], id);
      && FirstOf(utf8, opts, id) == (if before.Some? then before else if Holds(utf8, opts[n], id) then Some(n) else None)
      && (before.Some? ==> opts[..n][before.value] == opts[before.value])
  {
    hide Holds;
  }

  /** A single-valued field is set once an occurrence of its id has decoded. */
  lemma SetIsFirst(utf8: Utf8, opts: seq<RawOption>, v: Values, id: u16)
    requires FieldsAre(utf8, opts, v) && Known(id) && id != OPT_SPANS
    ensures IsSet(v, id) <==> FirstOf(utf8, opts, id).Some?
  {
    assert FieldIs(utf8, opts, v, id);
    hide FirstOf, Unpack16, Unpack32, UnpackI64;
  }

  /** The last option is kept raw iff it is not read into a field. */
  lemma InertIsNotTaken(utf8: Utf8, opts: seq<RawOption>, v: Values)
    requires opts != [] && FieldsAre(utf8, opts[..|opts| - 1], v)
    ensures Inert(utf8, v, opts[|opts| - 1]) <==> !Taken(utf8, opts, |opts| - 1)
  {
    var opt := opts[|opts| - 1];
    FirstSnoc(utf8, opts, opt.optionId);
    if Known(opt.optionId) && opt.optionId != OPT_SPANS {
      SetIsFirst(utf8, opts[..|opts| - 1], v, opt.optionId);
    }
    hide FirstOf, FieldsAre, Decodes, Known;
  }

  lemma FieldsStep(utf8: Utf8, opts: seq<RawOption>, v: Values)
    requires opts != [] && FieldsAre(utf8, opts[..|opts| - 1], v)
    ensures FieldsAre(utf8, opts, Next(utf8, opts, v))
  {
    hide FieldIs, Next;
    forall id | id in IDS && id != OPT_SPANS ensures FieldIs(utf8, opts, Next(utf8, opts, v), id) {
      FieldStep(utf8, opts, v, id);
    }
  }

  /** The fields once the last option has been read. */
  function Next(utf8: Utf8, opts: seq<RawOption>, v: Values): Values
    requires opts != []
  {
    if Taken(utf8, opts, |opts| - 1) then Put(utf8, v, opts[|opts| - 1]) else v
  }

  lemma FieldStep(utf8: Utf8, opts: seq<RawOption>, v: Values, id: u16)
    requires opts != [] && id in IDS && id != OPT_SPANS && FieldIs(utf8, opts[..|opts| - 1], v, id)
    ensures FieldIs(utf8, opts, Next(utf8, opts, v), id)
  {
    var n := |opts| - 1;
    FirstSnoc(utf8, opts, id);
    if Taken(utf8, opts, n) && opts[n].optionId == id {
      TakenFirst(utf8, opts);
      hide FirstOf, Unpack16, Unpack32, UnpackI64, UnpackSpans, Taken;
    } else {
      KeptFirst(utf8, opts, id);
      hide FirstOf, Unpack16, Unpack32, UnpackI64, UnpackSpans, Taken, Decodes;
    }
  }

  /** What is taken as the first of its id was no one's before. */
  lemma TakenFirst(utf8: Utf8, opts: seq<RawOption>)
    requires opts != [] && Taken(utf8, opts, |opts| - 1) && opts[|opts| - 1].optionId != OPT_SPANS
    ensures FirstOf(utf8, opts, opts[|opts| - 1].optionId) == Some(|opts| - 1)
  {
    hide FirstOf, Decodes;
  }

  /** Any other option leaves the first of an id where it was. */
  lemma KeptFirst(utf8: Utf8, opts: seq<RawOption>, id: u16)
    requires opts != [] && id in IDS && id != OPT_SPANS
    requires !(Taken(utf8, opts, |opts| - 1) && opts[|opts| - 1].optionId == id)
    ensures FirstOf(utf8, opts, id) == FirstOf(utf8, opts[..|opts| - 1], id)
  {
    FirstSnoc(utf8, opts, id);
    hide FirstOf, Decodes;
  }

  lemma StepReads(utf8: Utf8, opts: seq<RawOption>, st: Parsed)
    requires opts != [] && ReadsAs(utf8, opts[..|opts| - 1], st)
    ensures ReadsAs(utf8, opts, Step(utf8, st, opts[|opts| - 1]))
  {
    InertIsNotTaken(utf8, opts, st.values);
    FieldsStep(utf8, opts, st.values);
    SpansStep(utf8, opts, st.values);
    hide FirstOf, FieldsAre, Taken, Decodes, Known, UnpackSpans, Put, Inert;
  }

  lemma SpansStep(utf8: Utf8, opts: seq<RawOption>, v: Values)
    requires opts != [] && v.spans == SpansIn(utf8, opts[..|opts| - 1])
    ensures Next(utf8, opts, v).spans == SpansIn(utf8, opts)
  {
    hide *;
    TakenSpans(utf8, opts);
    SpansSnoc(utf8, opts);
    NextSpans(utf8, opts, v);
    assert v.spans + [] == v.spans;
  }

  lemma TakenSpans(utf8: Utf8, opts: seq<RawOption>)
    requires opts != []
    ensures Holds(utf8, opts[|opts| - 1], OPT_SPANS)
       <==> Taken(utf8, opts, |opts| - 1) && opts[|opts| - 1].optionId == OPT_SPANS
  {
    hide Decodes, FirstOf;
  }

  lemma SpansSnoc(utf8: Utf8, opts: seq<RawOption>)
    requires opts != []
    ensures var opt, before := opts[|opts| - 1], SpansIn(utf8, opts[..|opts| - 1]);
      if Holds(utf8, opt, OPT_SPANS)
      then UnpackSpans(opt.value).Some? && SpansIn(utf8, opts) == before + UnpackSpans(opt.value).value
      else SpansIn(utf8, opts) == before + []
  {
    hide UnpackSpans;
  }

  lemma NextSpans(utf8: Utf8, opts: seq<RawOption>, v: Values)
    requires opts != []
    ensures var opt, next := opts[|opts| - 1], Next(utf8, opts, v);
      if Taken(utf8, opts, |opts| - 1) && opt.optionId == OPT_SPANS
      then UnpackSpans(opt.value).Some? && next.spans == v.spans + UnpackSpans(opt.value).value
      else next.spans == v.spans
  {
    hide UnpackSpans, FirstOf, Unpack16, Unpack32, UnpackI64;
  }

  /** `_parse_options`: a dictionary of values and a list of extras, filled option by option. */
  method ParseOptions(utf8: Utf8, data: seq<byte>) returns (parsed: Option<Parsed>)
    ensures parsed.Some? <==> OptionsOf(data).Some?
    ensures parsed.Some? ==> ReadsAs(utf8, OptionsOf(data).value, parsed.value)
    ensures parsed.Some? ==> parsed.value == Fold(utf8, Parsed(UNSET, []), OptionsOf(data).value)
  {
    hide Put, Decodes, OptionsOf, ReadsAs;
    var opts := IterOptions(data);
    if opts.None? {
      return None;
    }
    var values, extras := UNSET, [];
    assert opts.value[0..] == opts.value;
    for n := 0 to |opts.value|
      invariant Fold(utf8, Parsed(UNSET, []), opts.value) == Fold(utf8, Parsed(values, extras), opts.value[n..])
    {
      var opt := opts.value[n];
      assert opts.value[n..][1..] == opts.value[n + 1..];
      if !Known(opt.optionId) {
        extras := extras + [opt];
        continue;
      }
      if !Decodes(utf8, opt) {
        extras := extras + [opt];
        continue;
      }
      if opt.optionId != OPT_SPANS && IsSet(values, opt.optionId) {
        extras := extras + [opt];
      } else {
        values := Put(utf8, values, opt);
      }
    }
    FoldReads(utf8, opts.value);
    return Some(Parsed(values, extras));
  }

  // ----- Encoding: the walk of the table ---------------------------------------------------------

  function ValuesOf(r: Record): Values {
    Values(r.comment, r.seqStart, r.ack, r.tsFirst, r.spans, r.decoderId, r.contentType, r.role)
  }

  function Single(id: u16, value: Option<seq<byte>>): seq<RawOption> {
    if value.None? then [] else [RawOption(id, value.value)]
  }

  function PackU16(v: Option<u16>): Option<seq<byte>> {
    if v.None? then None else Some(Pack(v.value, 2))
  }

  function PackU32(v: Option<u32>): Option<seq<byte>> {
    if v.None? then None else Some(Pack(v.value, 4))
  }

  function PackTime(v: Option<i64>): Option<seq<byte>> {
    if v.None? then None else Some(PackI64(v.value))
  }

  /** The options one entry of the table emits. */
  function PartOf(v: Values, id: u16): seq<RawOption> {
    if id == OPT_COMMENT then Single(id, v.comment)
    else if id == OPT_SEQ_START then Single(id, PackU32(v.seqStart))
    else if id == OPT_ACK then Single(id, PackU32(v.ack))
    else if id == OPT_TS_FIRST then Single(id, PackTime(v.tsFirst))
    else if id == OPT_SPANS then SpanOptions(Chunks(v.spans))
    else if id == OPT_DECODER_ID then Single(id, PackU16(v.decoderId))
    else if id == OPT_CONTENT_TYPE then Single(id, v.contentType)
    else if id == OPT_ROLE then Single(id, v.role)
    else []
  }

  /** The table's entries from the `k`th on. */
  function WalkTable(v: Values, k: nat): seq<RawOption>
    requires k <= |IDS|
    decreases |IDS| - k
  {
    if k == |IDS| then [] else PartOf(v, IDS[k]) + WalkTable(v, k + 1)
  }

  /** A record's options in canonical order: the typed ones, then the preserved extras. */
  function OptionList(r: Record): seq<RawOption> {
    WalkTable(ValuesOf(r), 0) + r.extraOptions
  }

  const BODY_SIZE := 28

  function PackBody(r: Record): (bytes: seq<byte>)
    ensures |bytes| == BODY_SIZE
  {
    Pack(r.sessionId, 8) + Pack(r.senderPid, 2) + Pack(r.sourceId, 2) + PackI64(r.timestamp)
    + Pack(0, 2) + Pack(r.flags, 2) + Pack(|r.payload|, 4)
  }

  /** The record can be written: its payload length is a u32 and every option value fits. */
  predicate Encodable(r: Record) {
    |r.payload| < U32_END && AllFit(OptionList(r))
  }

  function Encode(r: Record): seq<byte>
    requires Encodable(r)
  {
    PackBody(r) + Padded(r.payload) + EncodeAll(OptionList(r))
  }

  /** `Record._parse`, or None where the content is structurally broken. */
  function Parse(utf8: Utf8, content: seq<byte>): Option<Record> {
    if |content| < BODY_SIZE then None
    else
      var size := Unpack32(content[24..28]);
      if BODY_SIZE + size > |content| || BODY_SIZE + size + Pad4(size) > |content| then None
      else
        var options := OptionsOf(content[BODY_SIZE + size + Pad4(size)..]);
        if options.None? then None
        else
          var parsed := Fold(utf8, Parsed(UNSET, []), options.value);
          var v := parsed.values;
          Some(Record(Unpack64(content[..8]), Unpack16(content[8..10]), Unpack16(content[10..12]),
                      UnpackI64(content[12..20]), content[BODY_SIZE..BODY_SIZE + size], Unpack16(content[22..24]),
                      v.seqStart, v.ack, v.tsFirst, v.spans, v.decoderId, v.contentType, v.role, v.comment, parsed.extras))
  }

  // ----- Reading back what was written ---------------------------------------------------------------

  /** The typed fields hold what their types allow: text is UTF-8, no span is reversed. */
  predicate FieldsValid(utf8: Utf8, v: Values) {
    && (v.comment.Some? ==> utf8(v.comment.value)) && (v.contentType.Some? ==> utf8(v.contentType.value))
    && (v.role.Some? ==> utf8(v.role.value)) && AllWellFormed(v.spans)
  }

  /** The fields of the table's first `k` entries. */
  function Filled(v: Values, k: nat): Values {
    Values(
      if k > 0 then v.comment else None, if k > 1 then v.seqStart else None, if k > 2 then v.ack else None,
      if k > 3 then v.tsFirst else None, if k > 4 then v.spans else [], if k > 5 then v.decoderId else None,
      if k > 6 then v.contentType else None, if k > 7 then v.role else None)
  }

  /** A recognized, well-formed option of an unset field sets it. */
  lemma OneFills(utf8: Utf8, st: Parsed, opt: RawOption)
    requires Known(opt.optionId) && Decodes(utf8, opt) && !IsSet(st.values, opt.optionId)
    ensures Fold(utf8, st, [opt]) == Parsed(Put(utf8, st.values, opt), st.extras)
  {
    FoldOne(utf8, st, opt);
    hide Put, Fold, Decodes;
  }

  /** What one single-valued entry emits decodes into its own field. */
  lemma EntryReadBack(utf8: Utf8, v: Values, k: nat)
    requires k < |IDS| && k != 4 && FieldsValid(utf8, v)
    ensures var part, before := PartOf(v, IDS[k]), Filled(v, k);
      && (part == [] ==> Filled(v, k + 1) == before)
      && (part != [] ==>
            && |part| == 1 && Known(part[0].optionId) && Decodes(utf8, part[0]) && !IsSet(before, part[0].optionId)
            && Put(utf8, before, part[0]) == Filled(v, k + 1))
  {
    FieldReadBack(v);
    hide Pack, PackI64, Unpack16, Unpack32, UnpackI64, UnpackSpans, AllWellFormed;
    if k == 0 {
    } else if k == 1 {
    } else if k == 2 {
    } else if k == 3 {
    } else if k == 5 {
    } else if k == 6 {
    } else {
      assert k == 7;
    }
  }

  /** The span list's own field starts empty and takes the list. */
  lemma SpansEntry(v: Values)
    ensures PartOf(v, IDS[4]) == SpanOptions(Chunks(v.spans)) && Filled(v, 4).spans == []
    ensures Filled(v, 4).(spans := v.spans) == Filled(v, 5)
  {
    hide SpanOptions, Chunks;
  }

  /** Reading the options of one entry fills its field and nothing else. */
  lemma PartFills(utf8: Utf8, v: Values, k: nat)
    requires k < |IDS| && FieldsValid(utf8, v)
    ensures Fold(utf8, Parsed(Filled(v, k), []), PartOf(v, IDS[k])) == Parsed(Filled(v, k + 1), [])
  {
    var before := Parsed(Filled(v, k), []);
    if k == 4 {
      assert AllWellFormed(v.spans);
      SpansEntry(v);
      hide *;
      SpansFill(utf8, before, v.spans);
      assert [] + v.spans == v.spans;
    } else {
      var part := PartOf(v, IDS[k]);
      EntryReadBack(utf8, v, k);
      hide *;
      if part == [] {
        NothingFolded(utf8, before);
      } else {
        assert part == [part[0]];
        OneFills(utf8, before, part[0]);
      }
    }
  }

  lemma NothingFolded(utf8: Utf8, st: Parsed)
    ensures Fold(utf8, st, []) == st
  {
  }

  /** Every fixed-width field decodes to what was encoded. */
  lemma FieldReadBack(v: Values)
    ensures v.seqStart.Some? ==> Unpack32(Pack(v.seqStart.value, 4)) == v.seqStart.value
    ensures v.ack.Some? ==> Unpack32(Pack(v.ack.value, 4)) == v.ack.value
    ensures v.tsFirst.Some? ==> UnpackI64(PackI64(v.tsFirst.value)) == v.tsFirst.value
    ensures v.decoderId.Some? ==> Unpack16(Pack(v.decoderId.value, 2)) == v.decoderId.value
  {
    hide Pack, PackI64, Unpack16, Unpack32, UnpackI64;
    if v.seqStart.Some? {
      UnpackPack32(v.seqStart.value);
    }
    if v.ack.Some? {
      UnpackPack32(v.ack.value);
    }
    if v.tsFirst.Some? {
      UnpackPackI64(v.tsFirst.value);
    }
    if v.decoderId.Some? {
      UnpackPack16(v.decoderId.value);
    }
  }

  /** The span options concatenate to the list that was split, whatever its length. */
  lemma {:induction false} SpansFill(utf8: Utf8, st: Parsed, spans: seq<Span>)
    requires AllWellFormed(spans)
    ensures Fold(utf8, st, SpanOptions(Chunks(spans)))
         == Parsed(st.values.(spans := st.values.spans + spans), st.extras)
    decreases |spans|
  {
    hide PackSpans, UnpackSpans;
    if spans == [] {
      assert st.values.spans + spans == st.values.spans;
    } else {
      var n := Min(|spans|, MAX_SPANS_PER_OPTION);
      var opt := RawOption(OPT_SPANS, PackSpans(spans[..n]));
      SpansRoundTrip(spans[..n]);
      var next := Parsed(st.values.(spans := st.values.spans + spans[..n]), st.extras);
      assert Step(utf8, st, opt) == next;
      SpansFill(utf8, next, spans[n..]);
      assert SpanOptions(Chunks(spans)) == [opt] + SpanOptions(Chunks(spans[n..]));
      assert st.values.spans + spans[..n] + spans[n..] == st.values.spans + spans;
    }
  }

  lemma {:induction false} WalkFills(utf8: Utf8, v: Values, k: nat)
    requires k <= |IDS| && FieldsValid(utf8, v)
    ensures Fold(utf8, Parsed(Filled(v, k), []), WalkTable(v, k)) == Parsed(v, [])
    decreases |IDS| - k
  {
    if k == |IDS| {
      NothingFolded(utf8, Parsed(v, []));
      assert Filled(v, k) == v;
      hide Fold;
    } else {
      PartFills(utf8, v, k);
      WalkFills(utf8, v, k + 1);
      FoldConcat(utf8, Parsed(Filled(v, k), []), PartOf(v, IDS[k]), WalkTable(v, k + 1));
      hide Fold, Filled, PartOf;
    }
  }

  predicate AllInert(utf8: Utf8, v: Values, opts: seq<RawOption>) {
    forall k :: 0 <= k < |opts| ==> Inert(utf8, v, opts[k])
  }

  /** Extras stay extras iff each of them is one the parser would keep raw. */
  lemma {:induction false} ExtrasStay(utf8: Utf8, st: Parsed, opts: seq<RawOption>)
    ensures |Fold(utf8, st, opts).extras| <= |st.extras| + |opts|
    ensures AllInert(utf8, st.values, opts) ==> Fold(utf8, st, opts) == Parsed(st.values, st.extras + opts)
    ensures !AllInert(utf8, st.values, opts) ==> |Fold(utf8, st, opts).extras| < |st.extras| + |opts|
    decreases |opts|
  {
    hide Inert, Put;
    if opts == [] {
      assert st.extras + opts == st.extras;
    } else {
      var next := Step(utf8, st, opts[0]);
      ExtrasStay(utf8, next, opts[1..]);
      assert forall k :: 0 <= k < |opts[1..]| ==> opts[1..][k] == opts[k + 1];
      assert st.extras + opts == st.extras + [opts[0]] + opts[1..];
      if Inert(utf8, st.values, opts[0]) {
        assert AllInert(utf8, st.values, opts) <==> AllInert(utf8, st.values, opts[1..]);
      }
    }
  }

  /** Fields only get set, so what was kept raw stays one the parser would keep raw. */
  lemma SetStaysSet(utf8: Utf8, v: Values, opt: RawOption, other: RawOption)
    requires Known(opt.optionId) && Decodes(utf8, opt) && Inert(utf8, v, other)
    ensures Inert(utf8, Put(utf8, v, opt), other)
  {
    hide Decodes;
  }

  /** Everything parsing produces: extras kept raw for a reason, text that decodes, spans in order. */
  ghost predicate Produced(utf8: Utf8, st: Parsed) {
    AllInert(utf8, st.values, st.extras) && FieldsValid(utf8, st.values)
  }

  lemma StepProduces(utf8: Utf8, st: Parsed, opt: RawOption)
    requires Produced(utf8, st)
    ensures Produced(utf8, Step(utf8, st, opt))
  {
    if Inert(utf8, st.values, opt) {
      assert forall k :: 0 <= k < |st.extras| ==> (st.extras + [opt])[k] == st.extras[k];
    } else {
      forall k | 0 <= k < |st.extras| ensures Inert(utf8, Put(utf8, st.values, opt), st.extras[k]) {
        SetStaysSet(utf8, st.values, opt, st.extras[k]);
      }
      PutValid(utf8, st.values, opt);
      hide Put, Inert, FieldsValid;
    }
  }

  lemma PutValid(utf8: Utf8, v: Values, opt: RawOption)
    requires FieldsValid(utf8, v) && Known(opt.optionId) && Decodes(utf8, opt)
    ensures FieldsValid(utf8, Put(utf8, v, opt))
  {
    hide UnpackSpans, Unpack16, Unpack32, UnpackI64;
  }

  lemma {:induction false} FoldProduces(utf8: Utf8, st: Parsed, opts: seq<RawOption>)
    requires Produced(utf8, st)
    ensures Produced(utf8, Fold(utf8, st, opts))
    decreases |opts|
  {
    hide Produced, Step;
    if opts != [] {
      StepProduces(utf8, st, opts[0]);
      FoldProduces(utf8, Step(utf8, st, opts[0]), opts[1..]);
    }
  }

  /** Values read under the cap are written back under it. */
  ghost predicate TextFits(v: Values) {
    && (v.comment.Some? ==> |v.comment.value| <= MAX_OPTION_VALUE)
    && (v.contentType.Some? ==> |v.contentType.value| <= MAX_OPTION_VALUE)
    && (v.role.Some? ==> |v.role.value| <= MAX_OPTION_VALUE)
  }

  lemma {:induction false} FoldFits(utf8: Utf8, st: Parsed, opts: seq<RawOption>)
    requires TextFits(st.values) && AllFit(st.extras) && AllFit(opts)
    ensures TextFits(Fold(utf8, st, opts).values) && AllFit(Fold(utf8, st, opts).extras)
    decreases |opts|
  {
    if opts != [] {
      var next := Step(utf8, st, opts[0]);
      assert Fits(opts[0]);
      assert TextFits(next.values) && AllFit(next.extras) by {
        hide Decodes, UnpackSpans, Unpack16, Unpack32, UnpackI64, Fold;
      }
      hide Step, TextFits, Fits;
      assert forall k :: 0 <= k < |opts[1..]| ==> opts[1..][k] == opts[k + 1];
      FoldFits(utf8, next, opts[1..]);
    }
  }

  /** Every typed option fits its cap, a split span list included. */
  lemma {:induction false} SpanOptionsFit(spans: seq<Span>)
    ensures AllFit(SpanOptions(Chunks(spans)))
    decreases |spans|
  {
    if spans != [] {
      var n := Min(|spans|, MAX_SPANS_PER_OPTION);
      SpanOptionsFit(spans[n..]);
      assert SpanOptions(Chunks(spans)) == [RawOption(OPT_SPANS, PackSpans(spans[..n]))] + SpanOptions(Chunks(spans[n..]));
    }
  }

  lemma FitsAfter(a: seq<RawOption>, b: seq<RawOption>)
    ensures AllFit(a + b) <==> AllFit(a) && AllFit(b)
  {
    hide Fits;
    assert forall k :: 0 <= k < |a| ==> (a + b)[k] == a[k];
    assert forall k :: 0 <= k < |b| ==> (a + b)[|a| + k] == b[k];
    assert forall k :: 0 <= k < |a + b| ==> (a + b)[k] == if k < |a| then a[k] else b[k - |a|];
  }

  lemma PartFits(v: Values, k: nat)
    requires k < |IDS|
    ensures TextFits(v) ==> AllFit(PartOf(v, IDS[k]))
    ensures k == 0 || k == 6 || k == 7 || AllFit(PartOf(v, IDS[k]))
    ensures AllFit(PartOf(v, IDS[0])) && AllFit(PartOf(v, IDS[6])) && AllFit(PartOf(v, IDS[7])) ==> TextFits(v)
  {
    SpanOptionsFit(v.spans);
    hide Pack, PackI64, SpanOptions, Chunks;
    TextFitsIff(v);
  }

  lemma TextFitsIff(v: Values)
    ensures TextFits(v) <==>
      && AllFit(Single(OPT_COMMENT, v.comment)) && AllFit(Single(OPT_CONTENT_TYPE, v.contentType))
      && AllFit(Single(OPT_ROLE, v.role))
  {
    SingleFits(OPT_COMMENT, v.comment);
    SingleFits(OPT_CONTENT_TYPE, v.contentType);
    SingleFits(OPT_ROLE, v.role);
    hide Single, AllFit;
  }

  lemma SingleFits(id: u16, value: Option<seq<byte>>)
    ensures AllFit(Single(id, value)) <==> (value.Some? ==> |value.value| <= MAX_OPTION_VALUE)
  {
    if value.Some? && AllFit(Single(id, value)) {
      assert Fits(Single(id, value)[0]);
    }
  }

  lemma {:induction false} WalkFits(v: Values, k: nat)
    requires k <= |IDS| && TextFits(v)
    ensures AllFit(WalkTable(v, k))
    decreases |IDS| - k
  {
    hide PartOf, TextFits, AllFit;
    if k == |IDS| {
      NoneFit();
    } else {
      PartFits(v, k);
      WalkFits(v, k + 1);
      FitsAfter(PartOf(v, IDS[k]), WalkTable(v, k + 1));
    }
  }

  lemma NoneFit()
    ensures AllFit([])
  {
  }

  /** Cutting a body, a padded payload and the rest apart again. */
  lemma CutApart(body: seq<byte>, payload: seq<byte>, pad: seq<byte>, rest: seq<byte>)
    requires |body| == BODY_SIZE
    ensures var content, size := body + (payload + pad) + rest, |payload|;
      && |content| == BODY_SIZE + size + |pad| + |rest|
      && content[..8] == body[..8] && content[8..10] == body[8..10] && content[10..12] == body[10..12]
      && content[12..20] == body[12..20] && content[22..24] == body[22..24] && content[24..28] == body[24..28]
      && content[BODY_SIZE..BODY_SIZE + size] == payload && content[BODY_SIZE + size + |pad|..] == rest
  {
  }

  lemma SizeReadBack(r: Record)
    requires |r.payload| < U32_END
    ensures Unpack32(PackBody(r)[24..28]) == |r.payload|
  {
    UnpackPack32(|r.payload|);
    hide Pack, PackI64, Unpack32;
    assert PackBody(r)[24..28] == Pack(|r.payload|, 4);
  }

  lemma BodyReadBack(r: Record, body: seq<byte>)
    requires |r.payload| < U32_END && body == PackBody(r)
    ensures Unpack64(body[..8]) == r.sessionId && Unpack16(body[8..10]) == r.senderPid
    ensures Unpack16(body[10..12]) == r.sourceId && UnpackI64(body[12..20]) == r.timestamp
    ensures Unpack16(body[22..24]) == r.flags
  {
    UnpackPack64(r.sessionId);
    UnpackPack16(r.senderPid);
    UnpackPack16(r.sourceId);
    UnpackPackI64(r.timestamp);
    UnpackPack16(r.flags);
    hide Pack, PackI64, Unpack16, Unpack64, UnpackI64;
    assert body[..8] == Pack(r.sessionId, 8) && body[8..10] == Pack(r.senderPid, 2);
    assert body[10..12] == Pack(r.sourceId, 2) && body[12..20] == PackI64(r.timestamp);
    assert body[22..24] == Pack(r.flags, 2);
  }

  /** What parsing an encoded record gives: its own body and payload, and its options folded again. */
  lemma ParsedBack(utf8: Utf8, r: Record)
    requires Encodable(r) && FieldsValid(utf8, ValuesOf(r))
    ensures var st := Fold(utf8, Parsed(ValuesOf(r), []), r.extraOptions);
            var v := st.values;
      Parse(utf8, Encode(r))
      == Some(Record(r.sessionId, r.senderPid, r.sourceId, r.timestamp, r.payload, r.flags, v.seqStart, v.ack, v.tsFirst,
                     v.spans, v.decoderId, v.contentType, v.role, v.comment, st.extras))
  {
    hide Fold, WalkTable, PackBody, OptionsOf, Unpack16, Unpack32, Unpack64, UnpackI64, FieldsValid, EncodeAll, AllFit, Pack, PackI64;
    CutApart(PackBody(r), r.payload, Zeros(Pad4(|r.payload|)), EncodeAll(OptionList(r)));
    SizeReadBack(r);
    BodyReadBack(r, PackBody(r));
    OptionsReadBack(utf8, r);
    hide Zeros, Pad4, OptionList;
  }

  lemma OptionsReadBack(utf8: Utf8, r: Record)
    requires AllFit(OptionList(r)) && FieldsValid(utf8, ValuesOf(r))
    ensures OptionsOf(EncodeAll(OptionList(r))) == Some(OptionList(r))
    ensures Fold(utf8, Parsed(UNSET, []), OptionList(r)) == Fold(utf8, Parsed(ValuesOf(r), []), r.extraOptions)
  {
    OptionsRoundTrip(OptionList(r));
    FoldConcat(utf8, Parsed(UNSET, []), WalkTable(ValuesOf(r), 0), r.extraOptions);
    WalkFills(utf8, ValuesOf(r), 0);
    assert Filled(ValuesOf(r), 0) == UNSET;
    hide Fold, WalkTable, OptionsOf, EncodeAll, AllFit, FieldsValid, Filled;
  }

  /** Writing and reading back gives the same record iff every extra is one the parser would keep raw. */
  lemma RoundTripIff(utf8: Utf8, r: Record)
    requires Encodable(r) && FieldsValid(utf8, ValuesOf(r))
    ensures Parse(utf8, Encode(r)) == Some(r) <==> AllInert(utf8, ValuesOf(r), r.extraOptions)
  {
    ParsedBack(utf8, r);
    ExtrasStay(utf8, Parsed(ValuesOf(r), []), r.extraOptions);
    assert [] + r.extraOptions == r.extraOptions;
    hide Fold, Parse, Encode, AllInert, FieldsValid;
  }

  /** Whatever parses can be written again, and reads back as the same fields and the same extras. */
  lemma ReencodingIsStable(utf8: Utf8, content: seq<byte>)
    requires Parse(utf8, content).Some?
    ensures var r := Parse(utf8, content).value;
      Encodable(r) && Parse(utf8, Encode(r)) == Some(r)
  {
    var r := Parse(utf8, content).value;
    var size := Unpack32(content[24..28]);
    var region := content[BODY_SIZE + size + Pad4(size)..];
    var start := Parsed(UNSET, []);
    var st := Fold(utf8, start, OptionsOf(region).value);
    assert ValuesOf(r) == st.values && r.extraOptions == st.extras && |r.payload| == size;
    ReadOptionsFit(region);
    FoldFits(utf8, start, OptionsOf(region).value);
    FoldProduces(utf8, start, OptionsOf(region).value);
    WalkFits(ValuesOf(r), 0);
    FitsAfter(WalkTable(ValuesOf(r), 0), r.extraOptions);
    hide Fold, Parse, Encode, WalkTable, AllFit, OptionsOf, Unpack32;
    RoundTripIff(utf8, r);
  }

  lemma {:induction false} OptionsAligned(opts: seq<RawOption>)
    requires AllFit(opts)
    ensures |EncodeAll(opts)| % 4 == 0
  {
    hide Pack, Zeros;
    if opts != [] {
      OptionsAligned(opts[1..]);
      var size := |opts[0].value|;
      assert |EncodeOption(opts[0])| == 4 + (size + Pad4(size));
    }
  }

  lemma PartsAligned(body: seq<byte>, payload: seq<byte>, options: seq<byte>)
    requires |body| == BODY_SIZE && |options| % 4 == 0
    ensures |body + Padded(payload) + options| % 4 == 0
  {
    hide Zeros;
    var padded := |payload| + Pad4(|payload|);
    assert padded % 4 == 0;
  }

  /** A record's content is a whole number of 4-byte words. */
  lemma EncodedIsAligned(r: Record)
    requires Encodable(r)
    ensures |Encode(r)| % 4 == 0
  {
    assert |r.payload| < U32_END && AllFit(OptionList(r));
    hide *;
    EncodeIs(r);
    OptionsAligned(OptionList(r));
    PartsAligned(PackBody(r), r.payload, EncodeAll(OptionList(r)));
  }

  // ----- The encoder written by hand ---------------------------------------------------------------------

  /** Add one option, unless its value is too long to encode. */
  method Emit(bytes: seq<byte>, opt: RawOption, ghost head: seq<byte>, ghost opts: seq<RawOption>)
    returns (out: Option<seq<byte>>)
    requires AllFit(opts) && bytes == head + EncodeAll(opts)
    ensures out.Some? <==> AllFit(opts + [opt])
    ensures out.Some? ==> out.value == head + EncodeAll(opts + [opt])
  {
    hide EncodeAll, EncodeOption, AllFit;
    FitsAfter(opts, [opt]);
    FitsOne(opt);
    if |opt.value| > MAX_OPTION_VALUE {
      return None;
    }
    EncodeConcat(opts, [opt]);
    EncodeOne(opt);
    assert head + EncodeAll(opts) + EncodeOption(opt) == head + (EncodeAll(opts) + EncodeOption(opt));
    return Some(bytes + EncodeOption(opt));
  }

  lemma FitsOne(opt: RawOption)
    ensures AllFit([opt]) <==> Fits(opt)
  {
    assert [opt][0] == opt;
  }

  lemma EncodeOne(opt: RawOption)
    requires Fits(opt) && AllFit([opt])
    ensures EncodeAll([opt]) == EncodeOption(opt)
  {
    assert [opt][1..] == [];
    assert EncodeOption(opt) + [] == EncodeOption(opt);
  }

  /** A fixed-width option packed in one go is what the generic option encoder writes. */
  lemma PackedWhole(id: u16, value: seq<byte>)
    requires |value| in {2, 4, 8}
    ensures Fits(RawOption(id, value))
    ensures |value| == 2 ==> EncodeOption(RawOption(id, value)) == Pack(id, 2) + Pack(2, 2) + value + [0, 0]
    ensures |value| == 4 ==> EncodeOption(RawOption(id, value)) == Pack(id, 2) + Pack(4, 2) + value
    ensures |value| == 8 ==> EncodeOption(RawOption(id, value)) == Pack(id, 2) + Pack(8, 2) + value
  {
    hide Pack;
    if |value| == 2 {
      assert Zeros(2) == [0] + Zeros(1) == [0, 0] by {
        assert Zeros(1) == [0] + Zeros(0);
      }
      assert Padded(value) == value + [0, 0];
    } else {
      assert Padded(value) == value + [] == value;
    }
  }

  /** What has been written: a head, then these options. */
  ghost predicate Written(bytes: seq<byte>, head: seq<byte>, opts: seq<RawOption>) {
    AllFit(opts) && bytes == head + EncodeAll(opts)
  }

  method AppendText(bytes: seq<byte>, id: u16, value: Option<seq<byte>>, ghost head: seq<byte>, ghost opts: seq<RawOption>)
    returns (out: Option<seq<byte>>)
    requires Written(bytes, head, opts)
    ensures out.Some? <==> AllFit(opts + Single(id, value))
    ensures out.Some? ==> Written(out.value, head, opts + Single(id, value))
  {
    hide EncodeAll, AllFit;
    if value.None? {
      assert opts + [] == opts;
      return Some(bytes);
    }
    out := Emit(bytes, RawOption(id, value.value), head, opts);
  }

  method AppendFixed(bytes: seq<byte>, id: u16, value: Option<seq<byte>>, ghost head: seq<byte>, ghost opts: seq<RawOption>)
    returns (out: seq<byte>)
    requires Written(bytes, head, opts) && (value.Some? ==> |value.value| in {2, 4, 8})
    ensures Written(out, head, opts + Single(id, value))
  {
    hide EncodeAll, AllFit, EncodeOption, Pack, Fits;
    if value.None? {
      assert opts + [] == opts;
      return bytes;
    }
    ghost var opt := RawOption(id, value.value);
    PackedWhole(id, value.value);
    FitsAfter(opts, [opt]);
    FitsOne(opt);
    EncodeConcat(opts, [opt]);
    EncodeOne(opt);
    var whole := Pack(id, 2) + Pack(|value.value|, 2) + value.value + if |value.value| == 2 then [0, 0] else [];
    assert whole == EncodeOption(opt);
    assert head + EncodeAll(opts) + EncodeOption(opt) == head + (EncodeAll(opts) + EncodeOption(opt));
    out := bytes + whole;
  }

  method AppendSpans(bytes: seq<byte>, spans: seq<Span>, ghost head: seq<byte>, ghost opts: seq<RawOption>)
    returns (out: seq<byte>)
    requires Written(bytes, head, opts)
    ensures Written(out, head, opts + SpanOptions(Chunks(spans)))
  {
    var chunks := Chunks(spans);
    out := bytes;
    SpanOptionsFit(spans);
    FitsAfter(opts, SpanOptions(chunks));
    hide EncodeAll, AllFit, Chunks, PackSpans;
    assert SpanOptions(chunks[..0]) == [] && opts + [] == opts;
    for n := 0 to |chunks|
      invariant Written(out, head, opts + SpanOptions(chunks[..n]))
    {
      var opt := RawOption(OPT_SPANS, PackSpans(chunks[n]));
      SpanOptionsSnoc(chunks, n);
      SpanOptionsPrefix(chunks, n + 1);
      FitsAfter(opts + SpanOptions(chunks[..n + 1]), SpanOptions(chunks[n + 1..]));
      assert opts + SpanOptions(chunks[..n + 1]) + SpanOptions(chunks[n + 1..]) == opts + SpanOptions(chunks);
      assert opts + SpanOptions(chunks[..n]) + [opt] == opts + SpanOptions(chunks[..n + 1]);
      var next := Emit(out, opt, head, opts + SpanOptions(chunks[..n]));
      out := next.value;
    }
    assert chunks[..|chunks|] == chunks;
  }

  lemma {:induction false} SpanOptionsSnoc(chunks: seq<seq<Span>>, n: nat)
    requires n < |chunks|
    ensures SpanOptions(chunks[..n + 1]) == SpanOptions(chunks[..n]) + [RawOption(OPT_SPANS, PackSpans(chunks[n]))]
  {
    hide PackSpans;
    if n > 0 {
      SpanOptionsSnoc(chunks[1..], n - 1);
      TailOfTake(chunks, n + 1);
      TailOfTake(chunks, n);
      assert chunks[..n][0] == chunks[..n + 1][0] == chunks[0];
    }
  }

  lemma TailOfTake<T>(s: seq<T>, n: nat)
    requires 0 < n <= |s|
    ensures s[..n][1..] == s[1..][..n - 1]
  {
  }

  lemma {:induction false} SpanOptionsPrefix(chunks: seq<seq<Span>>, n: nat)
    requires n <= |chunks|
    ensures SpanOptions(chunks) == SpanOptions(chunks[..n]) + SpanOptions(chunks[n..])
  {
    hide PackSpans;
    if n > 0 {
      SpanOptionsPrefix(chunks[1..], n - 1);
      assert chunks[..n][1..] == chunks[1..][..n - 1] && chunks[1..][n - 1..] == chunks[n..];
    } else {
      assert chunks[0..] == chunks;
    }
  }

  method AppendExtras(bytes: seq<byte>, extras: seq<RawOption>, ghost head: seq<byte>, ghost opts: seq<RawOption>)
    returns (out: Option<seq<byte>>)
    requires Written(bytes, head, opts)
    ensures out.Some? <==> AllFit(opts + extras)
    ensures out.Some? ==> Written(out.value, head, opts + extras)
  {
    hide EncodeAll, AllFit;
    out := Some(bytes);
    assert opts + extras[..0] == opts;
    for n := 0 to |extras|
      invariant out.Some? && Written(out.value, head, opts + extras[..n])
    {
      assert opts + extras[..n] + [extras[n]] == opts + extras[..n + 1];
      out := Emit(out.value, extras[n], head, opts + extras[..n]);
      if out.None? {
        FitsAfter(opts + extras[..n + 1], extras[n + 1..]);
        assert opts + extras[..n + 1] + extras[n + 1..] == opts + extras;
        return;
      }
    }
    assert extras[..|extras|] == extras;
  }

  /** The typed options, spelled out in the order the encoder writes them. */
  lemma TableUnrolled(v: Values)
    ensures WalkTable(v, 0)
         == Single(OPT_COMMENT, v.comment) + Single(OPT_SEQ_START, PackU32(v.seqStart)) + Single(OPT_ACK, PackU32(v.ack))
            + Single(OPT_TS_FIRST, PackTime(v.tsFirst)) + SpanOptions(Chunks(v.spans))
            + Single(OPT_DECODER_ID, PackU16(v.decoderId)) + Single(OPT_CONTENT_TYPE, v.contentType)
            + Single(OPT_ROLE, v.role)
  {
    hide Single, SpanOptions, Chunks, PackU16, PackU32, PackTime;
    assert WalkTable(v, 8) == [];
    assert Single(OPT_ROLE, v.role) + [] == Single(OPT_ROLE, v.role);
    assert WalkTable(v, 6) == Single(OPT_CONTENT_TYPE, v.contentType) + (Single(OPT_ROLE, v.role) + []);
    assert WalkTable(v, 4) == SpanOptions(Chunks(v.spans)) + (Single(OPT_DECODER_ID, PackU16(v.decoderId)) + WalkTable(v, 6));
    assert WalkTable(v, 2) == Single(OPT_ACK, PackU32(v.ack)) + (Single(OPT_TS_FIRST, PackTime(v.tsFirst)) + WalkTable(v, 4));
    assert WalkTable(v, 0)
        == Single(OPT_COMMENT, v.comment) + (Single(OPT_SEQ_START, PackU32(v.seqStart)) + WalkTable(v, 2));
  }

  /** The whole option list, cut where the encoder may have to give up. */
  lemma WholeList(r: Record)
    ensures var p0 := Single(OPT_COMMENT, r.comment);
            var p6 := p0 + Single(OPT_SEQ_START, PackU32(r.seqStart)) + Single(OPT_ACK, PackU32(r.ack))
                         + Single(OPT_TS_FIRST, PackTime(r.tsFirst)) + SpanOptions(Chunks(r.spans))
                         + Single(OPT_DECODER_ID, PackU16(r.decoderId)) + Single(OPT_CONTENT_TYPE, r.contentType);
      && OptionList(r) == p6 + Single(OPT_ROLE, r.role) + r.extraOptions
      && OptionList(r) == p6 + (Single(OPT_ROLE, r.role) + r.extraOptions)
      && |p0| <= |OptionList(r)| && OptionList(r) == p0 + OptionList(r)[|p0|..]
  {
    TableUnrolled(ValuesOf(r));
    hide WalkTable, Single, SpanOptions, Chunks, PackU16, PackU32, PackTime;
  }

  /** If a prefix of the options does not fit, the list does not. */
  lemma PrefixFits(r: Record, prefix: seq<RawOption>, rest: seq<RawOption>)
    requires OptionList(r) == prefix + rest
    ensures !AllFit(prefix) ==> !AllFit(OptionList(r))
  {
    hide OptionList;
    FitsAfter(prefix, rest);
  }

  /** `Record._encode`: byte for byte what the walk of the table writes, and refused exactly when it is. */
  method EncodeByHand(r: Record) returns (bytes: Option<seq<byte>>)
    requires |r.payload| < U32_END
    ensures bytes == if Encodable(r) then Some(Encode(r)) else None
  {
    hide *;
    ghost var head := PackBody(r) + Padded(r.payload);
    ghost var p0 := Single(OPT_COMMENT, r.comment);
    ghost var p1 := p0 + Single(OPT_SEQ_START, PackU32(r.seqStart));
    ghost var p2 := p1 + Single(OPT_ACK, PackU32(r.ack));
    ghost var p3 := p2 + Single(OPT_TS_FIRST, PackTime(r.tsFirst));
    ghost var p4 := p3 + SpanOptions(Chunks(r.spans));
    ghost var p5 := p4 + Single(OPT_DECODER_ID, PackU16(r.decoderId));
    ghost var p6 := p5 + Single(OPT_CONTENT_TYPE, r.contentType);
    ghost var p7 := p6 + Single(OPT_ROLE, r.role);
    EncodeIs(r);
    WholeList(r);
    PrefixFits(r, p0, OptionList(r)[|p0|..]);
    PrefixFits(r, p6, Single(OPT_ROLE, r.role) + r.extraOptions);
    PrefixFits(r, p7, r.extraOptions);
    NothingWritten(head);
    WidthsOf(r);
    assert [] + p0 == p0;
    bytes := AppendText(PackBody(r) + Padded(r.payload), OPT_COMMENT, r.comment, head, []);
    if bytes.None? {
      return;
    }
    var out := AppendFixed(bytes.value, OPT_SEQ_START, PackU32(r.seqStart), head, p0);
    out := AppendFixed(out, OPT_ACK, PackU32(r.ack), head, p1);
    out := AppendFixed(out, OPT_TS_FIRST, PackTime(r.tsFirst), head, p2);
    out := AppendSpans(out, r.spans, head, p3);
    out := AppendFixed(out, OPT_DECODER_ID, PackU16(r.decoderId), head, p4);
    bytes := AppendText(out, OPT_CONTENT_TYPE, r.contentType, head, p5);
    if bytes.None? {
      return;
    }
    bytes := AppendText(bytes.value, OPT_ROLE, r.role, head, p6);
    if bytes.None? {
      return;
    }
    bytes := AppendExtras(bytes.value, r.extraOptions, head, p7);
    WrittenIs(r, head, bytes);
  }

  lemma EncodeIs(r: Record)
    requires |r.payload| < U32_END
    ensures Encodable(r) <==> AllFit(OptionList(r))
    ensures Encodable(r) ==> Encode(r) == PackBody(r) + Padded(r.payload) + EncodeAll(OptionList(r))
  {
    hide EncodeAll, AllFit, OptionList;
  }

  lemma NothingWritten(head: seq<byte>)
    ensures Written(head, head, [])
  {
    assert head + [] == head;
  }

  lemma WidthsOf(r: Record)
    ensures PackU32(r.seqStart).Some? ==> |PackU32(r.seqStart).value| == 4
    ensures PackU32(r.ack).Some? ==> |PackU32(r.ack).value| == 4
    ensures PackTime(r.tsFirst).Some? ==> |PackTime(r.tsFirst).value| == 8
    ensures PackU16(r.decoderId).Some? ==> |PackU16(r.decoderId).value| == 2
  {
  }

  lemma WrittenIs(r: Record, head: seq<byte>, bytes: Option<seq<byte>>)
    requires |r.payload| < U32_END && head == PackBody(r) + Padded(r.payload)
    requires bytes.Some? <==> AllFit(OptionList(r))
    requires bytes.Some? ==> Written(bytes.value, head, OptionList(r))
    ensures bytes == if Encodable(r) then Some(Encode(r)) else None
  {
    EncodeIs(r);
    hide EncodeAll, AllFit, OptionList, Encode, Encodable;
  }
}
