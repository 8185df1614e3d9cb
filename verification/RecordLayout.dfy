/**
 * Where everything sits in the bytes of a Record block: integers digit by digit, options by their
 * offsets, fields by position.
 */
module RecordLayout {
  import opened Prelude
  import opened Blocks
  import opened Wire
  import opened RecordCodec

  // ----- Integers --------------------------------------------------------------------------------

  lemma DivTwice(v: nat, b: nat)
    requires b > 0
    ensures v / 0x100 / b == v / (0x100 * b)
  {
    var w := v / 0x100;
    var q, r, s := w / b, w % b, v % 0x100;
    assert v == 0x100 * w + s && w == q * b + r;
    assert v == q * (0x100 * b) + (0x100 * r + s);
    assert 0 <= 0x100 * r + s < 0x100 * b;
    QuotientIs(v, 0x100 * b, q, 0x100 * r + s);
  }

  lemma QuotientIs(v: int, b: int, q: int, r: int)
    requires b > 0 && 0 <= r < b && v == q * b + r
    ensures v / b == q
  {
    var d := v / b - q;
    assert v == (v / b) * b + v % b;
    assert d * b == r - v % b;
    Larger(d, b);
  }

  lemma Larger(d: int, b: int)
    requires b > 0
    ensures d >= 1 ==> d * b >= b
    ensures d <= -1 ==> d * b <= -b
  {
  }

  /** Integers are little-endian: byte `k` is the `k`th digit in base 256. */
  lemma {:induction false} PackedDigit(v: nat, n: nat, k: nat)
    requires k < n
    ensures Pack(v, n)[k] == v / Bound(k) % 0x100
  {
    if k > 0 {
      PackedDigit(v / 0x100, n - 1, k - 1);
      DivTwice(v, Bound(k - 1));
    }
  }

  // ----- Options ---------------------------------------------------------------------------------

  /** Where the `k`th option of a region starts, each padded to a multiple of 4. */
  function OptionStart(opts: seq<RawOption>, k: nat): nat
    requires k <= |opts|
    decreases k
  {
    if k == 0 then 0 else 4 + |opts[0].value| + Pad4(|opts[0].value|) + OptionStart(opts[1..], k - 1)
  }

  /** The option stands at `o`: its id, its length and its value, all inside the region. */
  predicate OptionAt(data: seq<byte>, o: nat, opt: RawOption) {
    && o + 4 + |opt.value| <= |data|
    && Unpack16(data[o..o + 2]) == opt.optionId && Unpack16(data[o + 2..o + 4]) == |opt.value|
    && data[o + 4..o + 4 + |opt.value|] == opt.value
  }

  /** The options stand one after the other up to the end; the padding of the last may be missing. */
  predicate RegionIs(data: seq<byte>, opts: seq<RawOption>) {
    && (forall k :: 0 <= k < |opts| ==> OptionAt(data, OptionStart(opts, k), opts[k]))
    && OptionStart(opts, |opts|) >= |data|
  }

  lemma OptionShift(data: seq<byte>, skip: nat, o: nat, opt: RawOption)
    requires skip <= |data|
    ensures OptionAt(data[skip..], o, opt) <==> OptionAt(data, skip + o, opt)
  {
    if skip + o + 4 + |opt.value| <= |data| {
      assert data[skip..][o..o + 2] == data[skip + o..skip + o + 2];
      assert data[skip..][o + 2..o + 4] == data[skip + o + 2..skip + o + 4];
      assert data[skip..][o + 4..o + 4 + |opt.value|] == data[skip + o + 4..skip + o + 4 + |opt.value|];
    }
    hide Unpack16;
  }

  /** Where the first option's padding ends, or the region does. */
  function Past(data: seq<byte>, opt: RawOption): (skip: nat)
    ensures skip <= |data|
  {
    Min(4 + |opt.value| + Pad4(|opt.value|), |data|)
  }

  lemma StartThen(opt: RawOption, rest: seq<RawOption>, k: nat)
    requires k <= |rest|
    ensures OptionStart([opt] + rest, k + 1) == 4 + |opt.value| + Pad4(|opt.value|) + OptionStart(rest, k)
    ensures k < |rest| ==> ([opt] + rest)[k + 1] == rest[k]
  {
    assert ([opt] + rest)[1..] == rest;
  }

  /** What comes after a first option keeps its place. */
  lemma OptionThen(data: seq<byte>, opt: RawOption, rest: seq<RawOption>, k: nat)
    requires OptionAt(data, 0, opt) && k < |rest|
    ensures OptionAt(data, OptionStart([opt] + rest, k + 1), rest[k])
       <==> OptionAt(data[Past(data, opt)..], OptionStart(rest, k), rest[k])
    ensures ([opt] + rest)[k + 1] == rest[k]
  {
    var skip := 4 + |opt.value| + Pad4(|opt.value|);
    StartThen(opt, rest, k);
    if skip <= |data| {
      OptionShift(data, skip, OptionStart(rest, k), rest[k]);
    }
    hide OptionStart, Pad4, Unpack16;
  }

  /** One option, then the rest. */
  lemma RegionThen(data: seq<byte>, opt: RawOption, rest: seq<RawOption>)
    requires OptionAt(data, 0, opt)
    ensures RegionIs(data, [opt] + rest) <==> RegionIs(data[Past(data, opt)..], rest)
  {
    var all, after := [opt] + rest, data[Past(data, opt)..];
    StartThen(opt, rest, |rest|);
    PastOrEnd(data, opt);
    FirstStart(all);
    hide OptionAt, OptionStart, Past, Pad4;
    forall k: nat | k < |rest|
      ensures OptionAt(data, OptionStart(all, k + 1), all[k + 1]) <==> OptionAt(after, OptionStart(rest, k), rest[k])
    {
      OptionThen(data, opt, rest, k);
    }
    if RegionIs(after, rest) {
      forall k | 0 <= k < |all| ensures OptionAt(data, OptionStart(all, k), all[k]) {
        assert k > 0 ==> OptionAt(after, OptionStart(rest, k - 1), rest[k - 1]);
      }
    }
    if RegionIs(data, all) {
      forall k: nat | k < |rest| ensures OptionAt(after, OptionStart(rest, k), rest[k]) {
        assert OptionAt(data, OptionStart(all, k + 1), all[k + 1]);
      }
    }
  }

  lemma FirstStart(opts: seq<RawOption>)
    ensures OptionStart(opts, 0) == 0
  {
  }

  lemma PastOrEnd(data: seq<byte>, opt: RawOption)
    ensures var skip, after := 4 + |opt.value| + Pad4(|opt.value|), data[Past(data, opt)..];
      |after| == if skip <= |data| then |data| - skip else 0
  {
  }

  /** The option read first, if one is. */
  function FirstOption(data: seq<byte>): (first: Option<RawOption>)
    ensures forall opt :: OptionAt(data, 0, opt) <==> first == Some(opt)
  {
    if |data| < 4 || 4 + Unpack16(data[2..4]) > |data| then None
    else Some(RawOption(Unpack16(data[..2]), data[4..4 + Unpack16(data[2..4])]))
  }

  lemma FirstOptionIs(data: seq<byte>)
    ensures |data| < 4 ==> FirstOption(data).None?
    ensures |data| >= 4 ==>
      var id, size := Unpack16(data[..2]), Unpack16(data[2..4]);
      && (4 + size > |data| ==> FirstOption(data).None?)
      && (4 + size <= |data| ==>
            && FirstOption(data) == Some(RawOption(id, data[4..4 + size]))
            && Past(data, RawOption(id, data[4..4 + size])) == Min(4 + size + Pad4(size), |data|))
  {
    hide Unpack16, Pad4;
  }

  lemma ReadFirst(data: seq<byte>)
    ensures data == [] ==> OptionsOf(data) == Some([])
    ensures data != [] && FirstOption(data).None? ==> OptionsOf(data).None?
    ensures data != [] && FirstOption(data).Some? ==>
      OptionsOf(data) == Prepended([FirstOption(data).value], OptionsOf(data[Past(data, FirstOption(data).value)..]))
  {
    hide *;
    ReadStep(data);
    FirstOptionIs(data);
  }

  lemma RegionFirst(data: seq<byte>, opts: seq<RawOption>)
    requires RegionIs(data, opts)
    ensures opts == [] ==> data == []
    ensures opts != [] ==> OptionAt(data, 0, opts[0])
  {
    FirstStart(opts);
    hide OptionAt;
  }

  /** A region is read as these options iff they stand in it so. */
  lemma {:induction false} OptionsIff(data: seq<byte>, opts: seq<RawOption>)
    ensures OptionsOf(data) == Some(opts) <==> RegionIs(data, opts)
    decreases |data|
  {
    hide *;
    ReadFirst(data);
    if RegionIs(data, opts) {
      RegionFirst(data, opts);
    }
    NoOptions(data);
    var first := FirstOption(data);
    if first.Some? {
      FirstIsThere(data, first.value);
      var after := data[Past(data, first.value)..];
      if opts != [] && opts[0] == first.value {
        assert opts == [first.value] + opts[1..];
        RegionThen(data, first.value, opts[1..]);
        OptionsIff(after, opts[1..]);
      }
      PrependedIs(first.value, OptionsOf(after), opts);
    }
  }

  lemma FirstIsThere(data: seq<byte>, opt: RawOption)
    requires FirstOption(data) == Some(opt)
    ensures OptionAt(data, 0, opt) && data != [] && |data[Past(data, opt)..]| < |data|
  {
  }

  lemma NoOptions(data: seq<byte>)
    ensures RegionIs(data, []) <==> data == []
  {
  }

  lemma PrependedIs(opt: RawOption, rest: Option<seq<RawOption>>, opts: seq<RawOption>)
    ensures Prepended([opt], rest) == Some(opts) <==> opts != [] && opts[0] == opt && rest == Some(opts[1..])
  {
    if opts != [] && opts[0] == opt {
      assert opts == [opt] + opts[1..];
    }
    if rest.Some? {
      assert ([opt] + rest.value)[1..] == rest.value;
    }
  }

  // ----- Spans -----------------------------------------------------------------------------------

  /** One packed span: whose stream, then which range of it, which is not reversed. */
  predicate SpanAt(bytes: seq<byte>, o: nat, sp: Span)
    requires o + 28 <= |bytes|
  {
    && Unpack16(bytes[o..o + 2]) == sp.sourceId
    && Unpack16(bytes[o + 2..o + 4]) == sp.participantId
    && Unpack64(bytes[o + 4..o + 12]) == sp.sessionId
    && Unpack64(bytes[o + 12..o + 20]) == sp.offStart
    && Unpack64(bytes[o + 20..o + 28]) == sp.offEnd
    && sp.offStart <= sp.offEnd
  }

  lemma SpanIff(bytes: seq<byte>, sp: Span)
    requires |bytes| == 28
    ensures UnpackSpan(bytes) == Some(sp) <==> SpanAt(bytes, 0, sp)
  {
    hide Unpack16, Unpack64;
    assert bytes[0..2] == bytes[..2];
  }

  lemma SpanShift(bytes: seq<byte>, skip: nat, o: nat, sp: Span)
    requires skip + o + 28 <= |bytes|
    ensures SpanAt(bytes[skip..], o, sp) <==> SpanAt(bytes, skip + o, sp)
  {
    hide Unpack16, Unpack64;
    assert bytes[skip..][o..o + 2] == bytes[skip + o..skip + o + 2];
    assert bytes[skip..][o + 2..o + 4] == bytes[skip + o + 2..skip + o + 4];
    assert bytes[skip..][o + 4..o + 12] == bytes[skip + o + 4..skip + o + 12];
    assert bytes[skip..][o + 12..o + 20] == bytes[skip + o + 12..skip + o + 20];
    assert bytes[skip..][o + 20..o + 28] == bytes[skip + o + 20..skip + o + 28];
  }

  /** The spans stand one after the other, 28 bytes each. */
  predicate SpansAre(bytes: seq<byte>, spans: seq<Span>) {
    |bytes| == 28 * |spans| && forall k :: 0 <= k < |spans| ==> SpanAt(bytes, 28 * k, spans[k])
  }

  lemma SpansThen(bytes: seq<byte>, sp: Span, rest: seq<Span>)
    requires |bytes| >= 28
    ensures SpansAre(bytes, [sp] + rest) <==> SpanAt(bytes, 0, sp) && SpansAre(bytes[28..], rest)
  {
    hide SpanAt;
    var all := [sp] + rest;
    if |bytes| == 28 * |all| {
      forall k: nat | k < |rest| ensures SpanAt(bytes, 28 * (k + 1), all[k + 1]) <==> SpanAt(bytes[28..], 28 * k, rest[k]) {
        SpanShift(bytes, 28, 28 * k, rest[k]);
      }
      if SpanAt(bytes, 0, sp) && SpansAre(bytes[28..], rest) {
        forall k | 0 <= k < |all| ensures SpanAt(bytes, 28 * k, all[k]) {
          assert k > 0 ==> SpanAt(bytes[28..], 28 * (k - 1), rest[k - 1]) && 28 * (k - 1 + 1) == 28 * k;
        }
      }
      if SpansAre(bytes, all) {
        assert SpanAt(bytes, 28 * 0, all[0]);
        forall k: nat | k < |rest| ensures SpanAt(bytes[28..], 28 * k, rest[k]) {
          assert SpanAt(bytes, 28 * (k + 1), all[k + 1]);
        }
      }
    }
  }

  /** A span option's value is read as these spans iff they stand in it so. */
  lemma {:induction false} SpansIff(bytes: seq<byte>, spans: seq<Span>)
    ensures UnpackSpans(bytes) == Some(spans) <==> SpansAre(bytes, spans)
    decreases |bytes|
  {
    hide UnpackSpan, SpanAt, SpansAre;
    if |bytes| < 28 {
      ShortSpans(bytes, spans);
    } else {
      var first := UnpackSpan(bytes[..28]);
      if spans != [] {
        assert spans == [spans[0]] + spans[1..];
        SpanIff(bytes[..28], spans[0]);
        SpanInPrefix(bytes, spans[0]);
        SpansThen(bytes, spans[0], spans[1..]);
        SpansIff(bytes[28..], spans[1..]);
      } else {
        NoSpans(bytes);
      }
    }
  }

  lemma SpanInPrefix(bytes: seq<byte>, sp: Span)
    requires |bytes| >= 28
    ensures SpanAt(bytes[..28], 0, sp) <==> SpanAt(bytes, 0, sp)
  {
    hide Unpack16, Unpack64;
    assert bytes[..28][0..2] == bytes[0..2] && bytes[..28][2..4] == bytes[2..4] && bytes[..28][4..12] == bytes[4..12];
    assert bytes[..28][12..20] == bytes[12..20] && bytes[..28][20..28] == bytes[20..28];
  }

  lemma ShortSpans(bytes: seq<byte>, spans: seq<Span>)
    requires |bytes| < 28
    ensures SpansAre(bytes, spans) <==> bytes == [] && spans == []
  {
    hide SpanAt;
  }

  lemma NoSpans(bytes: seq<byte>)
    ensures SpansAre(bytes, []) <==> bytes == []
  {
  }

  // ----- The whole content ------------------------------------------------------------------------

  /** Where the option region starts: past the fixed body and the padded payload. */
  function OptionsFrom(r: Record): (from: nat)
    ensures 28 + |r.payload| <= from
  {
    28 + |r.payload| + Pad4(|r.payload|)
  }

  /** The fixed fields where the format puts them; the two reserved bytes are not looked at. */
  predicate BodyIs(content: seq<byte>, r: Record)
    requires |content| >= 28
  {
    && Unpack64(content[0..8]) == r.sessionId
    && Unpack16(content[8..10]) == r.senderPid
    && Unpack16(content[10..12]) == r.sourceId
    && UnpackI64(content[12..20]) == r.timestamp
    && Unpack16(content[22..24]) == r.flags
    && Unpack32(content[24..28]) == |r.payload|
  }

  /** The record's content: body, payload and options, each in its place. */
  predicate LaidOut(utf8: Utf8, content: seq<byte>, r: Record, opts: seq<RawOption>) {
    && OptionsFrom(r) <= |content| && BodyIs(content, r)
    && content[28..28 + |r.payload|] == r.payload
    && RegionIs(content[OptionsFrom(r)..], opts)
    && ReadsAs(utf8, opts, Parsed(ValuesOf(r), r.extraOptions))
  }

  /** What is written leaves the reserved bytes and the payload's padding zero. */
  lemma ReservedIsZero(r: Record)
    requires Encodable(r)
    ensures 28 + |r.payload| + Pad4(|r.payload|) <= |Encode(r)| && Encode(r)[20] == Encode(r)[21] == 0
    ensures forall k :: 28 + |r.payload| <= k < 28 + |r.payload| + Pad4(|r.payload|) ==> Encode(r)[k] == 0
  {
    var body, padded, rest := PackBody(r), Padded(r.payload), EncodeAll(OptionList(r));
    assert body[20] == Pack(0, 2)[0] && body[21] == Pack(0, 2)[1];
    PackedDigit(0, 2, 0);
    PackedDigit(0, 2, 1);
    hide PackBody, Pack, PackI64, OptionList, EncodeAll, Bound;
    assert Encode(r) == body + padded + rest;
    assert padded == r.payload + Zeros(Pad4(|r.payload|));
  }

  /** The options determine every field. */
  lemma OneValues(utf8: Utf8, opts: seq<RawOption>, v: Values, w: Values)
    requires FieldsAre(utf8, opts, v) && FieldsAre(utf8, opts, w) && v.spans == w.spans
    ensures v == w
  {
    assert FieldIs(utf8, opts, v, OPT_COMMENT) && FieldIs(utf8, opts, w, OPT_COMMENT);
    assert FieldIs(utf8, opts, v, OPT_SEQ_START) && FieldIs(utf8, opts, w, OPT_SEQ_START);
    assert FieldIs(utf8, opts, v, OPT_ACK) && FieldIs(utf8, opts, w, OPT_ACK);
    assert FieldIs(utf8, opts, v, OPT_TS_FIRST) && FieldIs(utf8, opts, w, OPT_TS_FIRST);
    assert FieldIs(utf8, opts, v, OPT_DECODER_ID) && FieldIs(utf8, opts, w, OPT_DECODER_ID);
    assert FieldIs(utf8, opts, v, OPT_CONTENT_TYPE) && FieldIs(utf8, opts, w, OPT_CONTENT_TYPE);
    assert FieldIs(utf8, opts, v, OPT_ROLE) && FieldIs(utf8, opts, w, OPT_ROLE);
    hide FirstOf, TextAt, U32At, TimeAt, U16At;
  }

  /** Only one reading of the options is a reading of them. */
  lemma OneReading(utf8: Utf8, opts: seq<RawOption>, one: Parsed, other: Parsed)
    requires ReadsAs(utf8, opts, one) && ReadsAs(utf8, opts, other)
    ensures one == other
  {
    OneValues(utf8, opts, one.values, other.values);
    hide FieldsAre, Remaining, SpansIn;
    var at := Remaining(utf8, opts);
    forall k | 0 <= k < |at| ensures one.extras[k] == other.extras[k] {
      assert at[k] in at;
    }
  }

  /** Content parses to a record iff the record is laid out in it. */
  lemma ParsesIff(utf8: Utf8, content: seq<byte>, r: Record)
    ensures Parse(utf8, content) == Some(r) <==> exists opts :: LaidOut(utf8, content, r, opts)
  {
    if Parse(utf8, content) == Some(r) {
      ParsedIsLaidOut(utf8, content, r);
    }
    if opts :| LaidOut(utf8, content, r, opts) {
      LaidOutParses(utf8, content, r, opts);
    }
    hide *;
  }

  lemma ParsedIsLaidOut(utf8: Utf8, content: seq<byte>, r: Record)
    requires Parse(utf8, content) == Some(r)
    ensures exists opts :: LaidOut(utf8, content, r, opts)
  {
    hide *;
    ParsedBody(utf8, content, r);
    var opts := OptionsOf(content[OptionsFrom(r)..]).value;
    OptionsIff(content[OptionsFrom(r)..], opts);
    FoldReads(utf8, opts);
    IsLaidOut(utf8, content, r, opts);
  }

  lemma ParsedBody(utf8: Utf8, content: seq<byte>, r: Record)
    requires Parse(utf8, content) == Some(r)
    ensures OptionsFrom(r) <= |content| && BodyIs(content, r) && content[28..28 + |r.payload|] == r.payload
    ensures OptionsOf(content[OptionsFrom(r)..]).Some?
    ensures Fold(utf8, Parsed(UNSET, []), OptionsOf(content[OptionsFrom(r)..]).value) == Parsed(ValuesOf(r), r.extraOptions)
  {
    hide Fold, OptionsOf, Unpack16, Unpack32, Unpack64, UnpackI64, Pad4;
    assert content[0..8] == content[..8];
  }

  lemma IsLaidOut(utf8: Utf8, content: seq<byte>, r: Record, opts: seq<RawOption>)
    requires OptionsFrom(r) <= |content| && BodyIs(content, r) && content[28..28 + |r.payload|] == r.payload
    requires RegionIs(content[OptionsFrom(r)..], opts) && ReadsAs(utf8, opts, Parsed(ValuesOf(r), r.extraOptions))
    ensures LaidOut(utf8, content, r, opts)
  {
    hide BodyIs, RegionIs, ReadsAs, OptionsFrom;
  }

  lemma LaidOutParses(utf8: Utf8, content: seq<byte>, r: Record, opts: seq<RawOption>)
    requires LaidOut(utf8, content, r, opts)
    ensures Parse(utf8, content) == Some(r)
  {
    hide *;
    LaidOutRegion(utf8, content, r, opts);
    OptionsIff(content[OptionsFrom(r)..], opts);
    FoldReads(utf8, opts);
    OneReading(utf8, opts, Parsed(ValuesOf(r), r.extraOptions), Fold(utf8, Parsed(UNSET, []), opts));
    LaidOutBody(utf8, content, r, opts);
  }

  lemma LaidOutRegion(utf8: Utf8, content: seq<byte>, r: Record, opts: seq<RawOption>)
    requires LaidOut(utf8, content, r, opts)
    ensures 28 <= OptionsFrom(r) <= |content| && RegionIs(content[OptionsFrom(r)..], opts)
    ensures ReadsAs(utf8, opts, Parsed(ValuesOf(r), r.extraOptions))
  {
    hide OptionsFrom, RegionIs, ReadsAs, Unpack16, Unpack32, Unpack64, UnpackI64;
  }

  /** With the options read, the body and the payload are the record's. */
  lemma LaidOutBody(utf8: Utf8, content: seq<byte>, r: Record, opts: seq<RawOption>)
    requires LaidOut(utf8, content, r, opts)
    requires OptionsOf(content[OptionsFrom(r)..]) == Some(opts)
    requires Fold(utf8, Parsed(UNSET, []), opts) == Parsed(ValuesOf(r), r.extraOptions)
    ensures Parse(utf8, content) == Some(r)
  {
    hide Fold, OptionsOf, RegionIs, ReadsAs, Unpack16, Unpack32, Unpack64, UnpackI64, Pad4;
    assert content[0..8] == content[..8];
  }
}
