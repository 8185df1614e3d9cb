/** The blocks of a `.zpf` file that the models below read and write. */
module Blocks {
  import opened Prelude

  const U16_END := 0x1_0000
  const U32_END := 0x1_0000_0000
  const U64_END := 0x1_0000_0000_0000_0000
  const I64_END := 0x8000_0000_0000_0000

  type byte = x: int | 0 <= x < 0x100
  type u16 = x: int | 0 <= x < U16_END
  type u32 = x: int | 0 <= x < U32_END
  type u64 = x: int | 0 <= x < U64_END
  type i64 = x: int | -I64_END <= x < I64_END

  const FIN_BIT := 0x0002
  const SYN_BIT := 0x0008
  const MESSAGE_BIT := 0x0080

  /** One source range a record's bytes were built from. */
  datatype Span = Span(sourceId: u16, sessionId: u64, participantId: u16, offStart: u64, offEnd: u64)
  {
    /** What the constructor of the source's dataclass insists on. */
    predicate WellFormed() {
      offStart <= offEnd
    }
  }

  /** One option occurrence kept as raw bytes. */
  datatype RawOption = RawOption(optionId: u16, value: seq<byte>)

  /** A Record block. Text fields hold the UTF-8 bytes of the text. */
  datatype Record = Record(
    sessionId: u64,
    senderPid: u16,
    sourceId: u16,
    timestamp: i64,
    payload: seq<byte>,
    flags: u16,
    seqStart: Option<u32>,
    ack: Option<u32>,
    tsFirst: Option<i64>,
    spans: seq<Span>,
    decoderId: Option<u16>,
    contentType: Option<seq<byte>>,
    role: Option<seq<byte>>,
    comment: Option<seq<byte>>,
    extraOptions: seq<RawOption>)
  {
    predicate Syn() {
      flags / SYN_BIT % 2 == 1
    }

    predicate Fin() {
      flags / FIN_BIT % 2 == 1
    }

    predicate IsMessage() {
      flags / MESSAGE_BIT % 2 == 1
    }
  }

  /** A break in the file's own stream; an absent width is unknown and counts 0. */
  datatype Discontinuity = Discontinuity(
    sessionId: u64,
    participantId: u16,
    width: Option<u64>,
    reason: Option<string>,
    comment: Option<string>)
  {
    function Width(): u64 {
      if width.Some? then width.value else 0
    }
  }

  /** A range of an input stream the file's stage did not decode. */
  datatype Undecoded = Undecoded(
    sourceId: u16,
    sessionId: u64,
    participantId: u16,
    offStart: int,
    offEnd: int,
    reason: Option<string>,
    reasonClass: Option<string>)

  /** How long one input stream is, as a Session End declares it. */
  datatype InputExtent = InputExtent(sourceId: u16, sessionId: u64, participantId: u16, extent: int)

  /** What is stored for one participant, in order: a record, or a break. */
  datatype StreamBlock = Unit(record: Record) | Break(brk: Discontinuity)

  datatype SourceKind = Capture | ZpfInput | UnknownKind(code: nat)

  /** The blocks of a file, as far as the checks over whole files look at them. */
  datatype FileBlock =
    | SourceDescriptor(sourceId: u16, kind: SourceKind)
    | RecordBlock(record: Record)
    | BreakBlock(brk: Discontinuity)
    | UndecodedBlock(undecoded: Undecoded)
    | ParticipantBlock(sessionId: u64, pid: u16, units: bool)
    | SessionEnd(sessionId: u64, inputExtents: seq<InputExtent>)
    | OtherBlock

  /** An input stream, as a span names it. */
  datatype StreamKey = StreamKey(sourceId: u16, sessionId: u64, pid: u16)

  function SpanKey(sp: Span): StreamKey {
    StreamKey(sp.sourceId, sp.sessionId, sp.participantId)
  }

  function MarkKey(u: Undecoded): StreamKey {
    StreamKey(u.sourceId, u.sessionId, u.participantId)
  }

  function ExtentKey(e: InputExtent): StreamKey {
    StreamKey(e.sourceId, e.sessionId, e.participantId)
  }
}
