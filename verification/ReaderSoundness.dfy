/**
 * What the reader makes of any bytes at all, told by offsets: which frames lie end to end, what
 * each is yielded as, and why reading stops where it does.
 */
module ReaderSoundness {
  import opened Prelude
  import opened Blocks
  import opened Wire
  import opened Container

  /** Where the `k`th of the blocks starts, frames lying end to end. */
  function Start(blocks: seq<Block>, k: nat): nat
    requires k <= |blocks|
    decreases k
  {
    if k == 0 then 0 else FRAME_SIZE + |blocks[0].content| + Start(blocks[1..], k - 1)
  }

  function TypeAt(data: seq<byte>, o: nat): u16
    requires o + FRAME_SIZE <= |data|
  {
    Unpack16(data[o..o + 2])
  }

  function SizeAt(data: seq<byte>, o: nat): u32
    requires o + FRAME_SIZE <= |data|
  {
    Unpack32(data[o + 4..o + 8])
  }

  /** A whole frame, a multiple of 4 bytes long, stands at `o`. */
  predicate WholeAt(data: seq<byte>, o: nat) {
    o + FRAME_SIZE <= |data| && SizeAt(data, o) % 4 == 0 && o + FRAME_SIZE + SizeAt(data, o) <= |data|
  }

  function ContentAt(data: seq<byte>, o: nat): seq<byte>
    requires WholeAt(data, o)
  {
    data[o + FRAME_SIZE..o + FRAME_SIZE + SizeAt(data, o)]
  }

  /** The frame at `o` is the block: typed if its content parses, kept verbatim if it is isolated. */
  predicate FrameAt(codec: Codec, data: seq<byte>, o: nat, b: Block) {
    && WholeAt(data, o) && b.blockType == TypeAt(data, o) && b.content == ContentAt(data, o)
    && (b.Typed? <==> codec(b.blockType, b.content) == Parses)
    && (b.Unknown? <==> codec(b.blockType, b.content) == Isolated)
  }

  /** The bytes stop inside what starts at `o`. */
  predicate CutAt(data: seq<byte>, o: nat) {
    && o < |data|
    && (o + FRAME_SIZE <= |data| ==> SizeAt(data, o) % 4 == 0 && o + FRAME_SIZE + SizeAt(data, o) > |data|)
  }

  /** What starts at `o` breaks the file: its length, a header out of place, or its content. */
  predicate BrokenAt(codec: Codec, data: seq<byte>, o: nat, first: bool) {
    && o + FRAME_SIZE <= |data|
    && (|| SizeAt(data, o) % 4 != 0
        || (WholeAt(data, o)
            && ((TypeAt(data, o) == BT_FILE_HEADER <==> !first) || codec(TypeAt(data, o), ContentAt(data, o)) == Broken)))
  }

  predicate Ended(blocks: seq<Block>) {
    blocks != [] && blocks[|blocks| - 1].IsEnd()
  }

  /** Why reading stopped after the blocks, at `o`. */
  predicate StopsAs(codec: Codec, data: seq<byte>, o: nat, ended: bool, first: bool, ending: Ending) {
    match ending
    case Complete(trailing) => ended && (trailing <==> o < |data|)
    case AtBoundary => !ended && !first && o == |data|
    case Cut => !ended && CutAt(data, o)
    case Corrupt => !ended && (BrokenAt(codec, data, o, first) || (first && o == |data|))
  }

  /** Block `k` is a frame where its place says; only the first is a File Header, only the last an End. */
  predicate BlockAt(codec: Codec, data: seq<byte>, headerSeen: bool, blocks: seq<Block>, k: nat)
    requires k < |blocks|
  {
    && FrameAt(codec, data, Start(blocks, k), blocks[k])
    && (blocks[k].blockType == BT_FILE_HEADER <==> !headerSeen && k == 0)
    && (k < |blocks| - 1 ==> !blocks[k].IsEnd())
  }

  /** A File Header first and nowhere else, an End block last if at all, frames end to end. */
  predicate Reads(codec: Codec, data: seq<byte>, headerSeen: bool, s: Scanned) {
    var o, n := Start(s.blocks, |s.blocks|), |s.blocks|;
    && o <= |data|
    && (forall k :: 0 <= k < n ==> BlockAt(codec, data, headerSeen, s.blocks, k))
    && StopsAs(codec, data, o, Ended(s.blocks), !headerSeen && n == 0, s.ending)
  }

  /** Frames keep their place when the bytes before them are dropped. */
  lemma FrameShift(codec: Codec, data: seq<byte>, skip: nat, o: nat, b: Block, first: bool)
    requires skip <= |data|
    ensures FrameAt(codec, data[skip..], o, b) <==> FrameAt(codec, data, skip + o, b)
    ensures CutAt(data[skip..], o) <==> CutAt(data, skip + o)
    ensures BrokenAt(codec, data[skip..], o, first) <==> BrokenAt(codec, data, skip + o, first)
  {
    if skip + o + FRAME_SIZE <= |data| {
      assert data[skip..][o..o + 2] == data[skip + o..skip + o + 2];
      assert data[skip..][o + 4..o + 8] == data[skip + o + 4..skip + o + 8];
      if WholeAt(data, skip + o) {
        var size := SizeAt(data, skip + o);
        assert data[skip..][o + FRAME_SIZE..o + FRAME_SIZE + size] == data[skip + o + FRAME_SIZE..skip + o + FRAME_SIZE + size];
      }
    }
    hide Unpack16, Unpack32;
  }

  /** What comes after a first block keeps its place. */
  lemma BlockThen(codec: Codec, data: seq<byte>, headerSeen: bool, b: Block, rest: seq<Block>, k: nat)
    requires FrameAt(codec, data, 0, b) && k < |rest|
    ensures BlockAt(codec, data, headerSeen, [b] + rest, k + 1)
       <==> BlockAt(codec, data[FRAME_SIZE + |b.content|..], true, rest, k)
  {
    assert ([b] + rest)[1..] == rest && ([b] + rest)[k + 1] == rest[k];
    FrameShift(codec, data, FRAME_SIZE + |b.content|, Start(rest, k), rest[k], false);
    hide FrameAt, CutAt, BrokenAt;
  }

  lemma StopsThen(codec: Codec, data: seq<byte>, b: Block, rest: Scanned)
    requires FrameAt(codec, data, 0, b) && !b.IsEnd()
    ensures var skip, o := FRAME_SIZE + |b.content|, Start([b] + rest.blocks, |rest.blocks| + 1);
            var end := Start(rest.blocks, |rest.blocks|);
      && o == skip + end && (Ended([b] + rest.blocks) <==> Ended(rest.blocks))
      && (StopsAs(codec, data, o, Ended(rest.blocks), false, rest.ending)
          <==> StopsAs(codec, data[skip..], end, Ended(rest.blocks), false, rest.ending))
  {
    assert ([b] + rest.blocks)[1..] == rest.blocks;
    FrameShift(codec, data, FRAME_SIZE + |b.content|, Start(rest.blocks, |rest.blocks|), b, false);
    hide FrameAt, CutAt, BrokenAt;
  }

  /** One block read, then the rest. */
  lemma ReadsThen(codec: Codec, data: seq<byte>, headerSeen: bool, b: Block, rest: Scanned)
    requires FrameAt(codec, data, 0, b) && !b.IsEnd() && (b.blockType == BT_FILE_HEADER <==> !headerSeen)
    ensures Reads(codec, data, headerSeen, Then(b, rest))
       <==> Reads(codec, data[FRAME_SIZE + |b.content|..], true, rest)
  {
    var all, after := [b] + rest.blocks, data[FRAME_SIZE + |b.content|..];
    assert FRAME_SIZE + |b.content| <= |data| && BlockAt(codec, data, headerSeen, all, 0);
    StopsThen(codec, data, b, rest);
    hide FrameAt, StopsAs, BlockAt, Start, Ended;
    forall k: nat | k < |rest.blocks|
      ensures BlockAt(codec, data, headerSeen, all, k + 1)
         <==> BlockAt(codec, after, true, rest.blocks, k)
    {
      BlockThen(codec, data, headerSeen, b, rest.blocks, k);
    }
    if Reads(codec, after, true, rest) {
      forall k | 0 <= k < |all| ensures BlockAt(codec, data, headerSeen, all, k) {
        assert k > 0 ==> BlockAt(codec, after, true, rest.blocks, k - 1);
      }
    }
    if Reads(codec, data, headerSeen, Then(b, rest)) {
      forall k: nat | k < |rest.blocks| ensures BlockAt(codec, after, true, rest.blocks, k) {
        assert BlockAt(codec, data, headerSeen, all, k + 1);
      }
    }
  }

  /** A block may be read first: a good frame, with the header in its place. */
  predicate FirstIs(codec: Codec, data: seq<byte>, headerSeen: bool, b: Block) {
    FrameAt(codec, data, 0, b) && (b.blockType == BT_FILE_HEADER <==> !headerSeen)
  }

  /** The block the first frame is read as, if there is one to read. */
  function FirstBlock(codec: Codec, data: seq<byte>, headerSeen: bool): (b: Option<Block>)
    ensures forall c :: FirstIs(codec, data, headerSeen, c) <==> b == Some(c)
  {
    if !WholeAt(data, 0) || (TypeAt(data, 0) == BT_FILE_HEADER <==> headerSeen) then None
    else match codec(TypeAt(data, 0), ContentAt(data, 0))
         case Parses => Some(Typed(TypeAt(data, 0), ContentAt(data, 0)))
         case Isolated => Some(Unknown(TypeAt(data, 0), ContentAt(data, 0)))
         case Broken => None
  }

  /** With no block to read first, reading stops at once. */
  lemma NothingFirst(codec: Codec, data: seq<byte>, headerSeen: bool, s: Scanned)
    requires FirstBlock(codec, data, headerSeen).None?
    ensures Reads(codec, data, headerSeen, s) <==> s.blocks == [] && StopsAs(codec, data, 0, false, !headerSeen, s.ending)
    ensures s == Scan(codec, data, headerSeen) <==> s.blocks == [] && StopsAs(codec, data, 0, false, !headerSeen, s.ending)
  {
    if s.blocks != [] && Reads(codec, data, headerSeen, s) {
      ReadsFirst(codec, data, headerSeen, s);
      assert false;
    }
    ScanStep(codec, data, headerSeen);
    hide Scan, Unpack16, Unpack32;
  }

  /** With a block to read first, reading starts with it. */
  lemma SomethingFirst(codec: Codec, data: seq<byte>, headerSeen: bool, s: Scanned, b: Block)
    requires FirstBlock(codec, data, headerSeen) == Some(b)
    ensures Reads(codec, data, headerSeen, s) ==> s.blocks != [] && s.blocks[0] == b
  {
    assert FirstIs(codec, data, headerSeen, b);
    hide Unpack16, Unpack32;
    if s.blocks != [] && Reads(codec, data, headerSeen, s) {
      ReadsFirst(codec, data, headerSeen, s);
    }
  }

  /** An End block ends the reading, whatever follows it. */
  lemma EndFirst(codec: Codec, data: seq<byte>, headerSeen: bool, s: Scanned, b: Block)
    requires FirstBlock(codec, data, headerSeen) == Some(b) && b.IsEnd()
    ensures Reads(codec, data, headerSeen, s) <==> s == Scanned([b], Complete(data[FRAME_SIZE + |b.content|..] != []))
  {
    FirstIsFrame(codec, data, headerSeen, b);
    assert Start([b], 1) == FRAME_SIZE + |b.content| && Start([b], 0) == 0;
    assert BlockAt(codec, data, headerSeen, [b], 0);
    if Reads(codec, data, headerSeen, s) {
      SomethingFirst(codec, data, headerSeen, s, b);
      assert BlockAt(codec, data, headerSeen, s.blocks, 0);
      assert s.blocks == [b];
    }
    hide FrameAt, Start, Block.IsEnd, BrokenAt, CutAt;
  }

  lemma ReadsFirst(codec: Codec, data: seq<byte>, headerSeen: bool, s: Scanned)
    requires s.blocks != [] && Reads(codec, data, headerSeen, s)
    ensures FirstIs(codec, data, headerSeen, s.blocks[0])
  {
    assert BlockAt(codec, data, headerSeen, s.blocks, 0);
    hide FrameAt;
  }

  lemma ScanFirst(codec: Codec, data: seq<byte>, headerSeen: bool, b: Block)
    requires FirstBlock(codec, data, headerSeen) == Some(b) && HeaderIsNeverIsolated(codec)
    ensures var rest := data[FRAME_SIZE + |b.content|..];
      Scan(codec, data, headerSeen) == if b.IsEnd() then Scanned([b], Complete(rest != []))
                                       else Then(b, Scan(codec, rest, true))
  {
    ScanStep(codec, data, headerSeen);
    hide Scan, Unpack16, Unpack32;
  }

  /** Whatever the bytes, this is what is read, and nothing else fits the description. */
  lemma {:induction false} ScanIff(codec: Codec, data: seq<byte>, headerSeen: bool, s: Scanned)
    requires HeaderIsNeverIsolated(codec)
    ensures Reads(codec, data, headerSeen, s) <==> s == Scan(codec, data, headerSeen)
    decreases |data|
  {
    hide *;
    var first := FirstBlock(codec, data, headerSeen);
    if first.None? {
      NothingFirst(codec, data, headerSeen, s);
    } else {
      var b := first.value;
      FirstIsFrame(codec, data, headerSeen, b);
      SomethingFirst(codec, data, headerSeen, s, b);
      ScanFirst(codec, data, headerSeen, b);
      if b.IsEnd() {
        EndFirst(codec, data, headerSeen, s, b);
      } else if s.blocks != [] && s.blocks[0] == b {
        var rest := Scanned(s.blocks[1..], s.ending);
        ThenIs(b, rest, s);
        ReadsThen(codec, data, headerSeen, b, rest);
        ScanIff(codec, data[FRAME_SIZE + |b.content|..], true, rest);
        ThenOnce(b, rest, Scan(codec, data[FRAME_SIZE + |b.content|..], true));
      } else {
        ThenStarts(b, Scan(codec, data[FRAME_SIZE + |b.content|..], true), s);
      }
    }
  }

  lemma FirstIsFrame(codec: Codec, data: seq<byte>, headerSeen: bool, b: Block)
    requires FirstBlock(codec, data, headerSeen) == Some(b)
    ensures FrameAt(codec, data, 0, b) && (b.blockType == BT_FILE_HEADER <==> !headerSeen)
    ensures FRAME_SIZE + |b.content| <= |data| && FRAME_SIZE > 0
  {
    assert FirstIs(codec, data, headerSeen, b);
  }

  lemma ThenIs(b: Block, rest: Scanned, s: Scanned)
    requires s.blocks != [] && s.blocks[0] == b && rest == Scanned(s.blocks[1..], s.ending)
    ensures Then(b, rest) == s
  {
  }

  lemma ThenOnce(b: Block, one: Scanned, other: Scanned)
    ensures Then(b, one) == Then(b, other) <==> one == other
  {
    assert Then(b, one).blocks[1..] == one.blocks && Then(b, other).blocks[1..] == other.blocks;
  }

  lemma ThenStarts(b: Block, rest: Scanned, s: Scanned)
    ensures s == Then(b, rest) ==> s.blocks != [] && s.blocks[0] == b
  {
  }

  /** A written frame: type, two zero bytes, length, content. */
  lemma FrameLaidOut(b: Block)
    requires |b.content| <= MAX_BLOCK_LENGTH
    ensures var frame := Frame(b);
      && |frame| == 8 + |b.content| && TypeAt(frame, 0) == b.blockType && frame[2] == frame[3] == 0
      && SizeAt(frame, 0) == |b.content| && frame[8..] == b.content
  {
    UnpackPack16(b.blockType);
    UnpackPack32(|b.content|);
    var frame, zero := Frame(b), Pack(0, 2);
    assert zero == [0, 0] by {
      assert Pack(0, 1) == [0];
    }
    hide Pack, Unpack16, Unpack32;
    assert frame[0..2] == Pack(b.blockType, 2) && frame[4..8] == Pack(|b.content|, 4);
    assert frame[2] == zero[0] && frame[3] == zero[1];
  }
}
