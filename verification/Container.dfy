/**
 * The container: framed blocks in a byte stream, written one by one and read back.
 *
 * What a block's content parses to is the business of the block codecs; `codec` says, for a
 * type code and a content, whether it parses, is isolated, or breaks the file.
 */
module Container {
  import opened Prelude
  import opened Blocks
  import opened Wire
  import RecordCodec

  const BT_FILE_HEADER: u16 := 0x01
  const BT_RECORD: u16 := 0x20
  const BT_END: u16 := 0x41
  const FRAME_SIZE := 8
  const MAX_BLOCK_LENGTH := 0xFFFF_FFFF

  datatype Verdict = Parses | Isolated | Broken

  type Codec = (u16, seq<byte>) -> Verdict

  /** A typed block, or one kept verbatim. */
  datatype Block = Typed(blockType: u16, content: seq<byte>) | Unknown(blockType: u16, content: seq<byte>)
  {
    predicate IsHeader() {
      Typed? && blockType == BT_FILE_HEADER
    }

    predicate IsEnd() {
      Typed? && blockType == BT_END
    }
  }

  /** A File Header is never isolated: whatever is wrong with one breaks the file. */
  ghost predicate HeaderIsNeverIsolated(codec: Codec) {
    forall content :: codec(BT_FILE_HEADER, content) != Isolated
  }

  /** What a reader makes of a frame's type and content; None if the file must be rejected. */
  function ReadAs(codec: Codec, blockType: u16, content: seq<byte>): Option<Block> {
    match codec(blockType, content)
    case Parses => Some(Typed(blockType, content))
    case Isolated => Some(Unknown(blockType, content))
    case Broken => None
  }

  /** Its own bytes read back as the same block. */
  predicate ReadsBack(codec: Codec, b: Block) {
    |b.content| % 4 == 0 && ReadAs(codec, b.blockType, b.content) == Some(b)
  }

  // ----- Writing ----------------------------------------------------------------------------

  function Frame(b: Block): seq<byte> {
    Pack(b.blockType, 2) + Pack(0, 2) + Pack(|b.content|, 4) + b.content
  }

  function Output(blocks: seq<Block>): seq<byte> {
    if blocks == [] then [] else Output(blocks[..|blocks| - 1]) + Frame(blocks[|blocks| - 1])
  }

  /** The writer accepts `b` after `blocks`. */
  predicate Takes(blocks: seq<Block>, b: Block) {
    && (blocks != [] ==> !blocks[|blocks| - 1].IsEnd())
    && (blocks == [] <==> b.IsHeader())
    && |b.content| <= MAX_BLOCK_LENGTH
  }

  predicate Accepted(blocks: seq<Block>) {
    forall n :: 0 <= n < |blocks| ==> Takes(blocks[..n], blocks[n])
  }

  lemma AcceptedSnoc(blocks: seq<Block>, b: Block)
    ensures Accepted(blocks + [b]) <==> Accepted(blocks) && Takes(blocks, b)
  {
    hide Takes;
    var all := blocks + [b];
    assert all[..|blocks|] == blocks && all[|blocks|] == b;
    assert forall n :: 0 <= n < |blocks| ==> all[..n] == blocks[..n] && all[n] == blocks[n];
    if Accepted(all) {
      assert Takes(all[..|blocks|], all[|blocks|]);
      forall n | 0 <= n < |blocks| ensures Takes(blocks[..n], blocks[n]) {
        assert Takes(all[..n], all[n]);
      }
    }
  }

  lemma OutputSnoc(blocks: seq<Block>, b: Block)
    ensures Output(blocks + [b]) == Output(blocks) + Frame(b)
    ensures |Frame(b)| == FRAME_SIZE + |b.content|
  {
    assert (blocks + [b])[..|blocks|] == blocks;
    hide Pack;
  }

  datatype WriteResult = Written(offset: nat) | WriterClosed | AfterEnd | HeaderMissing | SecondHeader | TooLong

  class BlockWriter {
    var bytes: seq<byte>
    var offset: nat
    var closed: bool
    var ended: bool
    /** The blocks written so far. */
    ghost var blocks: seq<Block>

    ghost predicate Valid()
      reads this
    {
      && Accepted(blocks) && bytes == Output(blocks) && offset == |bytes|
      && (offset == 0 <==> blocks == []) && (ended <==> blocks != [] && blocks[|blocks| - 1].IsEnd())
    }

    constructor ()
      ensures Valid() && blocks == [] && !closed
    {
      bytes, offset, closed, ended, blocks := [], 0, false, false, [];
    }

    method Write(b: Block) returns (result: WriteResult)
      requires Valid()
      modifies this
      ensures Valid() && closed == old(closed)
      ensures result.Written? <==> !closed && Takes(old(blocks), b)
      ensures result.Written? ==> blocks == old(blocks) + [b] && result.offset == |old(bytes)|
      ensures !result.Written? ==> blocks == old(blocks)
    {
      hide Accepted, Output, Frame;
      if closed {
        return WriterClosed;
      }
      if ended {
        return AfterEnd;
      }
      if offset == 0 && !b.IsHeader() {
        return HeaderMissing;
      }
      if offset > 0 && b.IsHeader() {
        return SecondHeader;
      }
      if |b.content| > MAX_BLOCK_LENGTH {
        return TooLong;
      }
      result := Written(offset);
      AcceptedSnoc(blocks, b);
      OutputSnoc(blocks, b);
      bytes := bytes + Frame(b);
      offset := offset + FRAME_SIZE + |b.content|;
      if b.IsEnd() {
        ended := true;
      }
      blocks := blocks + [b];
    }

    method Close()
      requires Valid()
      modifies this`closed
      ensures Valid() && closed
    {
      closed := true;
    }
  }

  // ----- Reading: what a byte stream holds -----------------------------------------------------

  datatype Ending =
    | AtBoundary            // the bytes stop between two blocks
    | Cut                   // they stop inside one
    | Complete(trailing: bool)  // an End block was read, and bytes may follow it
    | Corrupt               // the file must be rejected

  datatype Scanned = Scanned(blocks: seq<Block>, ending: Ending)

  function Then(b: Block, rest: Scanned): Scanned {
    Scanned([b] + rest.blocks, rest.ending)
  }

  function Scan(codec: Codec, data: seq<byte>, headerSeen: bool): Scanned
    decreases |data|
  {
    if data == [] then Scanned([], if headerSeen then AtBoundary else Corrupt)
    else if |data| < FRAME_SIZE then Scanned([], Cut)
    else
      var blockType, size := Unpack16(data[..2]), Unpack32(data[4..8]);
      if size % 4 != 0 then Scanned([], Corrupt)
      else if |data| < FRAME_SIZE + size then Scanned([], Cut)
      else if headerSeen == (blockType == BT_FILE_HEADER) then Scanned([], Corrupt)
      else
        var block, rest := ReadAs(codec, blockType, data[FRAME_SIZE..FRAME_SIZE + size]), data[FRAME_SIZE + size..];
        if block.None? then Scanned([], Corrupt)
        else if block.value.IsEnd() then Scanned([block.value], Complete(rest != []))
        else Then(block.value, Scan(codec, rest, headerSeen || block.value.IsHeader()))
  }

  /** `Scan`, case by case. */
  lemma ScanStep(codec: Codec, here: seq<byte>, headerSeen: bool)
    ensures here == [] ==> Scan(codec, here, headerSeen) == Scanned([], if headerSeen then AtBoundary else Corrupt)
    ensures 0 < |here| < FRAME_SIZE ==> Scan(codec, here, headerSeen) == Scanned([], Cut)
    ensures |here| >= FRAME_SIZE ==>
      var blockType, size := Unpack16(here[..2]), Unpack32(here[4..8]);
      && (size % 4 != 0 ==> Scan(codec, here, headerSeen) == Scanned([], Corrupt))
      && (size % 4 == 0 && |here| < FRAME_SIZE + size ==> Scan(codec, here, headerSeen) == Scanned([], Cut))
      && (size % 4 == 0 && |here| >= FRAME_SIZE + size ==>
            Scan(codec, here, headerSeen)
            == AfterFrame(codec, blockType, here[FRAME_SIZE..FRAME_SIZE + size], here[FRAME_SIZE + size..], headerSeen))
  {
    hide ReadAs, Unpack16, Unpack32;
  }

  /** What is read from a whole frame on. */
  function AfterFrame(codec: Codec, blockType: u16, content: seq<byte>, rest: seq<byte>, headerSeen: bool): Scanned {
    if headerSeen == (blockType == BT_FILE_HEADER) then Scanned([], Corrupt)
    else
      var block := ReadAs(codec, blockType, content);
      if block.None? then Scanned([], Corrupt)
      else if block.value.IsEnd() then Scanned([block.value], Complete(rest != []))
      else Then(block.value, Scan(codec, rest, headerSeen || block.value.IsHeader()))
  }

  lemma Slices(data: seq<byte>, offset: nat, from: nat, to: nat)
    requires from <= to && offset + to <= |data|
    ensures data[offset..][from..to] == data[offset + from..offset + to]
    ensures data[offset..][to..] == data[offset + to..]
  {
  }

  /** What the bytes from `offset` on hold, in terms of the whole stream. */
  lemma ScanAt(codec: Codec, data: seq<byte>, offset: nat, headerSeen: bool)
    requires offset <= |data|
    ensures var left, scanned := |data| - offset, Scan(codec, data[offset..], headerSeen);
      && (left == 0 ==> scanned == Scanned([], if headerSeen then AtBoundary else Corrupt))
      && (0 < left < FRAME_SIZE ==> scanned == Scanned([], Cut))
      && (left >= FRAME_SIZE ==>
            var blockType := Unpack16(data[offset..offset + 2]);
            var size := Unpack32(data[offset + 4..offset + 8]);
            && (size % 4 != 0 ==> scanned == Scanned([], Corrupt))
            && (size % 4 == 0 && left < FRAME_SIZE + size ==> scanned == Scanned([], Cut))
            && (size % 4 == 0 && left >= FRAME_SIZE + size ==>
                  var start := offset + FRAME_SIZE;
                  scanned == AfterFrame(codec, blockType, data[start..start + size], data[start + size..], headerSeen)))
  {
    var here := data[offset..];
    ScanStep(codec, here, headerSeen);
    hide Scan, AfterFrame, Unpack16, Unpack32;
    if |here| >= FRAME_SIZE {
      Slices(data, offset, 0, 2);
      Slices(data, offset, 4, 8);
      var size := Unpack32(here[4..8]);
      if |here| >= FRAME_SIZE + size {
        Slices(data, offset, FRAME_SIZE, FRAME_SIZE + size);
      }
    }
  }

  /** Up to `size` bytes of the stream from `offset`. */
  function ReadUpTo(data: seq<byte>, offset: nat, size: nat): (chunk: seq<byte>)
    requires offset <= |data|
    ensures |chunk| == Min(size, |data| - offset)
    ensures offset + size <= |data| ==> chunk == data[offset..offset + size]
  {
    data[offset..Min(offset + size, |data|)]
  }

  lemma FrameFields(data: seq<byte>, offset: nat)
    requires offset + FRAME_SIZE <= |data|
    ensures var frame := ReadUpTo(data, offset, FRAME_SIZE);
      frame[..2] == data[offset..offset + 2] && frame[4..8] == data[offset + 4..offset + 8]
  {
  }

  datatype Next = Yielded(block: Block) | Stop | Raised

  class BlockReader {
    const codec: Codec
    const data: seq<byte>
    var offset: nat
    var headerSeen: bool
    var finished: bool
    var afterEnd: bool
    var complete: bool
    var truncated: bool
    var trailing: bool

    ghost predicate Valid()
      reads this
    {
      && offset <= |data| && (afterEnd <==> complete) && (offset > 0 <==> headerSeen)
      && HeaderIsNeverIsolated(codec)
    }

    /** What is still to come, from the state the reader is in. */
    ghost function Remaining(): Scanned
      requires Valid()
      reads this
    {
      if afterEnd then Scanned([], Complete(data[offset..] != []))
      else Scan(codec, data[offset..], headerSeen)
    }

    constructor (codec: Codec, data: seq<byte>)
      requires HeaderIsNeverIsolated(codec)
      ensures Valid() && this.codec == codec && this.data == data
      ensures offset == 0 && !headerSeen && !finished && !afterEnd && !complete && !truncated && !trailing
    {
      this.codec, this.data := codec, data;
      offset, headerSeen, finished, afterEnd := 0, false, false, false;
      complete, truncated, trailing := false, false, false;
    }

    /** The next block, or the end of iteration. */
    method ReadNext() returns (next: Next)
      requires Valid() && !finished && !truncated && !trailing
      modifies this
      ensures next.Raised? || Valid()
      ensures next.Yielded? ==>
        && !finished && !truncated && !trailing && offset > old(offset)
        && old(Remaining()) == Then(next.block, Remaining())
        && (complete <==> old(complete) || next.block.IsEnd())
      ensures next.Stop? ==>
        && finished && old(Remaining()).blocks == [] && complete == old(complete)
        && (truncated <==> old(Remaining()).ending == Cut)
        && (trailing <==> old(Remaining()).ending == Complete(true))
        && (complete <==> old(Remaining()).ending.Complete?)
        && old(Remaining()).ending != Corrupt
      ensures next.Raised? ==> old(Remaining()) == Scanned([], Corrupt)
    {
      hide Scan, AfterFrame, Unpack16, Unpack32, ReadAs, ReadUpTo, HeaderIsNeverIsolated;
      if afterEnd {
        finished := true;
        trailing := data[offset..] != [];
        return Stop;
      }
      ScanAt(codec, data, offset, headerSeen);
      var frame := ReadUpTo(data, offset, FRAME_SIZE);
      if frame == [] {
        if offset == 0 {
          return Raised;
        }
        finished := true;
        return Stop;
      }
      if |frame| < FRAME_SIZE {
        truncated, finished := true, true;
        return Stop;
      }
      FrameFields(data, offset);
      var blockType, size := Unpack16(frame[..2]), Unpack32(frame[4..8]);
      if size % 4 != 0 {
        return Raised;
      }
      var content := ReadUpTo(data, offset + FRAME_SIZE, size);
      if |content| < size {
        truncated, finished := true, true;
        return Stop;
      }
      offset := offset + FRAME_SIZE + size;
      next := ToBlock(blockType, content);
    }

    /** Parse a frame's content into a block, applying the header-position rules. */
    method ToBlock(blockType: u16, content: seq<byte>) returns (next: Next)
      requires offset <= |data| && offset > 0 && !afterEnd && !complete && HeaderIsNeverIsolated(codec)
      modifies this`headerSeen, this`complete, this`afterEnd
      ensures var scanned := AfterFrame(codec, blockType, content, data[offset..], old(headerSeen));
        && !next.Stop?
        && (next.Yielded? ==> Valid() && scanned == Then(next.block, Remaining()) && (complete <==> next.block.IsEnd()))
        && (next.Raised? ==> scanned == Scanned([], Corrupt) && headerSeen == old(headerSeen) && !complete && !afterEnd)
    {
      hide Scan;
      if !headerSeen {
        if blockType != BT_FILE_HEADER {
          return Raised;
        }
      } else if blockType == BT_FILE_HEADER {
        return Raised;
      }
      var block := ReadAs(codec, blockType, content);
      if block.None? {
        return Raised;
      }
      if block.value.IsHeader() {
        headerSeen := true;
      } else if block.value.IsEnd() {
        complete := true;
        afterEnd := true;
      }
      return Yielded(block.value);
    }
  }

  /** Iterate a reader over a whole byte string. */
  method ReadAll(codec: Codec, data: seq<byte>)
    returns (blocks: seq<Block>, raised: bool, truncated: bool, complete: bool, trailing: bool)
    requires HeaderIsNeverIsolated(codec)
    ensures var scanned := Scan(codec, data, false);
      && blocks == scanned.blocks && (raised <==> scanned.ending == Corrupt)
      && (!raised ==> && (truncated <==> scanned.ending == Cut) && (complete <==> scanned.ending.Complete?)
                      && (trailing <==> scanned.ending == Complete(true)))
  {
    hide Scan;
    var reader := new BlockReader(codec, data);
    blocks, raised := [], false;
    ghost var all := Scan(codec, data, false);
    assert data[0..] == data;
    NothingBefore(all);
    while true
      invariant fresh(reader) && reader.data == data && reader.codec == codec
      invariant reader.Valid() && !reader.finished && !reader.truncated && !reader.trailing && !raised
      invariant all == After(blocks, reader.Remaining())
      invariant reader.complete <==> reader.afterEnd
      decreases |data| - reader.offset, !reader.finished
    {
      ghost var left := reader.Remaining();
      var next := reader.ReadNext();
      match next
      case Yielded(block) =>
        AfterThen(blocks, block, reader.Remaining());
        blocks := blocks + [block];
      case Stop =>
        assert blocks + [] == blocks;
        return blocks, false, reader.truncated, reader.complete, reader.trailing;
      case Raised =>
        assert blocks + [] == blocks;
        return blocks, true, false, false, false;
    }
  }

  function After(blocks: seq<Block>, rest: Scanned): Scanned {
    Scanned(blocks + rest.blocks, rest.ending)
  }

  lemma NothingBefore(rest: Scanned)
    ensures After([], rest) == rest
  {
    assert [] + rest.blocks == rest.blocks;
  }

  lemma AfterThen(blocks: seq<Block>, b: Block, rest: Scanned)
    ensures After(blocks, Then(b, rest)) == After(blocks + [b], rest)
  {
    assert blocks + ([b] + rest.blocks) == blocks + [b] + rest.blocks;
  }

  // ----- Every prefix of what was written -------------------------------------------------------------

  predicate AllReadBack(codec: Codec, blocks: seq<Block>) {
    forall k :: 0 <= k < |blocks| ==> ReadsBack(codec, blocks[k])
  }

  /** How many whole blocks the first `n` bytes hold. */
  function WholeBlocks(blocks: seq<Block>, n: nat): (k: nat)
    ensures k <= |blocks|
  {
    if |Output(blocks)| <= n || blocks == [] then |blocks| else WholeBlocks(blocks[..|blocks| - 1], n)
  }

  /** They fit, and one more would not. */
  lemma {:induction false} WholeBlocksFit(blocks: seq<Block>, n: nat)
    ensures |Output(blocks[..WholeBlocks(blocks, n)])| <= n
    ensures WholeBlocks(blocks, n) < |blocks| ==> |Output(blocks[..WholeBlocks(blocks, n) + 1])| > n
  {
    hide Frame;
    assert blocks[..|blocks|] == blocks;
    if |Output(blocks)| > n {
      var rest := blocks[..|blocks| - 1];
      WholeBlocksFit(rest, n);
      var k := WholeBlocks(rest, n);
      assert rest[..k] == blocks[..k];
      if k < |rest| {
        assert rest[..k + 1] == blocks[..k + 1];
      }
    }
  }

  /** The frame that is cut off, if it can be read, declares a whole number of words. */
  predicate CutIsAligned(blocks: seq<Block>, n: nat) {
    var k := WholeBlocks(blocks, n);
    k < |blocks| && At(blocks, k) + FRAME_SIZE <= n ==> |blocks[k].content| % 4 == 0
  }

  /**
   * Every block wholly inside the first `n` bytes reads back, and the cut one, if its frame is
   * there to be read, declares a whole number of words.
   */
  predicate PrefixReadable(codec: Codec, blocks: seq<Block>, n: nat) {
    var k := WholeBlocks(blocks, n);
    AllReadBack(codec, blocks[..k]) && CutIsAligned(blocks, n)
  }

  lemma ReadableBlock(codec: Codec, blocks: seq<Block>, n: nat, i: nat)
    requires PrefixReadable(codec, blocks, n) && i < WholeBlocks(blocks, n)
    ensures ReadsBack(codec, blocks[i])
  {
    assert blocks[..WholeBlocks(blocks, n)][i] == blocks[i];
    hide ReadsBack, WholeBlocks;
  }

  /** What a reader must report of the first `n` bytes. */
  function PrefixReading(blocks: seq<Block>, n: nat): Scanned {
    var k := WholeBlocks(blocks, n);
    Scanned(blocks[..k],
            if k > 0 && blocks[k - 1].IsEnd() then Complete(false)
            else if n > |Output(blocks[..k])| && k < |blocks| then Cut
            else AtBoundary)
  }

  function At(blocks: seq<Block>, i: nat): nat
    requires i <= |blocks|
  {
    |Output(blocks[..i])|
  }

  lemma NextAt(blocks: seq<Block>, i: nat)
    requires i < |blocks|
    ensures At(blocks, i + 1) == At(blocks, i) + FRAME_SIZE + |blocks[i].content|
    ensures Output(blocks[..i + 1]) == Output(blocks[..i]) + Frame(blocks[i])
  {
    assert blocks[..i + 1] == blocks[..i] + [blocks[i]];
    OutputSnoc(blocks[..i], blocks[i]);
    hide Frame, Output;
  }

  lemma {:induction false} OutputGrows(blocks: seq<Block>, i: nat, j: nat)
    requires i <= j <= |blocks|
    ensures Output(blocks[..i]) <= Output(blocks[..j])
    ensures i < j ==> At(blocks, i) + FRAME_SIZE <= At(blocks, j)
  {
    hide Frame, Output;
    if i < j {
      OutputGrows(blocks, i, j - 1);
      NextAt(blocks, j - 1);
    }
  }

  /** Block `i`'s frame, cut out of the whole output. */
  lemma FrameAt(blocks: seq<Block>, i: nat)
    requires i < |blocks|
    ensures At(blocks, i) <= At(blocks, i + 1) <= |Output(blocks)|
    ensures Output(blocks)[At(blocks, i)..At(blocks, i + 1)] == Frame(blocks[i])
  {
    NextAt(blocks, i);
    OutputGrows(blocks, i + 1, |blocks|);
    assert blocks[..|blocks|] == blocks;
    hide Frame, Output;
    var whole, upTo := Output(blocks), Output(blocks[..i + 1]);
    assert whole[..|upTo|] == upTo;
    assert whole[At(blocks, i)..At(blocks, i + 1)] == upTo[At(blocks, i)..];
  }

  lemma FrameReadBack(b: Block)
    requires |b.content| <= MAX_BLOCK_LENGTH
    ensures var frame := Frame(b);
      && |frame| == FRAME_SIZE + |b.content| && frame[FRAME_SIZE..] == b.content
      && Unpack16(frame[..2]) == b.blockType && Unpack32(frame[4..8]) == |b.content|
  {
    var frame := Frame(b);
    UnpackPack16(b.blockType);
    UnpackPack32(|b.content|);
    hide Pack, Unpack16, Unpack32;
    assert frame[..2] == Pack(b.blockType, 2) && frame[4..8] == Pack(|b.content|, 4);
  }

  /** A frame's fields, found inside the bytes that hold it. */
  lemma FieldsInside(data: seq<byte>, o: nat, frame: seq<byte>)
    requires FRAME_SIZE <= |frame| && o + |frame| <= |data| && data[o..o + |frame|] == frame
    ensures data[o..o + 2] == frame[..2] && data[o + 4..o + 8] == frame[4..8]
    ensures data[o + FRAME_SIZE..o + |frame|] == frame[FRAME_SIZE..]
  {
    forall k | 0 <= k < |frame| ensures data[o + k] == frame[k] {
      assert data[o..o + |frame|][k] == frame[k];
    }
  }

  lemma PrefixSlice(whole: seq<byte>, n: nat, a: nat, b: nat)
    requires a <= b <= n <= |whole|
    ensures whole[..n][a..b] == whole[a..b]
  {
  }

  lemma TakesAt(blocks: seq<Block>, i: nat)
    requires Accepted(blocks) && i < |blocks|
    ensures Takes(blocks[..i], blocks[i]) && |blocks[i].content| <= MAX_BLOCK_LENGTH
  {
  }

  /** Reading at block `i`'s offset, when all of it is there. */
  lemma WholeFrameRead(codec: Codec, blocks: seq<Block>, n: nat, i: nat)
    requires Accepted(blocks) && i < |blocks| && At(blocks, i + 1) <= n <= |Output(blocks)|
    ensures var b, data := blocks[i], Output(blocks)[..n];
      && At(blocks, i) <= n
      && Scan(codec, data[At(blocks, i)..], i > 0)
         == if |b.content| % 4 != 0 then Scanned([], Corrupt)
            else AfterFrame(codec, b.blockType, b.content, data[At(blocks, i + 1)..], i > 0)
  {
    hide *;
    var b, whole, o, next := blocks[i], Output(blocks), At(blocks, i), At(blocks, i + 1);
    var data := whole[..n];
    TakesAt(blocks, i);
    NextAt(blocks, i);
    FrameAt(blocks, i);
    FrameReadBack(b);
    PrefixSlice(whole, n, o, next);
    FieldsInside(data, o, Frame(b));
    ScanAt(codec, data, o, i > 0);
  }

  /** Reading where only part of block `i` is there. */
  lemma PartFrameRead(codec: Codec, blocks: seq<Block>, n: nat, i: nat)
    requires Accepted(blocks) && i < |blocks| && At(blocks, i) < n < At(blocks, i + 1)
    ensures n <= |Output(blocks)|
    ensures Scan(codec, Output(blocks)[..n][At(blocks, i)..], i > 0)
         == Scanned([], if n < At(blocks, i) + FRAME_SIZE || |blocks[i].content| % 4 == 0 then Cut else Corrupt)
  {
    hide Accepted, At, Output, Frame, Scan, Unpack16, Unpack32, AfterFrame, Takes;
    var b, whole, o, next := blocks[i], Output(blocks), At(blocks, i), At(blocks, i + 1);
    TakesAt(blocks, i);
    NextAt(blocks, i);
    FrameAt(blocks, i);
    FrameReadBack(b);
    FieldsInside(whole, o, Frame(b));
    ScanAt(codec, whole[..n], o, i > 0);
    if n >= o + FRAME_SIZE {
      PrefixSlice(whole, n, o + 4, o + 8);
    }
  }

  /** Only the first block carries the header's type code, and nothing follows an End block. */
  lemma HeaderFirstEndLast(codec: Codec, blocks: seq<Block>, i: nat)
    requires Accepted(blocks) && HeaderIsNeverIsolated(codec) && i < |blocks| && ReadsBack(codec, blocks[i])
    ensures (blocks[i].blockType == BT_FILE_HEADER) == (i == 0)
    ensures (i == 0) == blocks[i].IsHeader()
    ensures blocks[i].IsEnd() ==> i == |blocks| - 1
  {
    assert Takes(blocks[..i], blocks[i]);
    assert i + 1 < |blocks| ==> Takes(blocks[..i + 1], blocks[i + 1]);
  }

  /** Reading on from block `i`: everything whole is yielded, and the ending is right. */
  lemma {:induction false} ScanFrom(codec: Codec, blocks: seq<Block>, n: nat, i: nat)
    requires Accepted(blocks) && PrefixReadable(codec, blocks, n) && HeaderIsNeverIsolated(codec)
    requires 0 < n <= |Output(blocks)| && i <= WholeBlocks(blocks, n) && At(blocks, i) <= n
    requires i > 0 ==> !blocks[i - 1].IsEnd()
    ensures Scan(codec, Output(blocks)[..n][At(blocks, i)..], i > 0)
         == Scanned(blocks[i..WholeBlocks(blocks, n)], PrefixReading(blocks, n).ending)
    decreases |blocks| - i
  {
    hide *;
    var k := WholeBlocks(blocks, n);
    if i < k {
      StepFrom(codec, blocks, n, i);
      assert blocks[i..k] == [blocks[i]] + blocks[i + 1..k];
      if !blocks[i].IsEnd() {
        ScanFrom(codec, blocks, n, i + 1);
      }
    } else {
      StopsAt(codec, blocks, n);
    }
  }

  /** One whole block: it is yielded, and reading goes on unless it is the End block. */
  lemma StepFrom(codec: Codec, blocks: seq<Block>, n: nat, i: nat)
    requires Accepted(blocks) && PrefixReadable(codec, blocks, n) && HeaderIsNeverIsolated(codec)
    requires 0 < n <= |Output(blocks)| && i < WholeBlocks(blocks, n)
    ensures At(blocks, i) <= n && At(blocks, i + 1) <= n
    ensures var here := Scan(codec, Output(blocks)[..n][At(blocks, i)..], i > 0);
      if blocks[i].IsEnd() then here == Scanned([blocks[i]], PrefixReading(blocks, n).ending) && WholeBlocks(blocks, n) == i + 1
      else var rest := Scan(codec, Output(blocks)[..n][At(blocks, i + 1)..], i + 1 > 0);
           here == Scanned([blocks[i]] + rest.blocks, rest.ending)
  {
    hide *;
    ReadableBlock(codec, blocks, n, i);
    WholeBlocksAt(blocks, n);
    OutputGrows(blocks, i + 1, WholeBlocks(blocks, n));
    AtIs(blocks, i + 1);
    AtIs(blocks, WholeBlocks(blocks, n));
    WholeFrameRead(codec, blocks, n, i);
    HeaderFirstEndLast(codec, blocks, i);
    ReadsItself(codec, blocks[i], Output(blocks)[..n][At(blocks, i + 1)..], i > 0);
    if blocks[i].IsEnd() {
      EndsAt(blocks, n, i);
    }
  }

  lemma AtIs(blocks: seq<Block>, k: nat)
    requires k <= |blocks|
    ensures At(blocks, k) == |Output(blocks[..k])|
  {
  }

  /** A block that reads back is yielded as itself. */
  lemma ReadsItself(codec: Codec, b: Block, rest: seq<byte>, headerSeen: bool)
    requires ReadsBack(codec, b) && headerSeen == !b.IsHeader() && headerSeen != (b.blockType == BT_FILE_HEADER)
    ensures |b.content| % 4 == 0
    ensures AfterFrame(codec, b.blockType, b.content, rest, headerSeen)
         == if b.IsEnd() then Scanned([b], Complete(rest != []))
            else var after := Scan(codec, rest, true); Scanned([b] + after.blocks, after.ending)
  {
    hide Scan;
  }

  /** Past the last block, which is the End block, there is nothing. */
  lemma EndsAt(blocks: seq<Block>, n: nat, i: nat)
    requires i == |blocks| - 1 && blocks[i].IsEnd() && At(blocks, i + 1) <= n <= |Output(blocks)|
    ensures Output(blocks)[..n][At(blocks, i + 1)..] == [] && WholeBlocks(blocks, n) == |blocks|
    ensures PrefixReading(blocks, n).ending == Complete(false)
  {
    assert blocks[..i + 1] == blocks;
    hide Output;
  }

  /** Where the whole blocks of a prefix stop. */
  lemma StopsAt(codec: Codec, blocks: seq<Block>, n: nat)
    requires Accepted(blocks) && PrefixReadable(codec, blocks, n)
    requires var k := WholeBlocks(blocks, n); At(blocks, k) <= n && (k > 0 ==> !blocks[k - 1].IsEnd())
    requires 0 < n <= |Output(blocks)|
    ensures var k := WholeBlocks(blocks, n);
      Scan(codec, Output(blocks)[..n][At(blocks, k)..], k > 0) == Scanned([], PrefixReading(blocks, n).ending)
  {
    hide Frame, Scan, ReadAs, Output, Accepted;
    var k := WholeBlocks(blocks, n);
    WholeBlocksAt(blocks, n);
    AllAt(blocks);
    AtIs(blocks, k);
    hide WholeBlocks, At;
    if k < |blocks| && n > At(blocks, k) {
      PartFrameRead(codec, blocks, n, k);
    } else {
      assert n == At(blocks, k) && k > 0;
      ScanStep(codec, [], true);
      assert Output(blocks)[..n][At(blocks, k)..] == [];
    }
  }

  lemma AllAt(blocks: seq<Block>)
    ensures At(blocks, |blocks|) == |Output(blocks)| && At(blocks, 0) == 0
  {
    assert blocks[..|blocks|] == blocks && blocks[..0] == [];
  }

  /**
   * Prefix safety: of any non-empty readable prefix of what the writer wrote, the reader yields
   * exactly the blocks wholly inside; it reports a cut iff the prefix ends inside a block,
   * completion iff the End block is inside, and never rejects the file.
   */
  lemma PrefixIsSafe(codec: Codec, blocks: seq<Block>, n: nat)
    requires Accepted(blocks) && PrefixReadable(codec, blocks, n) && HeaderIsNeverIsolated(codec)
    requires 0 < n <= |Output(blocks)|
    ensures var k, scanned := WholeBlocks(blocks, n), Scan(codec, Output(blocks)[..n], false);
      && scanned.blocks == blocks[..k]
      && (scanned.ending == Cut <==> At(blocks, k) < n)
      && (scanned.ending.Complete? <==> k > 0 && blocks[k - 1].IsEnd())
      && scanned.ending !in {Corrupt, Complete(true)}
  {
    AtOrigin(blocks, n);
    EndingMeans(codec, blocks, n);
    hide *;
    ScanFrom(codec, blocks, n, 0);
  }

  lemma AtOrigin(blocks: seq<Block>, n: nat)
    requires n <= |Output(blocks)|
    ensures At(blocks, 0) == 0 && Output(blocks)[..n][0..] == Output(blocks)[..n]
    ensures blocks[0..WholeBlocks(blocks, n)] == blocks[..WholeBlocks(blocks, n)]
  {
    assert blocks[..0] == [];
    hide WholeBlocks;
  }

  /** The ending a prefix must have, spelled out. */
  lemma EndingMeans(codec: Codec, blocks: seq<Block>, n: nat)
    requires Accepted(blocks) && PrefixReadable(codec, blocks, n) && HeaderIsNeverIsolated(codec) && 0 < n <= |Output(blocks)|
    ensures var k, ending := WholeBlocks(blocks, n), PrefixReading(blocks, n).ending;
      && (ending == Cut <==> At(blocks, k) < n) && (ending.Complete? <==> k > 0 && blocks[k - 1].IsEnd())
      && ending !in {Corrupt, Complete(true)}
  {
    var k := WholeBlocks(blocks, n);
    WholeBlocksFit(blocks, n);
    if k > 0 && blocks[k - 1].IsEnd() {
      ReadableBlock(codec, blocks, n, k - 1);
      HeaderFirstEndLast(codec, blocks, k - 1);
      assert blocks[..k] == blocks;
    }
    assert blocks[..|blocks|] == blocks;
    hide Output, Accepted, PrefixReadable, ReadsBack, HeaderIsNeverIsolated, WholeBlocks;
  }

  // ----- When a whole file reads back ------------------------------------------------------------------

  /** A frame that yields the block it was written from: it reads back, and the rest goes on. */
  lemma YieldStep(codec: Codec, b: Block, rest: seq<byte>, headerSeen: bool, expected: seq<Block>)
    requires var read := if |b.content| % 4 != 0 then Scanned([], Corrupt)
                         else AfterFrame(codec, b.blockType, b.content, rest, headerSeen);
      read.blocks == [b] + expected
    ensures ReadsBack(codec, b)
    ensures if b.IsEnd() then expected == []
            else headerSeen || b.IsHeader() ==>
              && Scan(codec, rest, true).blocks == expected
              && (|b.content| % 4 == 0 ==>
                    Scan(codec, rest, true).ending == AfterFrame(codec, b.blockType, b.content, rest, headerSeen).ending)
  {
    hide Scan;
    var read := AfterFrame(codec, b.blockType, b.content, rest, headerSeen);
    assert ([b] + expected)[0] == b && ([b] + expected)[1..] == expected;
    var block := ReadAs(codec, b.blockType, b.content);
    assert block.Some?;
    assert read.blocks[0] == block.value;
    if !b.IsEnd() {
      assert read.blocks[1..] == Scan(codec, rest, headerSeen || b.IsHeader()).blocks;
    }
  }

  lemma {:induction false} YieldedReadsBack(codec: Codec, blocks: seq<Block>, i: nat)
    requires Accepted(blocks) && i <= |blocks| && At(blocks, i) <= |Output(blocks)|
    requires Scan(codec, Output(blocks)[At(blocks, i)..], i > 0).blocks == blocks[i..]
    ensures forall k :: i <= k < |blocks| ==> ReadsBack(codec, blocks[k])
    decreases |blocks| - i
  {
    hide *;
    if i < |blocks| {
      var whole := Output(blocks);
      FrameAt(blocks, i);
      assert whole[..|whole|] == whole;
      WholeFrameRead(codec, blocks, |whole|, i);
      assert blocks[i..] == [blocks[i]] + blocks[i + 1..];
      YieldStep(codec, blocks[i], whole[At(blocks, i + 1)..], i > 0, blocks[i + 1..]);
      HeaderAtOrigin(blocks, i);
      if !blocks[i].IsEnd() {
        YieldedReadsBack(codec, blocks, i + 1);
      }
    }
  }

  lemma HeaderAtOrigin(blocks: seq<Block>, i: nat)
    requires Accepted(blocks) && i < |blocks|
    ensures i == 0 <==> blocks[i].IsHeader()
  {
    assert Takes(blocks[..i], blocks[i]);
  }

  /** An accepted file reads back whole iff every block's own bytes read back as that block. */
  lemma WholeFileIff(codec: Codec, blocks: seq<Block>)
    requires Accepted(blocks) && HeaderIsNeverIsolated(codec) && blocks != []
    ensures Scan(codec, Output(blocks), false).blocks == blocks <==> AllReadBack(codec, blocks)
  {
    hide Output, Scan, Frame, ReadsBack, Accepted, HeaderIsNeverIsolated;
    var whole := Output(blocks);
    WholeIsAllBlocks(blocks);
    if Scan(codec, whole, false).blocks == blocks {
      YieldedReadsBack(codec, blocks, 0);
    }
    if AllReadBack(codec, blocks) {
      PrefixIsSafe(codec, blocks, |whole|);
    }
  }

  lemma WholeIsAllBlocks(blocks: seq<Block>)
    requires blocks != []
    ensures var whole := Output(blocks);
      && whole[..|whole|] == whole && whole[0..] == whole && blocks[0..] == blocks && blocks[..|blocks|] == blocks
      && At(blocks, 0) == 0 < |whole| && WholeBlocks(blocks, |whole|) == |blocks|
  {
    hide Frame;
    assert blocks[..0] == [] && blocks[..|blocks|] == blocks;
    OutputGrows(blocks, 0, |blocks|);
  }

  /** A prefix that was yielded whole, without the file being rejected, was readable. */
  lemma {:induction false} PrefixYielded(codec: Codec, blocks: seq<Block>, n: nat, i: nat)
    requires Accepted(blocks) && HeaderIsNeverIsolated(codec) && 0 < n <= |Output(blocks)|
    requires i <= WholeBlocks(blocks, n) && At(blocks, i) <= n
    requires i > 0 ==> !blocks[i - 1].IsEnd()
    requires var scanned := Scan(codec, Output(blocks)[..n][At(blocks, i)..], i > 0);
      scanned.blocks == blocks[i..WholeBlocks(blocks, n)] && scanned.ending != Corrupt
    ensures forall k :: i <= k < WholeBlocks(blocks, n) ==> ReadsBack(codec, blocks[k])
    ensures CutIsAligned(blocks, n)
    decreases |blocks| - i
  {
    hide *;
    var k := WholeBlocks(blocks, n);
    WholeBlocksAt(blocks, n);
    if i < k {
      OutputGrows(blocks, i + 1, k);
      AtIs(blocks, i + 1);
      AtIs(blocks, k);
      WholeFrameRead(codec, blocks, n, i);
      assert blocks[i..k] == [blocks[i]] + blocks[i + 1..k];
      YieldStep(codec, blocks[i], Output(blocks)[..n][At(blocks, i + 1)..], i > 0, blocks[i + 1..k]);
      AlignedIfReadBack(codec, blocks[i]);
      HeaderAtOrigin(blocks, i);
      if blocks[i].IsEnd() {
        EndIsLast(blocks, i);
        NothingCut(blocks, n);
      } else {
        PrefixYielded(codec, blocks, n, i + 1);
      }
    } else if k < |blocks| && At(blocks, k) < n {
      PartFrameRead(codec, blocks, n, k);
      AlignedCut(blocks, n);
    } else {
      NothingCut(blocks, n);
    }
  }

  lemma AlignedCut(blocks: seq<Block>, n: nat)
    requires var k := WholeBlocks(blocks, n);
      k < |blocks| && (n < At(blocks, k) + FRAME_SIZE || |blocks[k].content| % 4 == 0)
    ensures CutIsAligned(blocks, n)
  {
  }

  lemma NothingCut(blocks: seq<Block>, n: nat)
    requires WholeBlocks(blocks, n) == |blocks| || At(blocks, WholeBlocks(blocks, n)) >= n
    ensures CutIsAligned(blocks, n)
  {
  }

  lemma WholeBlocksAt(blocks: seq<Block>, n: nat)
    ensures var k := WholeBlocks(blocks, n); At(blocks, k) <= n && (k < |blocks| ==> At(blocks, k + 1) > n)
  {
    WholeBlocksFit(blocks, n);
  }

  lemma AlignedIfReadBack(codec: Codec, b: Block)
    requires ReadsBack(codec, b)
    ensures |b.content| % 4 == 0
  {
  }

  lemma EndIsLast(blocks: seq<Block>, i: nat)
    requires Accepted(blocks) && i < |blocks| && blocks[i].IsEnd()
    ensures i == |blocks| - 1
  {
    assert i + 1 < |blocks| ==> Takes(blocks[..i + 1], blocks[i + 1]);
  }

  /** Of any non-empty prefix, the whole blocks are yielded and the file kept iff it is readable. */
  lemma PrefixIff(codec: Codec, blocks: seq<Block>, n: nat)
    requires Accepted(blocks) && HeaderIsNeverIsolated(codec) && 0 < n <= |Output(blocks)|
    ensures var scanned := Scan(codec, Output(blocks)[..n], false);
      scanned.blocks == blocks[..WholeBlocks(blocks, n)] && scanned.ending != Corrupt
      <==> PrefixReadable(codec, blocks, n)
  {
    AtOrigin(blocks, n);
    var k, scanned := WholeBlocks(blocks, n), Scan(codec, Output(blocks)[..n], false);
    if PrefixReadable(codec, blocks, n) {
      PrefixIsSafe(codec, blocks, n);
    }
    hide Scan, Output, ReadsBack, WholeBlocks, Accepted, HeaderIsNeverIsolated;
    if scanned.blocks == blocks[..k] && scanned.ending != Corrupt {
      PrefixYielded(codec, blocks, n, 0);
      assert forall i :: 0 <= i < k ==> blocks[..k][i] == blocks[i];
    }
  }

  /** The writer takes a block the reader then refuses: content whose length is no multiple of 4. */
  lemma WriterAcceptsUnreadable(codec: Codec, header: seq<byte>)
    requires |header| <= MAX_BLOCK_LENGTH && HeaderIsNeverIsolated(codec)
    ensures var blocks := [Typed(BT_FILE_HEADER, header), Unknown(0x7F, [0])];
      Accepted(blocks) && Scan(codec, Output(blocks), false).ending == Corrupt
  {
    var blocks := [Typed(BT_FILE_HEADER, header), Unknown(0x7F, [0])];
    assert blocks[..0] == [] && blocks[..1] == [blocks[0]] && blocks[..2] == blocks;
    var whole, n := Output(blocks), |Output(blocks)|;
    assert whole[..n] == whole && At(blocks, 0) == 0 && whole[0..] == whole;
    FrameAt(blocks, 0);
    FrameAt(blocks, 1);
    HeaderReading(codec, header, whole[At(blocks, 1)..]);
    hide Scan, Output, At, Frame, AfterFrame, HeaderIsNeverIsolated;
    WholeFrameRead(codec, blocks, n, 0);
    WholeFrameRead(codec, blocks, n, 1);
  }

  /** A header either breaks the file or is yielded, and reading goes on. */
  lemma HeaderReading(codec: Codec, header: seq<byte>, rest: seq<byte>)
    requires HeaderIsNeverIsolated(codec)
    ensures var read := AfterFrame(codec, BT_FILE_HEADER, header, rest, false);
      read.ending == Corrupt || read.ending == Scan(codec, rest, true).ending
  {
    hide Scan;
  }

  /** The Record codec's part of `codec`. */
  ghost predicate ParsesRecords(codec: Codec, utf8: RecordCodec.Utf8) {
    forall content :: codec(BT_RECORD, content) == if RecordCodec.Parse(utf8, content).Some? then Parses else Broken
  }

  /** Every record that can be written is a block that reads back. */
  lemma RecordsReadBack(codec: Codec, utf8: RecordCodec.Utf8, r: Record)
    requires ParsesRecords(codec, utf8)
    requires RecordCodec.Encodable(r) && RecordCodec.FieldsValid(utf8, RecordCodec.ValuesOf(r))
    ensures ReadsBack(codec, Typed(BT_RECORD, RecordCodec.Encode(r)))
  {
    RecordCodec.EncodedIsAligned(r);
    RecordCodec.ParsedBack(utf8, r);
    hide RecordCodec.Parse, RecordCodec.Encode, RecordCodec.Fold, RecordCodec.FieldsValid, RecordCodec.OptionList;
  }
}
