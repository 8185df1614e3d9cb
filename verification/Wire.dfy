/** Little-endian integers, 4-byte padding and TLV options. */
module Wire {
  import opened Prelude
  import opened Blocks

  // ----- Little-endian integers -------------------------------------------------------

  /** One past the largest value `n` bytes hold. */
  function Bound(n: nat): (b: nat)
    ensures b > 0
  {
    if n == 0 then 1 else 0x100 * Bound(n - 1)
  }

  lemma Bounds()
    ensures Bound(2) == U16_END && Bound(4) == U32_END && Bound(8) == U64_END && U64_END == 2 * I64_END
  {
    assert Bound(1) == 0x100;
    assert Bound(3) == 0x100_0000;
    assert Bound(5) == 0x100_0000_0000;
    assert Bound(6) == 0x1_0000_0000_0000;
    assert Bound(7) == 0x100_0000_0000_0000;
  }

  function Pack(v: int, n: nat): (bytes: seq<byte>)
    ensures |bytes| == n
    decreases n
  {
    if n == 0 then [] else [v % 0x100] + Pack(v / 0x100, n - 1)
  }

  function Unpack(bytes: seq<byte>): (v: nat)
    ensures v < Bound(|bytes|)
  {
    if bytes == [] then 0 else bytes[0] + 0x100 * Unpack(bytes[1..])
  }

  lemma {:induction false} UnpackPack(v: nat, n: nat)
    requires v < Bound(n)
    ensures Unpack(Pack(v, n)) == v
  {
    if n > 0 {
      UnpackPack(v / 0x100, n - 1);
      assert Pack(v, n)[1..] == Pack(v / 0x100, n - 1);
    }
  }

  function Unpack16(bytes: seq<byte>): u16
    requires |bytes| == 2
  {
    Bounds();
    Unpack(bytes)
  }

  function Unpack32(bytes: seq<byte>): u32
    requires |bytes| == 4
  {
    Bounds();
    Unpack(bytes)
  }

  function Unpack64(bytes: seq<byte>): u64
    requires |bytes| == 8
  {
    Bounds();
    Unpack(bytes)
  }

  lemma UnpackPack16(v: u16)
    ensures Unpack16(Pack(v, 2)) == v
  {
    Bounds();
    UnpackPack(v, 2);
  }

  lemma UnpackPack32(v: u32)
    ensures Unpack32(Pack(v, 4)) == v
  {
    Bounds();
    UnpackPack(v, 4);
  }

  lemma UnpackPack64(v: u64)
    ensures Unpack64(Pack(v, 8)) == v
  {
    Bounds();
    UnpackPack(v, 8);
  }

  /** A signed 64-bit value, as two's complement. */
  function PackI64(v: i64): (bytes: seq<byte>)
    ensures |bytes| == 8
  {
    Pack(if v < 0 then v + U64_END else v, 8)
  }

  function UnpackI64(bytes: seq<byte>): i64
    requires |bytes| == 8
  {
    var v := Unpack64(bytes);
    if v >= I64_END then v - U64_END else v
  }

  lemma UnpackPackI64(v: i64)
    ensures UnpackI64(PackI64(v)) == v
  {
    UnpackPack64(if v < 0 then v + U64_END else v);
    hide Unpack64, Pack;
  }

  // ----- Padding -------------------------------------------------------------------------

  /** How many zero bytes pad `length` to a multiple of 4. */
  function Pad4(length: nat): (pad: nat)
    ensures pad < 4 && (length + pad) % 4 == 0
  {
    (4 - length % 4) % 4
  }

  function Zeros(n: nat): (z: seq<byte>)
    ensures |z| == n && forall k :: 0 <= k < n ==> z[k] == 0
  {
    if n == 0 then [] else [0] + Zeros(n - 1)
  }

  function Padded(data: seq<byte>): (out: seq<byte>)
    ensures |out| == |data| + Pad4(|data|) && out[..|data|] == data
  {
    data + Zeros(Pad4(|data|))
  }

  // ----- TLV options -----------------------------------------------------------------------

  const MAX_OPTION_VALUE := 0xFFFF

  predicate Fits(opt: RawOption) {
    |opt.value| <= MAX_OPTION_VALUE
  }

  predicate AllFit(opts: seq<RawOption>) {
    forall k :: 0 <= k < |opts| ==> Fits(opts[k])
  }

  /** One option with its header and padding; refused past the 65535-byte value cap. */
  function EncodeOption(opt: RawOption): seq<byte>
    requires Fits(opt)
  {
    Pack(opt.optionId, 2) + Pack(|opt.value|, 2) + Padded(opt.value)
  }

  function EncodeAll(opts: seq<RawOption>): seq<byte>
    requires AllFit(opts)
  {
    if opts == [] then [] else EncodeOption(opts[0]) + EncodeAll(opts[1..])
  }

  /** The options of a region, in file order, or None where a header or value overruns it. */
  function OptionsOf(data: seq<byte>): Option<seq<RawOption>> {
    if data == [] then Some([])
    else if |data| < 4 then None
    else
      var id, size := Unpack16(data[..2]), Unpack16(data[2..4]);
      if 4 + size > |data| then None
      else
        var rest := OptionsOf(data[Min(4 + size + Pad4(size), |data|)..]);
        if rest.None? then None else Some([RawOption(id, data[4..4 + size])] + rest.value)
  }

  /** The parts of an encoded option with more bytes behind it. */
  lemma OptionParts(opt: RawOption, rest: seq<byte>)
    requires Fits(opt)
    ensures var data, size := EncodeOption(opt) + rest, |opt.value|;
      && |data| == 4 + size + Pad4(size) + |rest|
      && data[..2] == Pack(opt.optionId, 2) && data[2..4] == Pack(size, 2)
      && data[4..4 + size] == opt.value && data[4 + size + Pad4(size)..] == rest
  {
    var data, size := EncodeOption(opt) + rest, |opt.value|;
    hide Pack, Zeros, Pad4;
    assert data[4..] == Padded(opt.value) + rest;
    assert data[4..4 + size] == data[4..][..size];
  }

  /** An encoded option is read back, and reading goes on after its padding. */
  lemma OptionReadBack(opt: RawOption, rest: seq<byte>)
    requires Fits(opt)
    ensures var data := EncodeOption(opt) + rest;
      OptionsOf(data) == if OptionsOf(rest).None? then None else Some([opt] + OptionsOf(rest).value)
  {
    var data, size := EncodeOption(opt) + rest, |opt.value|;
    OptionParts(opt, rest);
    UnpackPack16(opt.optionId);
    UnpackPack16(size);
    hide Pack, Unpack16, EncodeOption, Pad4;
  }

  lemma {:induction false} OptionsRoundTrip(opts: seq<RawOption>)
    requires AllFit(opts)
    ensures OptionsOf(EncodeAll(opts)) == Some(opts)
  {
    if opts != [] {
      OptionsRoundTrip(opts[1..]);
      OptionReadBack(opts[0], EncodeAll(opts[1..]));
      assert opts == [opts[0]] + opts[1..];
      hide EncodeOption, OptionsOf;
    }
  }

  /** Whatever was read fits the cap it was read under. */
  lemma {:induction false} ReadOptionsFit(data: seq<byte>)
    ensures OptionsOf(data).Some? ==> AllFit(OptionsOf(data).value)
  {
    if |data| >= 4 {
      var size := Unpack16(data[2..4]);
      if 4 + size <= |data| {
        ReadOptionsFit(data[Min(4 + size + Pad4(size), |data|)..]);
      }
    }
  }

  lemma {:induction false} EncodeConcat(a: seq<RawOption>, b: seq<RawOption>)
    requires AllFit(a) && AllFit(b)
    ensures AllFit(a + b) && EncodeAll(a + b) == EncodeAll(a) + EncodeAll(b)
  {
    hide EncodeOption, Fits;
    if a == [] {
      assert a + b == b;
    } else {
      assert forall k :: 0 <= k < |a[1..]| ==> a[1..][k] == a[k + 1];
      EncodeConcat(a[1..], b);
      assert (a + b)[1..] == a[1..] + b;
    }
  }

  /** What one step of reading yields, from the bytes still to be read. */
  lemma ReadStep(here: seq<byte>)
    ensures here == [] ==> OptionsOf(here) == Some([])
    ensures 0 < |here| < 4 ==> OptionsOf(here).None?
    ensures |here| >= 4 ==>
      var id, size := Unpack16(here[..2]), Unpack16(here[2..4]);
      && (4 + size > |here| ==> OptionsOf(here).None?)
      && (4 + size <= |here| ==>
            OptionsOf(here) == Prepended([RawOption(id, here[4..4 + size])],
                                         OptionsOf(here[Min(4 + size + Pad4(size), |here|)..])))
  {
    hide Unpack16, Pad4;
  }

  /** One step of reading from a position of the whole region. */
  lemma ReadStepAt(data: seq<byte>, pos: nat)
    requires pos <= |data|
    ensures pos == |data| ==> OptionsOf(data[pos..]) == Some([])
    ensures 0 < |data| - pos < 4 ==> OptionsOf(data[pos..]).None?
    ensures |data| - pos >= 4 ==>
      var id, size := Unpack16(data[pos..pos + 2]), Unpack16(data[pos + 2..pos + 4]);
      && (pos + 4 + size > |data| ==> OptionsOf(data[pos..]).None?)
      && (pos + 4 + size <= |data| ==>
            OptionsOf(data[pos..]) == Prepended([RawOption(id, data[pos + 4..pos + 4 + size])],
                                                OptionsOf(data[Min(pos + 4 + size + Pad4(size), |data|)..])))
  {
    hide *;
    var here := data[pos..];
    ReadStep(here);
    if |here| >= 4 {
      Head(data, pos);
      var size := Unpack16(data[pos + 2..pos + 4]);
      if 4 + size <= |here| {
        Part(data, pos, 4, 4 + size);
        Rest(data, pos, 4 + size + Pad4(size));
      }
    }
  }

  lemma Head(data: seq<byte>, pos: nat)
    requires pos + 4 <= |data|
    ensures data[pos..][..2] == data[pos..pos + 2] && data[pos..][2..4] == data[pos + 2..pos + 4]
  {
  }

  lemma Rest(data: seq<byte>, pos: nat, skip: nat)
    requires pos <= |data|
    ensures data[pos..][Min(skip, |data[pos..]|)..] == data[Min(pos + skip, |data|)..]
  {
  }

  lemma Part(data: seq<byte>, pos: nat, from: nat, to: nat)
    requires from <= to && pos + to <= |data|
    ensures data[pos..][from..to] == data[pos + from..pos + to]
  {
  }

  /** `iter_options`: the loop over the region. */
  method IterOptions(data: seq<byte>) returns (opts: Option<seq<RawOption>>)
    ensures opts == OptionsOf(data)
  {
    hide *;
    var pos := 0;
    var read: seq<RawOption> := [];
    assert data[0..] == data;
    NothingRead(OptionsOf(data));
    while pos < |data|
      invariant 0 <= pos
      invariant OptionsOf(data) == Prepended(read, OptionsOf(data[Min(pos, |data|)..]))
      decreases |data| - pos
    {
      ReadStepAt(data, pos);
      NoneYields(read);
      if |data| - pos < 4 {
        return None;
      }
      var id, size := Unpack16(data[pos..pos + 2]), Unpack16(data[pos + 2..pos + 4]);
      pos := pos + 4;
      if pos + size > |data| {
        return None;
      }
      var opt := RawOption(id, data[pos..pos + size]);
      pos := pos + size + Pad4(size);
      PrependMore(read, opt, OptionsOf(data[Min(pos, |data|)..]));
      read := read + [opt];
    }
    ReadStepAt(data, |data|);
    AllRead(read);
    return Some(read);
  }

  lemma NoneYields(read: seq<RawOption>)
    ensures Prepended(read, None) == None
  {
  }

  lemma AllRead(read: seq<RawOption>)
    ensures Prepended(read, Some([])) == Some(read)
  {
    assert read + [] == read;
  }

  function Prepended(read: seq<RawOption>, rest: Option<seq<RawOption>>): Option<seq<RawOption>> {
    if rest.None? then None else Some(read + rest.value)
  }

  lemma NothingRead(rest: Option<seq<RawOption>>)
    ensures Prepended([], rest) == rest
  {
    if rest.Some? {
      assert [] + rest.value == rest.value;
    }
  }

  lemma PrependMore(read: seq<RawOption>, opt: RawOption, rest: Option<seq<RawOption>>)
    ensures Prepended(read, Prepended([opt], rest)) == Prepended(read + [opt], rest)
  {
    if rest.Some? {
      assert read + ([opt] + rest.value) == read + [opt] + rest.value;
    }
  }
}
