/** RFC 1982 serial-number arithmetic over the 32-bit TCP sequence space. */
module Serial {
  import opened Blocks

  const SEQ_SPACE := 0x1_0000_0000
  const SEQ_HIGH_BIT := 0x8000_0000

  predicate SeqLt(a: int, b: int) {
    a != b && (a - b) % SEQ_SPACE >= SEQ_HIGH_BIT
  }

  predicate SeqLeq(a: int, b: int) {
    a == b || SeqLt(a, b)
  }

  /** The signed serial distance from `b` to `a`, in [-2^31, 2^31). */
  function SerialDelta(a: int, b: int): (d: int)
    ensures -SEQ_HIGH_BIT <= d < SEQ_HIGH_BIT
    ensures (b + d - a) % SEQ_SPACE == 0
  {
    var delta := (a - b) % SEQ_SPACE;
    if delta >= SEQ_HIGH_BIT then delta - SEQ_SPACE else delta
  }

  /** The wire value of an unbounded position. */
  function Wrap(position: int): u32 {
    position % SEQ_SPACE
  }

  lemma WrapOfValue(value: u32)
    ensures Wrap(value) == value
  {
  }

  /** Under 2^31 apart, the serial delta of two wrapped positions is their plain difference. */
  lemma DeltaOfWrapped(p: int, q: int)
    requires -SEQ_HIGH_BIT <= p - q < SEQ_HIGH_BIT
    ensures SerialDelta(Wrap(p), Wrap(q)) == p - q
  {
    var d := SerialDelta(Wrap(p), Wrap(q));
    var m := (d - (p - q)) / SEQ_SPACE;
    assert (Wrap(q) + d - Wrap(p)) % SEQ_SPACE == 0;
    assert d - (p - q) == SEQ_SPACE * m;
  }

  /** A pair passes the ordering rule iff its delta is non-negative, or it is the undefined distance. */
  lemma OrderedIffForward(a: u32, b: u32)
    ensures SeqLeq(a, b) <==> SerialDelta(b, a) >= 0 || SerialDelta(b, a) == -SEQ_HIGH_BIT
    ensures SeqLt(a, b) && SeqLt(b, a) <==> SerialDelta(b, a) == -SEQ_HIGH_BIT
  {
  }
}
