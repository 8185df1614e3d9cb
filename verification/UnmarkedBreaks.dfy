/**
 * The single-file half of the duty to declare a break: adjacent units of a decoded stream
 * whose input regions have a hole or dropped content between them need a Discontinuity.
 */
module UnmarkedBreaks {
  import opened Prelude
  import opened Blocks
  import Intervals
  /** An output stream: a participant of one of this file's own sessions. */
  datatype OutKey = OutKey(sessionId: u64, pid: u16)

  function SenderOf(r: Record): OutKey {
    OutKey(r.sessionId, r.senderPid)
  }

  function BrokenBy(brk: Discontinuity): OutKey {
    OutKey(brk.sessionId, brk.participantId)
  }

  /** What the file's Source and Decoder blocks declare. */
  datatype Tables = Tables(kinds: map<u16, SourceKind>, decodes: map<u16, bool>)
  {
    predicate DecodedLayer(r: Record) {
      r.decoderId.Some? && r.decoderId.value in decodes && decodes[r.decoderId.value]
    }
  }

  // ----- The rule, stated over pairs of blocks -------------------------------------------------

  /** The furthest a record's spans reach on one input stream. */
  function MaxReach(spans: seq<Span>, key: StreamKey): Option<int> {
    if spans == [] then None
    else
      var before, sp := MaxReach(spans[..|spans| - 1], key), spans[|spans| - 1];
      if SpanKey(sp) != key then before
      else Some(if before.None? then sp.offEnd else Max(before.value, sp.offEnd))
  }

  /** The first offset a record's spans start at on one input stream. */
  function MinStart(spans: seq<Span>, key: StreamKey): Option<int> {
    if spans == [] then None
    else
      var before, sp := MinStart(spans[..|spans| - 1], key), spans[|spans| - 1];
      if SpanKey(sp) != key then before
      else Some(if before.None? then sp.offStart else Min(before.value, sp.offStart))
  }

  /** Each is attained by a span, and bounds every span. */
  lemma {:induction false} ReachAndStart(spans: seq<Span>, key: StreamKey)
    ensures forall k :: 0 <= k < |spans| && SpanKey(spans[k]) == key ==>
      && MaxReach(spans, key).Some? && spans[k].offEnd <= MaxReach(spans, key).value
      && MinStart(spans, key).Some? && MinStart(spans, key).value <= spans[k].offStart
    ensures MaxReach(spans, key).Some? ==>
      exists k :: 0 <= k < |spans| && SpanKey(spans[k]) == key && spans[k].offEnd == MaxReach(spans, key).value
    ensures MinStart(spans, key).Some? ==>
      exists k :: 0 <= k < |spans| && SpanKey(spans[k]) == key && spans[k].offStart == MinStart(spans, key).value
  {
    if spans != [] {
      var rest := spans[..|spans| - 1];
      ReachAndStart(rest, key);
      assert forall k :: 0 <= k < |rest| ==> rest[k] == spans[k];
      assert spans[|spans| - 1] == spans[|rest|];
    }
  }

  /** Two records leave `[a, b)` of the input stream between what they cite. */
  predicate LeavesGap(earlier: Record, later: Record, key: StreamKey, a: int, b: int) {
    MaxReach(earlier.spans, key) == Some(a) && MinStart(later.spans, key) == Some(b) && a < b
  }

  predicate RecordOf(blocks: seq<FileBlock>, i: nat, p: OutKey) {
    i < |blocks| && blocks[i].RecordBlock? && SenderOf(blocks[i].record) == p
  }

  predicate BreakOf(blocks: seq<FileBlock>, i: nat, p: OutKey) {
    i < |blocks| && blocks[i].BreakBlock? && BrokenBy(blocks[i].brk) == p
  }

  /** Neighbouring records of one stream, with no Discontinuity declared between them. */
  predicate Neighbours(blocks: seq<FileBlock>, p: OutKey, i: nat, j: nat) {
    && i < j && RecordOf(blocks, i, p) && RecordOf(blocks, j, p)
    && forall m :: i < m < j ==> !RecordOf(blocks, m, p) && !BreakOf(blocks, m, p)
  }

  predicate IsHole(u: Undecoded) {
    ReasonClass(u) == Some("hole")
  }

  /** An explicit class wins; otherwise a canonical reason implies its class. */
  function ReasonClass(u: Undecoded): Option<string> {
    if u.reasonClass.Some? then u.reasonClass
    else if u.reason in {Some("gap"), Some("truncated")} then Some("hole")
    else if u.reason in {Some("undecodable"), Some("skipped"), Some("dropped")} then Some("bytes")
    else None
  }

  /** Block `m` says that `[a, b)` of the input stream is partly missing, or partly removed. */
  predicate Breaks(tables: Tables, blocks: seq<FileBlock>, m: nat, key: StreamKey, a: int, b: int) {
    && m < |blocks| && blocks[m].UndecodedBlock?
    && var u := blocks[m].undecoded;
      && MarkKey(u) == key && (u.sourceId in tables.kinds ==> tables.kinds[u.sourceId] != Capture)
      && (IsHole(u) || u.reason == Some("dropped"))
      && u.offStart < u.offEnd && u.offStart < b && a < u.offEnd
  }

  /** The stream is decoded, and its participant is not a unit sequence. */
  ghost predicate MustJoin(tables: Tables, blocks: seq<FileBlock>, p: OutKey) {
    AnyDecoded(tables, blocks, p) && AnyJoining(blocks, p)
  }

  /** Somewhere in the file two neighbours cannot join and nothing between them says so. */
  ghost predicate HasUnmarkedBreak(tables: Tables, blocks: seq<FileBlock>) {
    exists p: OutKey, i: nat, j: nat, key: StreamKey, a: int, b: int, m: nat ::
      && MustJoin(tables, blocks, p) && Neighbours(blocks, p, i, j)
      && LeavesGap(blocks[i].record, blocks[j].record, key, a, b) && Breaks(tables, blocks, m, key, a, b)
  }

  // ----- The checker's state ------------------------------------------------------------------------

  datatype Candidate = Candidate(key: StreamKey, gap: Intervals.Range)

  /** What one output stream has said about itself. */
  datatype StreamState = StreamState(
    units: bool,
    decoded: bool,
    prevReach: map<StreamKey, int>,
    brokeSince: bool,
    candidates: seq<Candidate>)

  function NewStream(units: bool): StreamState {
    StreamState(units, false, map[], false, [])
  }

  function ReachMap(spans: seq<Span>): (reach: map<StreamKey, int>)
    ensures forall key :: MaxReach(spans, key) == if key in reach then Some(reach[key]) else None
  {
    if spans == [] then map[]
    else
      var before, sp := ReachMap(spans[..|spans| - 1]), spans[|spans| - 1];
      var key := SpanKey(sp);
      before[key := if key in before then Max(before[key], sp.offEnd) else sp.offEnd]
  }

  /** A dictionary in insertion order: each cited stream with its first start. */
  function StartsOf(spans: seq<Span>): seq<(StreamKey, int)> {
    if spans == [] then []
    else PutMin(StartsOf(spans[..|spans| - 1]), SpanKey(spans[|spans| - 1]), spans[|spans| - 1].offStart)
  }

  function PutMin(starts: seq<(StreamKey, int)>, key: StreamKey, start: int): seq<(StreamKey, int)> {
    if starts == [] then [(key, start)]
    else if starts[0].0 == key then [(key, Min(starts[0].1, start))] + starts[1..]
    else [starts[0]] + PutMin(starts[1..], key, start)
  }

  predicate UniqueKeys(starts: seq<(StreamKey, int)>) {
    forall k, l :: 0 <= k < l < |starts| ==> starts[k].0 != starts[l].0
  }

  lemma {:induction false} PutMinHas(starts: seq<(StreamKey, int)>, key: StreamKey, start: int, k: StreamKey, s: int)
    requires UniqueKeys(starts)
    ensures UniqueKeys(PutMin(starts, key, start))
    ensures forall e :: e in PutMin(starts, key, start) ==> e.0 == key || exists f :: f in starts && f.0 == e.0
    ensures (k, s) in PutMin(starts, key, start) <==>
      if k != key then (k, s) in starts
      else if exists t :: (key, t) in starts then exists t :: (key, t) in starts && s == Min(t, start)
      else s == start
  {
    if starts != [] {
      assert starts == [starts[0]] + starts[1..];
      if starts[0].0 != key {
        PutMinHas(starts[1..], key, start, k, s);
      }
    }
  }

  /** The dictionary's entries are the minima. */
  lemma {:induction false} StartsAreMinima(spans: seq<Span>, key: StreamKey, start: int)
    ensures UniqueKeys(StartsOf(spans))
    ensures (key, start) in StartsOf(spans) <==> MinStart(spans, key) == Some(start)
  {
    if spans != [] {
      var rest, sp := spans[..|spans| - 1], spans[|spans| - 1];
      forall s ensures (key, s) in StartsOf(rest) <==> MinStart(rest, key) == Some(s) {
        StartsAreMinima(rest, key, s);
      }
      StartsAreMinima(rest, key, start);
      PutMinHas(StartsOf(rest), SpanKey(sp), sp.offStart, key, start);
    }
  }

  /** The candidates a record adds, given where its predecessor reached. */
  function NewCandidates(prevReach: map<StreamKey, int>, starts: seq<(StreamKey, int)>): (out: seq<Candidate>)
    ensures forall c :: c in out <==>
      c.key in prevReach && (c.key, c.gap.end) in starts && prevReach[c.key] == c.gap.start < c.gap.end
  {
    if starts == [] then []
    else
      var (key, begins) := starts[|starts| - 1];
      NewCandidates(prevReach, starts[..|starts| - 1])
      + if key in prevReach && prevReach[key] < begins then [Candidate(key, Intervals.Range(prevReach[key], begins))] else []
  }

  function RecordStep(tables: Tables, st: StreamState, r: Record): StreamState {
    StreamState(
      st.units,
      st.decoded || tables.DecodedLayer(r),
      ReachMap(r.spans),
      false,
      st.candidates + if st.brokeSince then [] else NewCandidates(st.prevReach, StartsOf(r.spans)))
  }

  /** A stream's state once the blocks have been read. */
  function StateOf(tables: Tables, blocks: seq<FileBlock>, p: OutKey): StreamState {
    if blocks == [] then NewStream(true)
    else
      var before, b := StateOf(tables, blocks[..|blocks| - 1], p), blocks[|blocks| - 1];
      if b.RecordBlock? && SenderOf(b.record) == p then RecordStep(tables, before, b.record)
      else if b.BreakBlock? && BrokenBy(b.brk) == p then before.(brokeSince := true)
      else if b.ParticipantBlock? && OutKey(b.sessionId, b.pid) == p then NewStream(b.units)
      else before
  }

  // ----- The state, read off the blocks -----------------------------------------------------------

  predicate DeclarationOf(blocks: seq<FileBlock>, i: nat, p: OutKey) {
    i < |blocks| && blocks[i].ParticipantBlock? && OutKey(blocks[i].sessionId, blocks[i].pid) == p
  }

  /** A stream is declared once, before any of its blocks. */
  ghost predicate DeclaredFirst(blocks: seq<FileBlock>, p: OutKey) {
    forall i, d :: 0 <= i < d && DeclarationOf(blocks, d, p) ==>
      !RecordOf(blocks, i, p) && !BreakOf(blocks, i, p) && !DeclarationOf(blocks, i, p)
  }

  function LastRecord(blocks: seq<FileBlock>, p: OutKey): (i: Option<nat>)
    ensures i.Some? ==> RecordOf(blocks, i.value, p)
    ensures forall m :: (if i.Some? then i.value + 1 else 0) <= m < |blocks| ==> !RecordOf(blocks, m, p)
  {
    if blocks == [] then None
    else
      var n := |blocks| - 1;
      var rest := blocks[..n];
      assert forall m :: 0 <= m < n ==> (RecordOf(rest, m, p) <==> RecordOf(blocks, m, p));
      if RecordOf(blocks, n, p) then Some(n) else LastRecord(rest, p)
  }

  /** The blocks before the last, seen alike from the prefix. */
  lemma PrefixAlike(blocks: seq<FileBlock>, p: OutKey)
    requires blocks != []
    ensures var n, rest := |blocks| - 1, blocks[..|blocks| - 1];
      && (forall m: nat {:trigger RecordOf(rest, m, p)} {:trigger RecordOf(blocks, m, p)} ::
            m < n ==> (RecordOf(rest, m, p) <==> RecordOf(blocks, m, p)) && rest[m] == blocks[m])
      && (forall m: nat {:trigger BreakOf(rest, m, p)} {:trigger BreakOf(blocks, m, p)} ::
            m < n ==> (BreakOf(rest, m, p) <==> BreakOf(blocks, m, p)))
      && (forall m: nat {:trigger DeclarationOf(rest, m, p)} {:trigger DeclarationOf(blocks, m, p)} ::
            m < n ==> (DeclarationOf(rest, m, p) <==> DeclarationOf(blocks, m, p)))
      && (DeclaredFirst(blocks, p) ==> DeclaredFirst(rest, p))
  {
    var rest := blocks[..|blocks| - 1];
    assert forall m :: 0 <= m < |rest| ==> rest[m] == blocks[m];
    if DeclaredFirst(blocks, p) {
      forall i, d | 0 <= i < d && DeclarationOf(rest, d, p)
        ensures !RecordOf(rest, i, p) && !BreakOf(rest, i, p) && !DeclarationOf(rest, i, p)
      {
        assert DeclarationOf(blocks, d, p);
        assert !RecordOf(blocks, i, p) && !BreakOf(blocks, i, p) && !DeclarationOf(blocks, i, p);
      }
    }
  }

  ghost predicate BrokenAfter(blocks: seq<FileBlock>, p: OutKey, i: nat) {
    exists m :: i < m < |blocks| && BreakOf(blocks, m, p)
  }

  /** What the state remembers of the stream's last record. */
  lemma {:induction false} StateTracks(tables: Tables, blocks: seq<FileBlock>, p: OutKey)
    requires DeclaredFirst(blocks, p)
    ensures var st, last := StateOf(tables, blocks, p), LastRecord(blocks, p);
      && (last.None? ==> st.prevReach == map[])
      && (last.Some? ==> st.prevReach == ReachMap(blocks[last.value].record.spans))
      && (last.Some? ==> (st.brokeSince <==> BrokenAfter(blocks, p, last.value)))
  {
    hide ReachMap, StartsOf, NewCandidates;
    if blocks != [] {
      var n, rest := |blocks| - 1, blocks[..|blocks| - 1];
      PrefixAlike(blocks, p);
      StateTracks(tables, rest, p);
      var last := LastRecord(rest, p);
      hide DeclaredFirst;
      if RecordOf(blocks, n, p) {
        assert LastRecord(blocks, p) == Some(n);
      } else {
        assert LastRecord(blocks, p) == last;
        if last.Some? {
          assert RecordOf(rest, last.value, p) && rest[last.value] == blocks[last.value];
          DeclaredEarlier(blocks, p, last.value);
          assert !DeclarationOf(blocks, n, p);
          BrokenSnoc(blocks, p, last.value);
        }
      }
    }
  }

  /** After a stream's record there is no declaration of it. */
  lemma DeclaredEarlier(blocks: seq<FileBlock>, p: OutKey, i: nat)
    requires DeclaredFirst(blocks, p) && RecordOf(blocks, i, p)
    ensures forall d :: i < d < |blocks| ==> !DeclarationOf(blocks, d, p)
  {
  }

  lemma BrokenSnoc(blocks: seq<FileBlock>, p: OutKey, i: nat)
    requires blocks != [] && i < |blocks| - 1
    ensures BrokenAfter(blocks, p, i)
       <==> BrokenAfter(blocks[..|blocks| - 1], p, i) || BreakOf(blocks, |blocks| - 1, p)
  {
    PrefixAlike(blocks, p);
    var rest := blocks[..|blocks| - 1];
    if m :| i < m < |rest| && BreakOf(rest, m, p) {
      assert BreakOf(blocks, m, p);
    }
    if m :| i < m < |blocks| && BreakOf(blocks, m, p) {
      assert m < |rest| ==> BreakOf(rest, m, p);
    }
  }

  /** Neighbouring records that leave the candidate's gap. */
  ghost predicate PairLeaves(blocks: seq<FileBlock>, p: OutKey, c: Candidate) {
    exists i: nat, j: nat :: Leaves(blocks, p, i, j, c)
  }

  predicate Leaves(blocks: seq<FileBlock>, p: OutKey, i: nat, j: nat, c: Candidate) {
    && Neighbours(blocks, p, i, j)
    && LeavesGap(blocks[i].record, blocks[j].record, c.key, c.gap.start, c.gap.end)
  }

  lemma LeavesInPrefix(blocks: seq<FileBlock>, p: OutKey, i: nat, j: nat, c: Candidate)
    requires blocks != [] && j < |blocks| - 1
    ensures Leaves(blocks, p, i, j, c) <==> Leaves(blocks[..|blocks| - 1], p, i, j, c)
  {
    PrefixAlike(blocks, p);
    hide LeavesGap, RecordOf, BreakOf, DeclaredFirst, DeclarationOf;
  }

  /** The last record and the one being read are neighbours iff no break has come between. */
  lemma LastPair(blocks: seq<FileBlock>, p: OutKey, i: nat)
    requires blocks != [] && RecordOf(blocks, |blocks| - 1, p)
    ensures var rest := blocks[..|blocks| - 1];
      Neighbours(blocks, p, i, |blocks| - 1) <==> LastRecord(rest, p) == Some(i) && !BrokenAfter(rest, p, i)
  {
    var n, rest := |blocks| - 1, blocks[..|blocks| - 1];
    PrefixAlike(blocks, p);
    var last := LastRecord(rest, p);
    assert last.Some? ==> RecordOf(blocks, last.value, p);
    assert i < n ==> (RecordOf(blocks, i, p) <==> RecordOf(rest, i, p));
    assert forall m :: i < m < n ==> (BreakOf(rest, m, p) <==> BreakOf(blocks, m, p));
    if last == Some(i) && !BrokenAfter(rest, p, i) {
      forall m | i < m < n ensures !RecordOf(blocks, m, p) && !BreakOf(blocks, m, p) {
        assert !RecordOf(rest, m, p) && !BreakOf(rest, m, p);
      }
      assert RecordOf(blocks, i, p);
    }
  }

  lemma NewCandidateIff(tables: Tables, blocks: seq<FileBlock>, p: OutKey, c: Candidate)
    requires blocks != [] && RecordOf(blocks, |blocks| - 1, p) && DeclaredFirst(blocks[..|blocks| - 1], p)
    ensures var n, rest := |blocks| - 1, blocks[..|blocks| - 1];
            var st := StateOf(tables, rest, p);
      (!st.brokeSince && c in NewCandidates(st.prevReach, StartsOf(blocks[n].record.spans)))
      <==> exists i: nat :: Leaves(blocks, p, i, n, c)
  {
    var n, rest := |blocks| - 1, blocks[..|blocks| - 1];
    var st, last := StateOf(tables, rest, p), LastRecord(rest, p);
    StateTracks(tables, rest, p);
    StartsAreMinima(blocks[n].record.spans, c.key, c.gap.end);
    hide StateOf, StartsOf, ReachMap, MinStart, MaxReach;
    if last.Some? {
      LastPair(blocks, p, last.value);
      assert rest[last.value] == blocks[last.value];
      if !st.brokeSince && c in NewCandidates(st.prevReach, StartsOf(blocks[n].record.spans)) {
        assert Leaves(blocks, p, last.value, n, c);
      }
    }
    if i: nat :| Leaves(blocks, p, i, n, c) {
      LastPair(blocks, p, i);
    }
  }

  /** The candidates held are exactly the gaps unmarked neighbours leave. */
  lemma {:induction false} CandidatesArePairs(tables: Tables, blocks: seq<FileBlock>, p: OutKey, c: Candidate)
    requires DeclaredFirst(blocks, p)
    ensures c in StateOf(tables, blocks, p).candidates <==> PairLeaves(blocks, p, c)
  {
    if blocks != [] {
      var n, rest := |blocks| - 1, blocks[..|blocks| - 1];
      PrefixAlike(blocks, p);
      CandidatesArePairs(tables, rest, p, c);
      PairsSnoc(blocks, p, c);
      hide NewCandidates, StartsOf, ReachMap;
      if RecordOf(blocks, n, p) {
        NewCandidateIff(tables, blocks, p, c);
      } else if DeclarationOf(blocks, n, p) {
        NoPairYet(blocks, p, c);
      }
      hide PairLeaves, Leaves, DeclaredFirst;
    }
  }

  lemma NoPairYet(blocks: seq<FileBlock>, p: OutKey, c: Candidate)
    requires blocks != [] && DeclarationOf(blocks, |blocks| - 1, p) && DeclaredFirst(blocks, p)
    ensures !PairLeaves(blocks, p, c)
  {
    hide LeavesGap;
  }

  /** A pair is either one of the prefix or ends at the last block. */
  lemma PairsSnoc(blocks: seq<FileBlock>, p: OutKey, c: Candidate)
    requires blocks != []
    ensures var n, rest := |blocks| - 1, blocks[..|blocks| - 1];
      PairLeaves(blocks, p, c) <==> PairLeaves(rest, p, c) || exists i: nat :: Leaves(blocks, p, i, n, c)
  {
    var n, rest := |blocks| - 1, blocks[..|blocks| - 1];
    if i: nat, j: nat :| Leaves(rest, p, i, j, c) {
      LeavesInPrefix(blocks, p, i, j, c);
    }
    if i: nat, j: nat :| Leaves(blocks, p, i, j, c) {
      if j < n {
        LeavesInPrefix(blocks, p, i, j, c);
      }
    }
  }

  predicate DecodedRecord(tables: Tables, blocks: seq<FileBlock>, i: nat, p: OutKey) {
    RecordOf(blocks, i, p) && tables.DecodedLayer(blocks[i].record)
  }

  predicate DeclaredJoining(blocks: seq<FileBlock>, i: nat, p: OutKey) {
    DeclarationOf(blocks, i, p) && !blocks[i].units
  }

  ghost predicate AnyDecoded(tables: Tables, blocks: seq<FileBlock>, p: OutKey) {
    exists i :: 0 <= i < |blocks| && DecodedRecord(tables, blocks, i, p)
  }

  ghost predicate AnyJoining(blocks: seq<FileBlock>, p: OutKey) {
    exists i :: 0 <= i < |blocks| && DeclaredJoining(blocks, i, p)
  }

  lemma KindSnoc(tables: Tables, blocks: seq<FileBlock>, p: OutKey)
    requires blocks != []
    ensures var n, rest := |blocks| - 1, blocks[..|blocks| - 1];
      && (AnyDecoded(tables, blocks, p) <==> AnyDecoded(tables, rest, p) || DecodedRecord(tables, blocks, n, p))
      && (AnyJoining(blocks, p) <==> AnyJoining(rest, p) || DeclaredJoining(blocks, n, p))
  {
    var n, rest := |blocks| - 1, blocks[..|blocks| - 1];
    PrefixAlike(blocks, p);
    if i :| 0 <= i < |rest| && DecodedRecord(tables, rest, i, p) {
      assert DecodedRecord(tables, blocks, i, p);
    }
    if i :| 0 <= i < |blocks| && DecodedRecord(tables, blocks, i, p) {
      assert i < n ==> DecodedRecord(tables, rest, i, p);
    }
    if i :| 0 <= i < |rest| && DeclaredJoining(rest, i, p) {
      assert DeclaredJoining(blocks, i, p);
    }
    if i :| 0 <= i < |blocks| && DeclaredJoining(blocks, i, p) {
      assert i < n ==> DeclaredJoining(rest, i, p);
    }
  }

  lemma NothingBefore(tables: Tables, blocks: seq<FileBlock>, p: OutKey)
    requires blocks != [] && DeclarationOf(blocks, |blocks| - 1, p) && DeclaredFirst(blocks, p)
    ensures var rest := blocks[..|blocks| - 1];
      !AnyDecoded(tables, rest, p) && !AnyJoining(rest, p)
  {
    PrefixAlike(blocks, p);
  }

  /** The stream's layer and adjacency, as its blocks say them. */
  lemma {:induction false} KindTracks(tables: Tables, blocks: seq<FileBlock>, p: OutKey)
    requires DeclaredFirst(blocks, p)
    ensures var st := StateOf(tables, blocks, p);
      (st.decoded <==> AnyDecoded(tables, blocks, p)) && (!st.units <==> AnyJoining(blocks, p))
  {
    if blocks != [] {
      var n, rest := |blocks| - 1, blocks[..|blocks| - 1];
      PrefixAlike(blocks, p);
      KindTracks(tables, rest, p);
      KindSnoc(tables, blocks, p);
      if DeclarationOf(blocks, n, p) {
        NothingBefore(tables, blocks, p);
      }
      hide ReachMap, StartsOf, NewCandidates, DeclaredFirst, AnyDecoded, AnyJoining;
    }
  }
}
