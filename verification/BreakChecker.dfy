/** The checker that rules on unmarked breaks, block by block, against the pairwise rule. */
module BreakCheckers {
  import opened Prelude
  import opened Blocks
  import opened Intervals
  import opened UnmarkedBreaks

  // ----- Regions ------------------------------------------------------------------------

  /** Block `m` is a hole-class or dropped region of the input stream. */
  predicate RegionAt(tables: Tables, blocks: seq<FileBlock>, m: nat, key: StreamKey, r: Range) {
    m < |blocks| && RegionBlock(tables, blocks[m], key, r)
  }

  predicate RegionBlock(tables: Tables, b: FileBlock, key: StreamKey, r: Range) {
    && b.UndecodedBlock? && MarkKey(b.undecoded) == key && r == Range(b.undecoded.offStart, b.undecoded.offEnd)
    && (key.sourceId in tables.kinds ==> tables.kinds[key.sourceId] != Capture)
    && (IsHole(b.undecoded) || b.undecoded.reason == Some("dropped")) && r.start < r.end
  }

  ghost predicate SaysRegion(tables: Tables, blocks: seq<FileBlock>, key: StreamKey, r: Range) {
    exists m :: 0 <= m < |blocks| && RegionAt(tables, blocks, m, key, r)
  }

  lemma RegionSnoc(tables: Tables, blocks: seq<FileBlock>, b: FileBlock, key: StreamKey, r: Range)
    ensures SaysRegion(tables, blocks + [b], key, r) <==> SaysRegion(tables, blocks, key, r) || RegionBlock(tables, b, key, r)
  {
    hide RegionBlock;
    var all := blocks + [b];
    assert all[|blocks|] == b;
    if m :| 0 <= m < |blocks| && RegionAt(tables, blocks, m, key, r) {
      assert RegionAt(tables, all, m, key, r);
    }
    if RegionBlock(tables, b, key, r) {
      assert RegionAt(tables, all, |blocks|, key, r);
    }
    if m :| 0 <= m < |all| && RegionAt(tables, all, m, key, r) {
      assert m < |blocks| ==> RegionAt(tables, blocks, m, key, r);
    }
  }

  type Regions = map<StreamKey, seq<Range>>

  function RegionsOf(regions: Regions, key: StreamKey): seq<Range> {
    if key in regions then regions[key] else []
  }

  // ----- Sessions and declarations ----------------------------------------------------------

  predicate EndBlock(b: FileBlock, sid: u64) {
    b.SessionEnd? && b.sessionId == sid
  }

  ghost predicate Ended(blocks: seq<FileBlock>, sid: u64) {
    exists i :: 0 <= i < |blocks| && EndBlock(blocks[i], sid)
  }

  ghost predicate IsDeclared(blocks: seq<FileBlock>, p: OutKey) {
    exists i :: 0 <= i < |blocks| && DeclarationOf(blocks, i, p)
  }

  /** The stream a block belongs to, if it is one of a stream's. */
  function StreamOf(b: FileBlock): Option<OutKey> {
    match b
    case RecordBlock(r) => Some(SenderOf(r))
    case BreakBlock(brk) => Some(BrokenBy(brk))
    case ParticipantBlock(sid, pid, _) => Some(OutKey(sid, pid))
    case _ => None
  }

  /** Nothing else is wrong with the block: its stream is declared, once, and its session is open. */
  ghost predicate InOrder(blocks: seq<FileBlock>, b: FileBlock) {
    var p := StreamOf(b);
    && (p.Some? ==> !Ended(blocks, p.value.sessionId))
    && (p.Some? ==> (b.ParticipantBlock? <==> !IsDeclared(blocks, p.value)))
  }

  lemma EndedSnoc(blocks: seq<FileBlock>, b: FileBlock, sid: u64)
    ensures Ended(blocks + [b], sid) <==> Ended(blocks, sid) || EndBlock(b, sid)
  {
    var all := blocks + [b];
    assert all[|blocks|] == b;
    if i :| 0 <= i < |blocks| && EndBlock(blocks[i], sid) {
      assert EndBlock(all[i], sid);
    }
  }

  lemma DeclaredSnoc(blocks: seq<FileBlock>, b: FileBlock, p: OutKey)
    ensures IsDeclared(blocks + [b], p) <==> IsDeclared(blocks, p) || (b.ParticipantBlock? && OutKey(b.sessionId, b.pid) == p)
  {
    var all := blocks + [b];
    assert all[|blocks|] == b;
    if i :| 0 <= i < |blocks| && DeclarationOf(blocks, i, p) {
      assert DeclarationOf(all, i, p);
    }
    if b.ParticipantBlock? && OutKey(b.sessionId, b.pid) == p {
      assert DeclarationOf(all, |blocks|, p);
    }
    if i :| 0 <= i < |all| && DeclarationOf(all, i, p) {
      assert i < |blocks| ==> DeclarationOf(blocks, i, p);
    }
  }

  /** A file in which every block came in order. */
  ghost predicate Orderly(blocks: seq<FileBlock>) {
    forall n :: 0 <= n < |blocks| ==> InOrder(blocks[..n], blocks[n])
  }

  lemma OrderlySnoc(blocks: seq<FileBlock>, b: FileBlock)
    requires Orderly(blocks) && InOrder(blocks, b)
    ensures Orderly(blocks + [b])
  {
    hide InOrder;
    var all := blocks + [b];
    forall n | 0 <= n < |all| ensures InOrder(all[..n], all[n]) {
      assert all[..n] == blocks[..n];
      if n == |blocks| {
        assert all[..n] == blocks;
      }
    }
  }

  /** Then every stream is declared before its blocks. */
  lemma OrderlyDeclares(blocks: seq<FileBlock>, p: OutKey)
    requires Orderly(blocks)
    ensures DeclaredFirst(blocks, p)
  {
    forall i, d | 0 <= i < d && DeclarationOf(blocks, d, p)
      ensures !RecordOf(blocks, i, p) && !BreakOf(blocks, i, p) && !DeclarationOf(blocks, i, p)
    {
      assert InOrder(blocks[..d], blocks[d]);
      assert InOrder(blocks[..i], blocks[i]);
      var before := blocks[..d];
      if j :| 0 <= j < |blocks[..i]| && DeclarationOf(blocks[..i], j, p) {
        assert DeclarationOf(before, j, p);
      }
      assert DeclarationOf(blocks, i, p) ==> DeclarationOf(before, i, p);
    }
  }

  /** A block of another stream, or of none, changes nothing. */
  lemma StateSnoc(tables: Tables, blocks: seq<FileBlock>, b: FileBlock, p: OutKey)
    ensures StateOf(tables, blocks + [b], p) == Step(tables, StateOf(tables, blocks, p), b, p)
  {
    assert (blocks + [b])[..|blocks|] == blocks;
    hide RecordStep;
  }

  function Step(tables: Tables, st: StreamState, b: FileBlock, p: OutKey): StreamState {
    if StreamOf(b) != Some(p) then st
    else match b
      case RecordBlock(r) => RecordStep(tables, st, r)
      case BreakBlock(_) => st.(brokeSince := true)
      case ParticipantBlock(_, _, units) => NewStream(units)
      case _ => st
  }

  /** An undeclared stream is in no state to be judged. */
  lemma {:induction false} UndeclaredIsIdle(tables: Tables, blocks: seq<FileBlock>, p: OutKey)
    requires Orderly(blocks) && !IsDeclared(blocks, p)
    ensures StateOf(tables, blocks, p) == NewStream(true)
  {
    if blocks != [] {
      var n, rest := |blocks| - 1, blocks[..|blocks| - 1];
      assert blocks == rest + [blocks[n]];
      assert forall k :: 0 <= k < |rest| ==> rest[..k] == blocks[..k];
      assert InOrder(blocks[..n], blocks[n]);
      DeclaredSnoc(rest, blocks[n], p);
      StateSnoc(tables, rest, blocks[n], p);
      hide InOrder, IsDeclared;
      UndeclaredIsIdle(tables, rest, p);
      assert InOrder(rest, blocks[n]);
      NotItsBlock(rest, blocks[n], p);
    }
  }

  lemma NotItsBlock(blocks: seq<FileBlock>, b: FileBlock, p: OutKey)
    requires InOrder(blocks, b) && !IsDeclared(blocks, p) && !(b.ParticipantBlock? && OutKey(b.sessionId, b.pid) == p)
    ensures StreamOf(b) != Some(p)
  {
  }

  // ----- The checker ------------------------------------------------------------------------------

  predicate Judged(st: StreamState) {
    st.decoded && !st.units
  }

  type Live = seq<(OutKey, StreamState)>

  predicate LiveKeysUnique(live: Live) {
    forall k, l :: 0 <= k < l < |live| ==> live[k].0 != live[l].0
  }

  /** The open streams, each in the state its blocks say. */
  ghost predicate LiveIs(tables: Tables, live: Live, seen: seq<FileBlock>) {
    && LiveKeysUnique(live)
    && (forall k :: 0 <= k < |live| ==> live[k].1 == StateOf(tables, seen, live[k].0))
    && (forall p :: InLive(live, p) <==> IsDeclared(seen, p) && !Ended(seen, p.sessionId))
  }

  ghost predicate InLive(live: Live, p: OutKey) {
    exists k :: 0 <= k < |live| && live[k].0 == p
  }

  /** A candidate of some stream that must join and whose session is over. */
  ghost predicate Held(tables: Tables, seen: seq<FileBlock>, c: Candidate) {
    exists p :: HeldBy(tables, seen, p, c) && Ended(seen, p.sessionId)
  }

  ghost predicate HeldBy(tables: Tables, seen: seq<FileBlock>, p: OutKey, c: Candidate) {
    var st := StateOf(tables, seen, p);
    Judged(st) && c in st.candidates
  }

  ghost predicate RegionsAre(tables: Tables, holes: Regions, removed: Regions, seen: seq<FileBlock>) {
    forall key, r ::
      r in RegionsOf(holes, key) || r in RegionsOf(removed, key) <==> SaysRegion(tables, seen, key, r)
  }

  /** The candidates of the judged streams in a list. */
  function Collect(live: Live): (out: seq<Candidate>)
    ensures forall c :: c in out <==> exists k :: 0 <= k < |live| && Judged(live[k].1) && c in live[k].1.candidates
  {
    if live == [] then []
    else
      var n := |live| - 1;
      var before := Collect(live[..n]);
      assert forall k :: 0 <= k < n ==> live[..n][k] == live[k];
      if Judged(live[n].1) then before + live[n].1.candidates else before
  }

  /** The streams of one session, and the others. */
  function Split(live: Live, sid: u64): (parts: (Live, Live))
    ensures forall e :: e in parts.0 <==> e in live && e.0.sessionId == sid
    ensures forall e :: e in parts.1 <==> e in live && e.0.sessionId != sid
    ensures LiveKeysUnique(live) ==> LiveKeysUnique(parts.1)
  {
    if live == [] then ([], [])
    else
      var n := |live| - 1;
      assert live == live[..n] + [live[n]];
      var (closing, open) := Split(live[..n], sid);
      assert LiveKeysUnique(live) ==> forall e :: e in open ==> e.0 != live[n].0 by {
        if LiveKeysUnique(live) {
          forall e | e in open ensures e.0 != live[n].0 {
            assert e in live[..n];
          }
        }
      }
      if live[n].0.sessionId == sid then (closing + [live[n]], open) else (closing, open + [live[n]])
  }

  // ----- One block more --------------------------------------------------------------------------

  /** A block that ends no session leaves what is held alone. */
  lemma HeldSame(tables: Tables, seen: seq<FileBlock>, b: FileBlock, c: Candidate)
    requires InOrder(seen, b) && !b.SessionEnd?
    ensures Held(tables, seen + [b], c) <==> Held(tables, seen, c)
  {
    hide IsDeclared, StateOf, Step, Ended;
    forall p: OutKey
      ensures Ended(seen + [b], p.sessionId) <==> Ended(seen, p.sessionId)
      ensures Ended(seen, p.sessionId) ==> (HeldBy(tables, seen + [b], p, c) <==> HeldBy(tables, seen, p, c))
    {
      EndedSnoc(seen, b, p.sessionId);
      StateSnoc(tables, seen, b, p);
      SameStep(tables, seen, b, p);
    }
  }

  /** An ended session's streams are in no later block. */
  lemma SameStep(tables: Tables, seen: seq<FileBlock>, b: FileBlock, p: OutKey)
    requires InOrder(seen, b)
    ensures Ended(seen, p.sessionId) ==> Step(tables, StateOf(tables, seen, p), b, p) == StateOf(tables, seen, p)
  {
    hide StateOf, RecordStep, IsDeclared, Ended;
  }

  /** Ending a session holds what its open streams leave. */
  lemma HeldEnd(tables: Tables, seen: seq<FileBlock>, b: FileBlock, live: Live, c: Candidate)
    requires b.SessionEnd? && Orderly(seen) && LiveIs(tables, live, seen)
    ensures Held(tables, seen + [b], c) <==> Held(tables, seen, c) || c in Collect(Split(live, b.sessionId).0)
  {
    var closing := Split(live, b.sessionId).0;
    forall p: OutKey
      ensures Ended(seen + [b], p.sessionId) <==> Ended(seen, p.sessionId) || p.sessionId == b.sessionId
      ensures HeldBy(tables, seen + [b], p, c) <==> HeldBy(tables, seen, p, c)
    {
      EndedSnoc(seen, b, p.sessionId);
      StateSnoc(tables, seen, b, p);
    }
    hide StateOf, Ended, IsDeclared, Orderly, LiveIs, HeldBy, Split;
    if p :| HeldBy(tables, seen, p, c) && p.sessionId == b.sessionId && !Ended(seen, p.sessionId) {
      ClosingHolds(tables, seen, b, live, p, c);
    }
    if c in Collect(closing) {
      var p := HoldsClosing(tables, seen, b, live, c);
      assert HeldBy(tables, seen + [b], p, c);
    }
    if Held(tables, seen, c) {
      var p :| HeldBy(tables, seen, p, c) && Ended(seen, p.sessionId);
      assert HeldBy(tables, seen + [b], p, c);
    }
  }

  /** What an open stream of the closing session holds is among what is closed. */
  lemma ClosingHolds(tables: Tables, seen: seq<FileBlock>, b: FileBlock, live: Live, p: OutKey, c: Candidate)
    requires b.SessionEnd? && Orderly(seen) && LiveIs(tables, live, seen)
    requires HeldBy(tables, seen, p, c) && p.sessionId == b.sessionId && !Ended(seen, p.sessionId)
    ensures c in Collect(Split(live, b.sessionId).0)
  {
    var closing := Split(live, b.sessionId).0;
    OpenIsLive(tables, seen, live, p, c);
    hide StateOf, Ended, IsDeclared, Orderly;
    var k :| 0 <= k < |live| && live[k].0 == p;
    assert live[k] in closing;
    var l :| 0 <= l < |closing| && closing[l] == live[k];
  }

  /** What is closed was held by an open stream of the closing session. */
  lemma HoldsClosing(tables: Tables, seen: seq<FileBlock>, b: FileBlock, live: Live, c: Candidate) returns (p: OutKey)
    requires b.SessionEnd? && LiveIs(tables, live, seen) && c in Collect(Split(live, b.sessionId).0)
    ensures HeldBy(tables, seen, p, c) && p.sessionId == b.sessionId
  {
    var closing := Split(live, b.sessionId).0;
    hide StateOf, Ended, IsDeclared;
    var l :| 0 <= l < |closing| && Judged(closing[l].1) && c in closing[l].1.candidates;
    assert closing[l] in live;
    var k :| 0 <= k < |live| && live[k] == closing[l];
    p := live[k].0;
  }

  /** A judged stream whose session is open is among the live ones. */
  lemma OpenIsLive(tables: Tables, seen: seq<FileBlock>, live: Live, p: OutKey, c: Candidate)
    requires Orderly(seen) && LiveIs(tables, live, seen) && HeldBy(tables, seen, p, c) && !Ended(seen, p.sessionId)
    ensures InLive(live, p)
  {
    hide IsDeclared, InOrder, Ended;
    if !IsDeclared(seen, p) {
      UndeclaredIsIdle(tables, seen, p);
    }
  }

  /** The live streams after a block of one of them. */
  lemma LiveStep(tables: Tables, seen: seq<FileBlock>, b: FileBlock, live: Live, n: nat)
    requires LiveIs(tables, live, seen) && n < |live| && StreamOf(b) == Some(live[n].0) && !b.ParticipantBlock?
    ensures LiveIs(tables, live[n := (live[n].0, Step(tables, live[n].1, b, live[n].0))], seen + [b])
  {
    var after := live[n := (live[n].0, Step(tables, live[n].1, b, live[n].0))];
    hide RecordStep, StateOf, IsDeclared, Ended;
    forall k | 0 <= k < |after| ensures after[k].1 == StateOf(tables, seen + [b], after[k].0) {
      StateSnoc(tables, seen, b, live[k].0);
    }
    forall p: OutKey
      ensures InLive(after, p) <==> InLive(live, p)
      ensures IsDeclared(seen + [b], p) <==> IsDeclared(seen, p)
      ensures Ended(seen + [b], p.sessionId) <==> Ended(seen, p.sessionId)
    {
      DeclaredSnoc(seen, b, p);
      EndedSnoc(seen, b, p.sessionId);
      if k :| 0 <= k < |live| && live[k].0 == p {
        assert after[k].0 == p;
      }
      if k :| 0 <= k < |after| && after[k].0 == p {
        assert live[k].0 == p;
      }
    }
  }

  /** The live streams after a block that belongs to none. */
  lemma LiveOther(tables: Tables, seen: seq<FileBlock>, b: FileBlock, live: Live)
    requires LiveIs(tables, live, seen) && StreamOf(b).None? && !b.SessionEnd?
    ensures LiveIs(tables, live, seen + [b])
  {
    hide StateOf, IsDeclared, Ended, InLive;
    forall k | 0 <= k < |live| ensures live[k].1 == StateOf(tables, seen + [b], live[k].0) {
      StateSnoc(tables, seen, b, live[k].0);
    }
    forall p: OutKey
      ensures IsDeclared(seen + [b], p) <==> IsDeclared(seen, p)
      ensures Ended(seen + [b], p.sessionId) <==> Ended(seen, p.sessionId)
    {
      DeclaredSnoc(seen, b, p);
      EndedSnoc(seen, b, p.sessionId);
    }
  }

  /** The live streams after a declaration. */
  lemma LiveDeclared(tables: Tables, seen: seq<FileBlock>, b: FileBlock, live: Live)
    requires LiveIs(tables, live, seen) && b.ParticipantBlock? && InOrder(seen, b)
    ensures LiveIs(tables, live + [(OutKey(b.sessionId, b.pid), NewStream(b.units))], seen + [b])
  {
    var q := OutKey(b.sessionId, b.pid);
    var after := live + [(q, NewStream(b.units))];
    assert !InLive(live, q);
    hide StateOf, IsDeclared, Ended;
    assert forall k :: 0 <= k < |live| ==> after[k] == live[k] && live[k].0 != q;
    forall k | 0 <= k < |after| ensures after[k].1 == StateOf(tables, seen + [b], after[k].0) {
      StateSnoc(tables, seen, b, after[k].0);
    }
    forall p: OutKey
      ensures InLive(after, p) <==> InLive(live, p) || p == q
      ensures IsDeclared(seen + [b], p) <==> IsDeclared(seen, p) || p == q
      ensures Ended(seen + [b], p.sessionId) <==> Ended(seen, p.sessionId)
    {
      DeclaredSnoc(seen, b, p);
      EndedSnoc(seen, b, p.sessionId);
      assert after[|live|].0 == q;
      if k :| 0 <= k < |live| && live[k].0 == p {
        assert after[k].0 == p;
      }
    }
  }

  /** The live streams after a session's end. */
  lemma LiveClosed(tables: Tables, seen: seq<FileBlock>, b: FileBlock, live: Live)
    requires LiveIs(tables, live, seen) && b.SessionEnd?
    ensures LiveIs(tables, Split(live, b.sessionId).1, seen + [b])
  {
    var open := Split(live, b.sessionId).1;
    hide StateOf, IsDeclared, Ended;
    forall k | 0 <= k < |open| ensures open[k].1 == StateOf(tables, seen + [b], open[k].0) {
      StateSnoc(tables, seen, b, open[k].0);
      assert open[k] in live;
    }
    forall p: OutKey
      ensures InLive(open, p) <==> InLive(live, p) && p.sessionId != b.sessionId
      ensures IsDeclared(seen + [b], p) <==> IsDeclared(seen, p)
      ensures Ended(seen + [b], p.sessionId) <==> Ended(seen, p.sessionId) || p.sessionId == b.sessionId
    {
      DeclaredSnoc(seen, b, p);
      EndedSnoc(seen, b, p.sessionId);
      if k :| 0 <= k < |open| && open[k].0 == p {
        assert open[k] in live;
        var l :| 0 <= l < |live| && live[l] == open[k];
      }
      if k :| 0 <= k < |live| && live[k].0 == p && p.sessionId != b.sessionId {
        assert live[k] in open;
        var l :| 0 <= l < |open| && open[l] == live[k];
      }
    }
  }

  // ----- The verdict --------------------------------------------------------------------------------

  predicate Meets(r: Range, gap: Range) {
    r.start < gap.end && gap.start < r.end
  }

  /** Some stream's candidate meets some region of the same input stream. */
  ghost predicate Fires(tables: Tables, blocks: seq<FileBlock>, p: OutKey, c: Candidate, r: Range) {
    HeldBy(tables, blocks, p, c) && SaysRegion(tables, blocks, c.key, r) && Meets(r, c.gap)
  }

  lemma JudgedIff(tables: Tables, blocks: seq<FileBlock>, p: OutKey)
    requires Orderly(blocks)
    ensures Judged(StateOf(tables, blocks, p)) <==> MustJoin(tables, blocks, p)
  {
    OrderlyDeclares(blocks, p);
    KindTracks(tables, blocks, p);
    hide StateOf, AnyDecoded, AnyJoining, Orderly, DeclaredFirst;
  }

  /** The held state says exactly what the rule over pairs says. */
  lemma FiresIffUnmarked(tables: Tables, blocks: seq<FileBlock>)
    requires Orderly(blocks)
    ensures (exists p, c, r :: Fires(tables, blocks, p, c, r)) <==> HasUnmarkedBreak(tables, blocks)
  {
    if p, c, r :| Fires(tables, blocks, p, c, r) {
      FiresIsUnmarked(tables, blocks, p, c, r);
    }
    if HasUnmarkedBreak(tables, blocks) {
      UnmarkedFires(tables, blocks);
    }
  }

  lemma FiresIsUnmarked(tables: Tables, blocks: seq<FileBlock>, p: OutKey, c: Candidate, r: Range)
    requires Orderly(blocks) && Fires(tables, blocks, p, c, r)
    ensures HasUnmarkedBreak(tables, blocks)
  {
    OrderlyDeclares(blocks, p);
    CandidatesArePairs(tables, blocks, p, c);
    JudgedIff(tables, blocks, p);
    hide StateOf, Orderly, DeclaredFirst, MustJoin, Neighbours, LeavesGap, IsHole;
    var i: nat, j: nat :| Leaves(blocks, p, i, j, c);
    var m :| 0 <= m < |blocks| && RegionAt(tables, blocks, m, c.key, r);
    assert Breaks(tables, blocks, m, c.key, c.gap.start, c.gap.end);
  }

  lemma UnmarkedFires(tables: Tables, blocks: seq<FileBlock>)
    requires Orderly(blocks) && HasUnmarkedBreak(tables, blocks)
    ensures exists p, c, r :: Fires(tables, blocks, p, c, r)
  {
    hide StateOf, Orderly, DeclaredFirst, MustJoin, LeavesGap, IsHole;
    var p: OutKey, i: nat, j: nat, key: StreamKey, a: int, b: int, m: nat :|
      && MustJoin(tables, blocks, p) && Neighbours(blocks, p, i, j)
      && LeavesGap(blocks[i].record, blocks[j].record, key, a, b) && Breaks(tables, blocks, m, key, a, b);
    var c := Candidate(key, Range(a, b));
    var r := Range(blocks[m].undecoded.offStart, blocks[m].undecoded.offEnd);
    OrderlyDeclares(blocks, p);
    CandidatesArePairs(tables, blocks, p, c);
    JudgedIff(tables, blocks, p);
    assert Leaves(blocks, p, i, j, c);
    assert RegionAt(tables, blocks, m, key, r);
    assert Fires(tables, blocks, p, c, r);
  }

  // ----- Where the Undecoded blocks stand does not matter ----------------------------------------------

  /** The file without its Undecoded blocks. */
  function WithoutUndecoded(blocks: seq<FileBlock>): seq<FileBlock> {
    if blocks == [] then []
    else
      var rest, b := WithoutUndecoded(blocks[..|blocks| - 1]), blocks[|blocks| - 1];
      if b.UndecodedBlock? then rest else rest + [b]
  }

  lemma {:induction false} StateIgnoresUndecoded(tables: Tables, blocks: seq<FileBlock>, p: OutKey)
    ensures StateOf(tables, blocks, p) == StateOf(tables, WithoutUndecoded(blocks), p)
  {
    if blocks != [] {
      var rest, b := blocks[..|blocks| - 1], blocks[|blocks| - 1];
      StateIgnoresUndecoded(tables, rest, p);
      assert blocks == rest + [b];
      StateSnoc(tables, rest, b, p);
      StateSnoc(tables, WithoutUndecoded(rest), b, p);
      hide StateOf, RecordStep;
    }
  }

  /** The same streams and the same Undecoded blocks, wherever those are stored, give the same verdict. */
  lemma UndecodedPlacementIsFree(tables: Tables, one: seq<FileBlock>, other: seq<FileBlock>)
    requires Orderly(one) && Orderly(other) && WithoutUndecoded(one) == WithoutUndecoded(other)
    requires forall u :: UndecodedBlock(u) in one <==> UndecodedBlock(u) in other
    ensures HasUnmarkedBreak(tables, one) <==> HasUnmarkedBreak(tables, other)
  {
    FiresIffUnmarked(tables, one);
    FiresIffUnmarked(tables, other);
    forall p, c, r ensures Fires(tables, one, p, c, r) <==> Fires(tables, other, p, c, r) {
      FiresAlike(tables, one, other, p, c, r);
    }
    hide Fires, HasUnmarkedBreak, Orderly, WithoutUndecoded;
  }

  lemma FiresAlike(tables: Tables, one: seq<FileBlock>, other: seq<FileBlock>, p: OutKey, c: Candidate, r: Range)
    requires WithoutUndecoded(one) == WithoutUndecoded(other)
    requires forall u :: UndecodedBlock(u) in one <==> UndecodedBlock(u) in other
    ensures Fires(tables, one, p, c, r) <==> Fires(tables, other, p, c, r)
  {
    hide StateOf, WithoutUndecoded, SaysRegion, Meets, Judged;
    StateIgnoresUndecoded(tables, one, p);
    StateIgnoresUndecoded(tables, other, p);
    RegionsOfSet(tables, one, other, c.key, r);
    RegionsOfSet(tables, other, one, c.key, r);
  }

  lemma RegionsOfSet(tables: Tables, one: seq<FileBlock>, other: seq<FileBlock>, key: StreamKey, r: Range)
    requires forall u :: UndecodedBlock(u) in one ==> UndecodedBlock(u) in other
    ensures SaysRegion(tables, one, key, r) ==> SaysRegion(tables, other, key, r)
  {
    if m :| 0 <= m < |one| && RegionAt(tables, one, m, key, r) {
      assert one[m] == UndecodedBlock(one[m].undecoded) && one[m] in one;
      var k :| 0 <= k < |other| && other[k] == one[m];
      assert RegionAt(tables, other, k, key, r);
    }
  }

  // ----- The checker itself ------------------------------------------------------------------------------

  /** How far a record's spans reach on each input stream, and where they start. */
  method ReachAndStarts(spans: seq<Span>) returns (reach: map<StreamKey, int>, starts: seq<(StreamKey, int)>)
    ensures reach == ReachMap(spans) && starts == StartsOf(spans)
  {
    hide PutMin;
    reach, starts := map[], [];
    for n := 0 to |spans|
      invariant reach == ReachMap(spans[..n]) && starts == StartsOf(spans[..n])
    {
      var sp := spans[n];
      assert spans[..n + 1][..n] == spans[..n];
      var key := SpanKey(sp);
      reach := reach[key := if key in reach then Max(reach[key], sp.offEnd) else sp.offEnd];
      starts := PutMin(starts, key, sp.offStart);
    }
    assert spans[..|spans|] == spans;
  }

  /** The gaps between where the predecessor reached and where this record starts. */
  method GapsBefore(prevReach: map<StreamKey, int>, starts: seq<(StreamKey, int)>) returns (found: seq<Candidate>)
    ensures found == NewCandidates(prevReach, starts)
  {
    found := [];
    for n := 0 to |starts|
      invariant found == NewCandidates(prevReach, starts[..n])
    {
      assert starts[..n + 1][..n] == starts[..n];
      var (key, begins) := starts[n];
      if key in prevReach && prevReach[key] < begins {
        found := found + [Candidate(key, Range(prevReach[key], begins))];
      }
    }
    assert starts[..|starts|] == starts;
  }

  /** Fold one record into its stream's tracking: which gaps its neighbour leaves open. */
  method TrackBreakCandidates(tables: Tables, st: StreamState, r: Record) returns (next: StreamState)
    ensures next == RecordStep(tables, st, r)
  {
    hide ReachMap, StartsOf, NewCandidates;
    var reach, starts := ReachAndStarts(r.spans);
    var found := [];
    if !st.brokeSince {
      found := GapsBefore(st.prevReach, starts);
    }
    next := StreamState(st.units, st.decoded || tables.DecodedLayer(r), reach, false, st.candidates + found);
  }

  /** A held region of the candidate's input stream lies in its gap. */
  predicate StruckBy(holes: Regions, removed: Regions, c: Candidate, r: Range) {
    Meets(r, c.gap) && (r in RegionsOf(holes, c.key) || r in RegionsOf(removed, c.key))
  }

  /** The verdict at the end of the file, when every marked region is known. */
  method CheckUnmarkedBreaks(held: seq<Candidate>, holes: Regions, removed: Regions) returns (raised: bool)
    ensures raised <==> exists n, r :: 0 <= n < |held| && StruckBy(holes, removed, held[n], r)
  {
    for n := 0 to |held|
      invariant forall k, r :: 0 <= k < n ==> !StruckBy(holes, removed, held[k], r)
    {
      var regions := RegionsOf(holes, held[n].key) + RegionsOf(removed, held[n].key);
      for m := 0 to |regions|
        invariant forall k :: 0 <= k < m ==> !Meets(regions[k], held[n].gap)
      {
        if Meets(regions[m], held[n].gap) {
          assert regions[m] in regions;
          assert StruckBy(holes, removed, held[n], regions[m]);
          return true;
        }
      }
      assert forall r :: r in regions <==> r in RegionsOf(holes, held[n].key) || r in RegionsOf(removed, held[n].key);
    }
    return false;
  }

  class BreakChecker {
    const tables: Tables
    var live: Live
    var breaks: seq<Candidate>
    var holes: Regions
    var removed: Regions
    /** Everything observed so far. */
    ghost var seen: seq<FileBlock>

    ghost predicate Valid()
      reads this
    {
      && Orderly(seen) && LiveIs(tables, live, seen) && RegionsAre(tables, holes, removed, seen)
      && (forall c :: c in breaks <==> Held(tables, seen, c))
    }

    constructor (tables: Tables)
      ensures Valid() && seen == [] && this.tables == tables
    {
      this.tables := tables;
      live, breaks, holes, removed, seen := [], [], map[], map[], [];
    }

    method Find(p: OutKey) returns (n: nat)
      requires InLive(live, p)
      ensures n < |live| && live[n].0 == p
    {
      n := 0;
      while live[n].0 != p
        invariant n < |live| && forall k :: 0 <= k < n ==> live[k].0 != p
        decreases |live| - n
      {
        n := n + 1;
      }
    }

    /** Absorb one block that violates nothing else. */
    method Observe(b: FileBlock)
      requires Valid() && InOrder(seen, b)
      modifies this
      ensures Valid() && seen == old(seen) + [b]
    {
      ghost var before := live;
      var p := StreamOf(b);
      Streams(b);
      OrderlySnoc(seen, b);
      RegionsSame(b);
      BreaksSame(b);
      hide LiveIs, Held, HeldBy, RegionsAre, Orderly, InOrder, StateOf, RecordStep, Collect, Split, SaysRegion, StreamOf;
      match b {
        case ParticipantBlock(sid, pid, units) =>
          LiveDeclared(tables, seen, b, live);
          live := live + [(OutKey(sid, pid), NewStream(units))];
        case RecordBlock(r) =>
          var n := Find(SenderOf(r));
          LiveStep(tables, seen, b, live, n);
          StepIs(tables, live[n].1, b, live[n].0);
          var next := TrackBreakCandidates(tables, live[n].1, r);
          live := live[n := (live[n].0, next)];
        case BreakBlock(brk) =>
          var n := Find(BrokenBy(brk));
          LiveStep(tables, seen, b, live, n);
          StepIs(tables, live[n].1, b, live[n].0);
          live := live[n := (live[n].0, live[n].1.(brokeSince := true))];
        case UndecodedBlock(u) =>
          LiveOther(tables, seen, b, live);
          AddRegion(u);
        case SessionEnd(sid, _) =>
          var (closing, open) := Split(live, sid);
          EndsSession(b);
          LiveClosed(tables, seen, b, live);
          breaks := breaks + Collect(closing);
          live := open;
        case _ =>
          LiveOther(tables, seen, b, live);
      }
      seen := seen + [b];
    }

    /** A block of a stream is of a live one, unless it declares it. */
    lemma Streams(b: FileBlock)
      requires Valid() && InOrder(seen, b)
      ensures var p := StreamOf(b);
        && (b.RecordBlock? ==> p == Some(SenderOf(b.record)) && InLive(live, p.value))
        && (b.BreakBlock? ==> p == Some(BrokenBy(b.brk)) && InLive(live, p.value))
        && (!b.RecordBlock? && !b.BreakBlock? && !b.ParticipantBlock? ==> p.None?)
    {
      hide Orderly, Held, RegionsAre, StateOf, IsDeclared, Ended;
    }

    /** Only an Undecoded block adds a region. */
    lemma RegionsSame(b: FileBlock)
      requires Valid()
      ensures !b.UndecodedBlock? ==> RegionsAre(tables, holes, removed, seen + [b])
    {
      hide Orderly, Held, LiveIs;
      if !b.UndecodedBlock? {
        forall key, r ensures SaysRegion(tables, seen + [b], key, r) <==> SaysRegion(tables, seen, key, r) {
          RegionSnoc(tables, seen, b, key, r);
        }
        hide SaysRegion;
      }
    }

    lemma BreaksSame(b: FileBlock)
      requires Valid() && InOrder(seen, b)
      ensures !b.SessionEnd? ==> forall c :: c in breaks <==> Held(tables, seen + [b], c)
    {
      hide Orderly, LiveIs, RegionsAre, Held;
      if !b.SessionEnd? {
        forall c ensures Held(tables, seen + [b], c) <==> Held(tables, seen, c) {
          HeldSame(tables, seen, b, c);
        }
      }
    }

    lemma EndsSession(b: FileBlock)
      requires Valid() && b.SessionEnd?
      ensures forall c :: c in breaks + Collect(Split(live, b.sessionId).0) <==> Held(tables, seen + [b], c)
    {
      hide Orderly, LiveIs, RegionsAre, Held, Collect, Split;
      forall c
        ensures c in breaks + Collect(Split(live, b.sessionId).0) <==> Held(tables, seen + [b], c)
      {
        HeldEnd(tables, seen, b, live, c);
      }
    }

    /** Hold a region for the end, unless it names a capture or is of another class. */
    method AddRegion(u: Undecoded)
      requires RegionsAre(tables, holes, removed, seen)
      modifies this`holes, this`removed
      ensures RegionsAre(tables, holes, removed, seen + [UndecodedBlock(u)])
    {
      ghost var b := UndecodedBlock(u);
      forall key, r
        ensures SaysRegion(tables, seen + [b], key, r) <==> SaysRegion(tables, seen, key, r) || RegionBlock(tables, b, key, r)
      {
        RegionSnoc(tables, seen, b, key, r);
      }
      hide SaysRegion, IsHole;
      if u.sourceId in tables.kinds && tables.kinds[u.sourceId] == Capture {
        return;
      }
      if u.offStart < u.offEnd {
        var key := MarkKey(u);
        if IsHole(u) {
          holes := holes[key := RegionsOf(holes, key) + [Range(u.offStart, u.offEnd)]];
        } else if u.reason == Some("dropped") {
          removed := removed[key := RegionsOf(removed, key) + [Range(u.offStart, u.offEnd)]];
        }
      }
    }

    /** At the end of the file: close what is still open, and rule. */
    method Finish() returns (raised: bool)
      requires Valid()
      modifies this`live, this`breaks
      ensures raised <==> HasUnmarkedBreak(tables, seen)
    {
      FinalCandidates();
      hide *;
      breaks := breaks + Collect(live);
      live := [];
      raised := CheckUnmarkedBreaks(breaks, holes, removed);
      VerdictIs(tables, seen, breaks, holes, removed);
    }

    lemma FinalCandidates()
      requires Valid()
      ensures RegionsAre(tables, holes, removed, seen) && Orderly(seen)
      ensures forall c :: c in breaks + Collect(live) <==> exists p :: HeldBy(tables, seen, p, c)
    {
      hide Orderly, RegionsAre, StateOf, InOrder, IsDeclared, Ended;
      forall c ensures c in breaks + Collect(live) <==> exists p :: HeldBy(tables, seen, p, c) {
        if p :| HeldBy(tables, seen, p, c) && !Ended(seen, p.sessionId) {
          OpenIsLive(tables, seen, live, p, c);
          var k :| 0 <= k < |live| && live[k].0 == p;
          assert Judged(live[k].1) && c in live[k].1.candidates;
        }
        if c in Collect(live) {
          var k :| 0 <= k < |live| && Judged(live[k].1) && c in live[k].1.candidates;
          assert HeldBy(tables, seen, live[k].0, c);
        }
      }
    }
  }

  lemma StepIs(tables: Tables, st: StreamState, b: FileBlock, p: OutKey)
    requires StreamOf(b) == Some(p)
    ensures b.RecordBlock? ==> Step(tables, st, b, p) == RecordStep(tables, st, b.record)
    ensures b.BreakBlock? ==> Step(tables, st, b, p) == st.(brokeSince := true)
  {
  }

  /** What the final check finds is what the rule says. */
  lemma VerdictIs(tables: Tables, seen: seq<FileBlock>, held: seq<Candidate>, holes: Regions, removed: Regions)
    requires Orderly(seen) && RegionsAre(tables, holes, removed, seen)
    requires forall c :: c in held <==> exists p :: HeldBy(tables, seen, p, c)
    ensures (exists n, r :: 0 <= n < |held| && StruckBy(holes, removed, held[n], r))
       <==> HasUnmarkedBreak(tables, seen)
  {
    FiresIffUnmarked(tables, seen);
    hide HasUnmarkedBreak, Orderly, HeldBy, SaysRegion;
    if n, r :| 0 <= n < |held| && StruckBy(holes, removed, held[n], r) {
      assert held[n] in held;
      var p :| HeldBy(tables, seen, p, held[n]);
      assert Fires(tables, seen, p, held[n], r);
    }
    if p, c, r :| Fires(tables, seen, p, c, r) {
      assert c in held;
      var n :| 0 <= n < |held| && held[n] == c;
      assert StruckBy(holes, removed, held[n], r);
    }
  }
}
