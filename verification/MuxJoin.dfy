/**
 The receiving session as a whole: several readers, each on its own channel, and the join that ends
 them. Channels may break and writes may fall short at any moment.
 */
module MuxJoin {
  import opened Prelude
  import opened WrittenRanges
  import opened MuxReceive
  import opened MuxResume

  /** What is being sent: `dealt[k]` lists the chunks put on channel k, in order. */
  datatype Sending = Sending(source: seq<byte>, session: Session, dealt: seq<seq<nat>>) {
    function Count(): nat {
      ChunkCount(|source|, session.resume)
    }

    predicate Deals(i: nat) {
      exists k, n :: 0 <= k < |dealt| && 0 <= n < |dealt[k]| && dealt[k][n] == i
    }

    /** Every chunk is on some channel, and nothing else is. */
    ghost predicate Valid() {
      && session.codec.RoundTrips() && session.resume <= |source| == session.declared <= U64_MAX
      && (forall k, n :: 0 <= k < |dealt| && 0 <= n < |dealt[k]| ==> dealt[k][n] < Count())
      && (forall i :: 0 <= i < Count() ==> Deals(i))
    }
  }

  /** How one turn of a reader goes: its next frame arrives, the disk takes only part of it, or the channel breaks. */
  datatype Outcome = Arrives | CutShort(count: nat) | ChannelBreaks

  datatype Turn = Turn(channel: nat, outcome: Outcome)

  /** `read[k]` counts the frames reader k has taken; `live[k]` says that it has not returned. */
  datatype Joining = Joining(r: Receiver, read: seq<nat>, live: seq<bool>)

  function Begin(t: Sending, file: seq<byte>): Joining {
    Joining(Start(t.session, file), seq(|t.dealt|, _ => 0), seq(|t.dealt|, _ => true))
  }

  /** Frame n of channel k: its chunks, then ChunkEnd. */
  function Incoming(t: Sending, k: nat, n: nat): Tagged
    requires k < |t.dealt|
  {
    if n < |t.dealt[k]| && t.dealt[k][n] < t.Count() then
      Tagged.Data(ChunkPayload(t.session.codec, ChunkAt(t.source, t.session.resume, t.dealt[k][n])))
    else ChunkEnd
  }

  function FrameOf(t: Sending, k: nat, n: nat, outcome: Outcome): Option<Tagged>
    requires k < |t.dealt|
  {
    if outcome.ChannelBreaks? then None else Some(Incoming(t, k, n))
  }

  function DiskOf(outcome: Outcome): Disk {
    if outcome.CutShort? then WritesOnly(outcome.count) else WritesAll
  }

  predicate Enabled(t: Sending, s: Joining, a: Turn) {
    a.channel < |t.dealt| == |s.read| == |s.live| && s.live[a.channel]
  }

  function Step(t: Sending, s: Joining, a: Turn): Joining
    requires Enabled(t, s, a)
  {
    var k := a.channel;
    var frame, disk := FrameOf(t, k, s.read[k], a.outcome), DiskOf(a.outcome);
    Joining(Receive(t.session, s.r, frame, disk), s.read[k := s.read[k] + 1],
            s.live[k := !ReaderStops(t.session, frame, disk)])
  }

  predicate CanRun(t: Sending, s: Joining, turns: seq<Turn>)
    decreases |turns|
  {
    turns != [] ==> Enabled(t, s, turns[0]) && CanRun(t, Step(t, s, turns[0]), turns[1..])
  }

  function RunAll(t: Sending, s: Joining, turns: seq<Turn>): Joining
    requires CanRun(t, s, turns)
    decreases |turns|
  {
    if turns == [] then s else RunAll(t, Step(t, s, turns[0]), turns[1..])
  }

  // ---------------------------------------------------------------- the invariant

  function RangeOf(t: Sending, c: nat): Range {
    if c < t.Count() then
      var chunk := ChunkAt(t.source, t.session.resume, c);
      Range(chunk.offset, |chunk.bytes|)
    else Range(0, 0)
  }

  /** A reader that has not failed has recorded every chunk it took, and returned only on ChunkEnd. */
  ghost predicate ReaderFits(t: Sending, log: seq<Range>, chunks: seq<nat>, read: nat, live: bool) {
    && (live ==> read <= |chunks|)
    && (!live ==> read == |chunks| + 1)
    && forall n :: 0 <= n < read && n < |chunks| ==> RangeOf(t, chunks[n]) in log
  }

  ghost predicate Inv(t: Sending, s: Joining) {
    && |s.read| == |s.live| == |t.dealt|
    && Faithful(t.source, t.session, s.r)
    && (!s.r.failed ==> ReadersFit(t, s.r.log, s.read, s.live))
  }

  /** The frame a turn brings, and what comes of it while nothing fails. */
  lemma TurnMeans(t: Sending, s: Joining, a: Turn)
    requires t.Valid() && Enabled(t, s, a)
    ensures var k, next := a.channel, Step(t, s, a);
      && GenuineFrame(t.source, t.session, FrameOf(t, k, s.read[k], a.outcome))
      && (!next.r.failed ==>
            && !s.r.failed && s.r.log <= next.r.log
            && (s.read[k] < |t.dealt[k]| ==> next.live[k] && RangeOf(t, t.dealt[k][s.read[k]]) in next.r.log)
            && (s.read[k] >= |t.dealt[k]| ==> !next.live[k]))
  {
    var k := a.channel;
    var n := s.read[k];
    FailsExactly(t.session, s.r, FrameOf(t, k, n, a.outcome), DiskOf(a.outcome));
    if n < |t.dealt[k]| {
      var chunk := ChunkAt(t.source, t.session.resume, t.dealt[k][n]);
      ChunkAccepted(t.source, t.session, t.dealt[k][n]);
      AcceptedIsGenuine(t.source, t.session, ChunkPayload(t.session.codec, chunk), chunk);
    }
  }

  ghost predicate ReadersFit(t: Sending, log: seq<Range>, read: seq<nat>, live: seq<bool>) {
    && |read| == |live| == |t.dealt|
    && forall k {:trigger read[k]} :: 0 <= k < |t.dealt| ==> ReaderFits(t, log, t.dealt[k], read[k], live[k])
  }

  /** One reader took one more frame; the log only grew. */
  lemma ReadersStep(t: Sending, log: seq<Range>, more: seq<Range>, read: seq<nat>, live: seq<bool>, k: nat, alive: bool)
    requires ReadersFit(t, log, read, live) && log <= more && k < |t.dealt| && live[k]
    requires read[k] < |t.dealt[k]| ==> alive && RangeOf(t, t.dealt[k][read[k]]) in more
    requires read[k] >= |t.dealt[k]| ==> !alive
    ensures ReadersFit(t, more, read[k := read[k] + 1], live[k := alive])
  {
    assert ReaderFits(t, log, t.dealt[k], read[k], live[k]);
    forall j | 0 <= j < |t.dealt| && j != k ensures ReaderFits(t, more, t.dealt[j], read[j], live[j]) {
      assert ReaderFits(t, log, t.dealt[j], read[j], live[j]);
    }
    assert ReaderFits(t, more, t.dealt[k], read[k] + 1, alive);
  }

  lemma TurnKeepsFaithful(t: Sending, s: Joining, a: Turn)
    requires t.Valid() && Faithful(t.source, t.session, s.r) && Enabled(t, s, a)
    ensures Faithful(t.source, t.session, Step(t, s, a).r)
  {
    TurnMeans(t, s, a);
    FaithfulStep(t.source, t.session, s.r, FrameOf(t, a.channel, s.read[a.channel], a.outcome), DiskOf(a.outcome));
  }

  lemma TurnKeepsReaders(t: Sending, s: Joining, a: Turn)
    requires t.Valid() && Enabled(t, s, a) && ReadersFit(t, s.r.log, s.read, s.live) && !Step(t, s, a).r.failed
    ensures ReadersFit(t, Step(t, s, a).r.log, Step(t, s, a).read, Step(t, s, a).live)
  {
    TurnMeans(t, s, a);
    var k, next := a.channel, Step(t, s, a);
    ReadersStep(t, s.r.log, next.r.log, s.read, s.live, k, next.live[k]);
  }

  lemma TurnKeepsInv(t: Sending, s: Joining, a: Turn)
    requires t.Valid() && Inv(t, s) && Enabled(t, s, a)
    ensures Inv(t, Step(t, s, a))
  {
    TurnKeepsFaithful(t, s, a);
    if !Step(t, s, a).r.failed {
      TurnMeans(t, s, a);
      TurnKeepsReaders(t, s, a);
    }
  }

  lemma {:induction false} RunKeepsInv(t: Sending, s: Joining, turns: seq<Turn>)
    requires t.Valid() && Inv(t, s) && CanRun(t, s, turns)
    ensures Inv(t, RunAll(t, s, turns))
    decreases |turns|
  {
    if turns != [] {
      TurnKeepsInv(t, s, turns[0]);
      RunKeepsInv(t, Step(t, s, turns[0]), turns[1..]);
    }
  }

  // ---------------------------------------------------------------- what the join finds

  /** All readers have returned. */
  predicate Joined(s: Joining) {
    forall k :: 0 <= k < |s.live| ==> !s.live[k]
  }

  ghost predicate GoodStart(t: Sending, file: seq<byte>) {
    |file| == t.session.resume && file <= t.source
  }

  lemma BeginInv(t: Sending, file: seq<byte>)
    requires t.Valid() && GoodStart(t, file)
    ensures Inv(t, Begin(t, file))
  {
    assert Start(t.session, file).log == [];
  }

  lemma JoinedRecorded(t: Sending, log: seq<Range>, read: seq<nat>, live: seq<bool>, i: nat)
    requires ReadersFit(t, log, read, live) && (forall k :: 0 <= k < |live| ==> !live[k]) && t.Deals(i)
    ensures RangeOf(t, i) in log
  {
    var k, n :| 0 <= k < |t.dealt| && 0 <= n < |t.dealt[k]| && t.dealt[k][n] == i;
    assert ReaderFits(t, log, t.dealt[k], read[k], live[k]);
  }

  lemma ChunkCoversOffset(t: Sending, x: nat) returns (i: nat)
    requires t.session.resume <= x < |t.source|
    ensures i < t.Count() && RangeOf(t, i).Covers(x)
  {
    i := ChunkOwner(|t.source|, t.session.resume, x);
  }

  /** Without a failure every chunk has been recorded, so the file is complete. */
  lemma JoinedIsComplete(t: Sending, s: Joining)
    requires t.Valid() && Inv(t, s) && Joined(s) && !s.r.failed
    ensures s.r.file == t.source && Prefix(t.session, s.r) == |t.source|
  {
    forall x | t.session.resume <= x < |t.source| ensures Covered(s.r.log, x) {
      var i := ChunkCoversOffset(t, x);
      JoinedRecorded(t, s.r.log, s.read, s.live, i);
    }
    FullyCoveredIsSource(t.source, t.session, s.r);
  }

  /**
   When every reader has returned, whatever the interleaving: a session without a failure holds the
   whole source; one with a failure holds, once trimmed, a prefix of the source that reaches its
   resume offset.
   */
  lemma JoinFindsAllOrPrefix(t: Sending, file: seq<byte>, turns: seq<Turn>)
    requires t.Valid() && GoodStart(t, file) && CanRun(t, Begin(t, file), turns)
    requires Joined(RunAll(t, Begin(t, file), turns))
    ensures var s := RunAll(t, Begin(t, file), turns);
      && (!s.r.failed ==> s.r.file == t.source && Prefix(t.session, s.r) == t.session.declared)
      && (s.r.failed ==>
            && t.session.resume <= Prefix(t.session, s.r) <= |t.source|
            && Resize(s.r.file, Prefix(t.session, s.r)) == t.source[..Prefix(t.session, s.r)])
  {
    BeginInv(t, file);
    RunKeepsInv(t, Begin(t, file), turns);
    var s := RunAll(t, Begin(t, file), turns);
    if s.r.failed {
      TrimmedIsSourcePrefix(t.source, t.session, s.r);
    } else {
      JoinedIsComplete(t, s);
    }
  }

  /** A turn that makes its reader throw: the channel breaks, or a chunk is cut short. */
  predicate IsFault(t: Sending, s: Joining, a: Turn)
    requires Enabled(t, s, a)
  {
    a.outcome.ChannelBreaks? || (a.outcome.CutShort? && s.read[a.channel] < |t.dealt[a.channel]|)
  }

  lemma TurnFailsExactly(t: Sending, s: Joining, a: Turn)
    requires t.Valid() && Enabled(t, s, a)
    ensures Step(t, s, a).r.failed <==> s.r.failed || IsFault(t, s, a)
  {
    var k := a.channel;
    FailsExactly(t.session, s.r, FrameOf(t, k, s.read[k], a.outcome), DiskOf(a.outcome));
    if s.read[k] < |t.dealt[k]| {
      ChunkAccepted(t.source, t.session, t.dealt[k][s.read[k]]);
    }
  }

  /** Some turn of the run was a fault. */
  predicate HasFault(t: Sending, s: Joining, turns: seq<Turn>)
    requires CanRun(t, s, turns)
    decreases |turns|
  {
    turns != [] && (IsFault(t, s, turns[0]) || HasFault(t, Step(t, s, turns[0]), turns[1..]))
  }

  /** The session fails exactly when some reader met a fault. */
  lemma {:induction false} SessionFailsExactly(t: Sending, s: Joining, turns: seq<Turn>)
    requires t.Valid() && CanRun(t, s, turns)
    ensures RunAll(t, s, turns).r.failed <==> s.r.failed || HasFault(t, s, turns)
    decreases |turns|
  {
    if turns != [] {
      TurnFailsExactly(t, s, turns[0]);
      SessionFailsExactly(t, Step(t, s, turns[0]), turns[1..]);
    }
  }
}
