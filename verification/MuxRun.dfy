/**
 The whole parallel transfer of one file without faults: the producer, n sender workers, n FIFO
 channels and n readers, interleaved one atomic step at a time. Channels carry frames by chunk
 number; a reader acts on the bytes of that chunk's payload through MuxReceive.
 */
module MuxRun {
  import opened Prelude
  import opened WrittenRanges
  import opened MuxReceive
  import opened MuxResume
  import Scheduler = MuxScheduler

  datatype Transfer = Transfer(source: seq<byte>, session: Session, channels: nat) {
    ghost predicate Valid() {
      && channels > 0
      && session.declared == |source| <= U64_MAX
      && session.resume <= |source|
      && session.codec.RoundTrips()
    }

    function Count(): nat {
      ChunkCount(|source|, session.resume)
    }

    function Payload(i: nat): seq<byte>
      requires i < Count()
    {
      ChunkPayload(session.codec, ChunkAt(source, session.resume, i))
    }
  }

  datatype Frame = ChunkFrame(chunk: nat) | ChunkEndFrame | FileEndFrame

  datatype Sender = Idle | Busy(chunk: nat) | Sent(chunk: nat) | Done {
    function Unsent(): seq<nat> {
      if Busy? then [chunk] else []
    }

    function InFlight(): seq<nat> {
      if Busy? || Sent? then [chunk] else []
    }
  }

  /** One channel: its queue and worker, the wire, its reader, and the chunks read so far. */
  datatype Lane = Lane(queue: seq<nat>, sender: Sender, wire: seq<Frame>, reading: bool, taken: seq<nat>)

  /** `placed[i]` is the channel chunk i was put on; `log` the chunks read, over all channels, in order. */
  datatype Run = Run(placed: seq<nat>, finishing: bool, lanes: seq<Lane>, fileEndSent: bool, fileEndRead: bool,
                     receiver: Receiver, log: seq<nat>)

  datatype Action =
    | Enqueue(channel: nat)
    | Finish
    | Take(channel: nat)
    | Send(channel: nat)
    | Account(channel: nat)
    | Close(channel: nat)
    | SendFileEnd
    | Read(channel: nat)
    | ReadFileEnd

  function Initial(t: Transfer, file: seq<byte>): Run {
    Run([], false, seq(t.channels, _ => Lane([], Idle, [], true, [])), false, false, Start(t.session, file), [])
  }

  function PayloadBytes(t: Transfer, chunks: seq<nat>): nat {
    if chunks == [] then 0
    else (if chunks[0] < t.Count() then |t.Payload(chunks[0])| else 0) + PayloadBytes(t, chunks[1..])
  }

  /** What the scheduler counts as pending on each channel. */
  function Pending(t: Transfer, s: Run): (pending: seq<nat>)
    ensures |pending| == |s.lanes|
  {
    seq(|s.lanes|, k requires 0 <= k < |s.lanes| =>
      PayloadBytes(t, s.lanes[k].sender.InFlight()) + PayloadBytes(t, s.lanes[k].queue))
  }

  predicate AllDone(s: Run) {
    forall k :: 0 <= k < |s.lanes| ==> s.lanes[k].sender.Done?
  }

  predicate AllReadersJoined(s: Run) {
    forall k :: 0 <= k < |s.lanes| ==> !s.lanes[k].reading
  }

  predicate Enabled(t: Transfer, s: Run, a: Action) {
    match a
    case Enqueue(k) =>
      && !s.finishing && |s.placed| < t.Count() && k < |s.lanes|
      && Scheduler.HasRoom(Pending(t, s), |t.Payload(|s.placed|)|, k)
    case Finish => !s.finishing && |s.placed| == t.Count()
    case Take(k) => k < |s.lanes| && s.lanes[k].sender.Idle? && s.lanes[k].queue != []
    case Send(k) => k < |s.lanes| && s.lanes[k].sender.Busy?
    case Account(k) => k < |s.lanes| && s.lanes[k].sender.Sent?
    case Close(k) => k < |s.lanes| && s.lanes[k].sender.Idle? && s.lanes[k].queue == [] && s.finishing
    case SendFileEnd => |s.lanes| > 0 && AllDone(s) && !s.fileEndSent
    case Read(k) => k < |s.lanes| && s.lanes[k].reading && s.lanes[k].wire != []
    case ReadFileEnd => |s.lanes| > 0 && AllReadersJoined(s) && !s.fileEndRead && s.lanes[0].wire != []
  }

  function Step(t: Transfer, s: Run, a: Action): Run
    requires Enabled(t, s, a)
  {
    match a
    case Enqueue(k) =>
      var lane := s.lanes[k];
      s.(placed := s.placed + [k], lanes := s.lanes[k := lane.(queue := lane.queue + [|s.placed|])])
    case Finish => s.(finishing := true)
    case Take(k) =>
      var lane := s.lanes[k];
      s.(lanes := s.lanes[k := lane.(sender := Busy(lane.queue[0]), queue := lane.queue[1..])])
    case Send(k) =>
      var lane := s.lanes[k];
      s.(lanes := s.lanes[k := lane.(sender := Sent(lane.sender.chunk),
                                     wire := lane.wire + [ChunkFrame(lane.sender.chunk)])])
    case Account(k) => s.(lanes := s.lanes[k := s.lanes[k].(sender := Idle)])
    case Close(k) =>
      var lane := s.lanes[k];
      s.(lanes := s.lanes[k := lane.(sender := Done, wire := lane.wire + [ChunkEndFrame])])
    case SendFileEnd =>
      var lane := s.lanes[0];
      s.(fileEndSent := true, lanes := s.lanes[0 := lane.(wire := lane.wire + [FileEndFrame])])
    case Read(k) =>
      var lane := s.lanes[k];
      var rest := lane.(wire := lane.wire[1..]);
      (match lane.wire[0]
       case ChunkFrame(i) =>
         if i >= t.Count() then s.(receiver := s.receiver.(failed := true))
         else s.(lanes := s.lanes[k := rest.(taken := rest.taken + [i])],
                 receiver := Receive(t.session, s.receiver, Some(Tagged.Data(t.Payload(i))), WritesAll),
                 log := s.log + [i])
       case ChunkEndFrame => s.(lanes := s.lanes[k := rest.(reading := false)])
       case FileEndFrame =>
         s.(lanes := s.lanes[k := rest], receiver := Receive(t.session, s.receiver, Some(OtherTag), WritesAll)))
    case ReadFileEnd =>
      var lane := s.lanes[0];
      if lane.wire[0] == FileEndFrame then s.(fileEndRead := true, lanes := s.lanes[0 := lane.(wire := lane.wire[1..])])
      else s.(receiver := s.receiver.(failed := true))
  }

  /** Runs as lists of actions. */
  predicate CanRun(t: Transfer, s: Run, actions: seq<Action>)
    decreases |actions|
  {
    actions != [] ==> Enabled(t, s, actions[0]) && CanRun(t, Step(t, s, actions[0]), actions[1..])
  }

  function RunAll(t: Transfer, s: Run, actions: seq<Action>): Run
    requires CanRun(t, s, actions)
    decreases |actions|
  {
    if actions == [] then s else RunAll(t, Step(t, s, actions[0]), actions[1..])
  }

  // ---------------------------------------------------------------- which chunks belong to a channel

  /** The chunks put on channel k, in order. */
  function Mine(placed: seq<nat>, k: nat): seq<nat> {
    if placed == [] then []
    else
      var last := |placed| - 1;
      Mine(placed[..last], k) + if placed[last] == k then [last] else []
  }

  lemma {:induction false} MineMembers(placed: seq<nat>, k: nat)
    ensures forall m :: 0 <= m < |Mine(placed, k)| ==>
      Mine(placed, k)[m] < |placed| && placed[Mine(placed, k)[m]] == k
    ensures forall m, n :: 0 <= m < n < |Mine(placed, k)| ==> Mine(placed, k)[m] < Mine(placed, k)[n]
    ensures forall i :: 0 <= i < |placed| && placed[i] == k ==> i in Mine(placed, k)
    decreases |placed|
  {
    if placed != [] {
      var init := placed[..|placed| - 1];
      MineMembers(init, k);
      assert forall i :: 0 <= i < |init| ==> init[i] == placed[i];
      assert forall m :: 0 <= m < |Mine(init, k)| ==> Mine(placed, k)[m] == Mine(init, k)[m];
    }
  }

  lemma MineAppend(placed: seq<nat>, channel: nat, k: nat)
    ensures Mine(placed + [channel], k) == Mine(placed, k) + if channel == k then [|placed|] else []
  {
    assert (placed + [channel])[..|placed|] == placed;
  }

  // ---------------------------------------------------------------- the invariant

  function Frames(chunks: seq<nat>): (frames: seq<Frame>)
    ensures |frames| == |chunks|
    ensures forall i :: 0 <= i < |chunks| ==> frames[i] == ChunkFrame(chunks[i])
  {
    seq(|chunks|, i requires 0 <= i < |chunks| => ChunkFrame(chunks[i]))
  }

  /** What follows the chunks on a wire. */
  function Tail(lane: Lane, fileEnd: bool): seq<Frame> {
    (if lane.sender.Done? && lane.reading then [ChunkEndFrame] else []) + if fileEnd then [FileEndFrame] else []
  }

  /** A channel holds its own chunks, in order: read, on the wire, in the worker's hands, queued. */
  ghost predicate LaneInv(mine: seq<nat>, lane: Lane, finishing: bool, fileEnd: bool) {
    exists onWire :: LaneShape(mine, lane, finishing, fileEnd, onWire)
  }

  ghost predicate LaneShape(mine: seq<nat>, lane: Lane, finishing: bool, fileEnd: bool, onWire: seq<nat>) {
    && lane.taken + onWire + lane.sender.Unsent() + lane.queue == mine
    && lane.wire == Frames(onWire) + Tail(lane, fileEnd)
    && (lane.sender.Done? ==> lane.queue == [] && finishing)
    && (!lane.reading ==> lane.sender.Done? && onWire == [])
    && (fileEnd ==> lane.sender.Done?)
  }

  predicate FileEndOnWire(s: Run, k: nat) {
    k == 0 && s.fileEndSent && !s.fileEndRead
  }

  ghost predicate LanesInv(t: Transfer, s: Run) {
    && |s.lanes| == t.channels
    && (forall k :: 0 <= k < t.channels ==> LaneInv(Mine(s.placed, k), s.lanes[k], s.finishing, FileEndOnWire(s, k)))
  }

  /** The order of the hand-over: all placed, then every ChunkEnd, then FileEnd, then FileEnd read. */
  ghost predicate PhasesInv(t: Transfer, s: Run) {
    && |s.placed| <= t.Count()
    && (forall i :: 0 <= i < |s.placed| ==> s.placed[i] < t.channels)
    && (s.finishing ==> |s.placed| == t.Count())
    && (s.fileEndSent ==> AllDone(s))
    && (s.fileEndRead ==> s.fileEndSent && AllReadersJoined(s))
  }

  ghost predicate Distinct(log: seq<nat>) {
    forall m, n :: 0 <= m < n < |log| ==> log[m] != log[n]
  }

  /** Chunks read so far: each once, and exactly those some reader took. */
  ghost predicate LogInv(t: Transfer, s: Run)
    requires |s.lanes| == t.channels
  {
    && Distinct(s.log)
    && (forall i :: i in s.log ==> i < |s.placed| && s.placed[i] < t.channels && i in s.lanes[s.placed[i]].taken)
    && (forall k, i :: 0 <= k < t.channels && i in s.lanes[k].taken ==> i in s.log)
  }

  function ChunkRange(t: Transfer, i: nat): Range
    requires i < t.Count()
  {
    var chunk := ChunkAt(t.source, t.session.resume, i);
    Range(chunk.offset, |chunk.bytes|)
  }

  /** The bytes of the chunks below n that are in the log. */
  function BytesRead(t: Transfer, log: seq<nat>, n: nat): nat
    requires n <= t.Count()
  {
    if n == 0 then 0 else BytesRead(t, log, n - 1) + if n - 1 in log then ChunkRange(t, n - 1).size else 0
  }

  ghost predicate ReceiverInv(t: Transfer, s: Run) {
    && t.session.resume <= |t.source|
    && Faithful(t.source, t.session, s.receiver)
    && !s.receiver.failed
    && (forall i :: i in s.log && i < t.Count() ==> ChunkRange(t, i) in s.receiver.log)
    && s.receiver.written == t.session.resume + BytesRead(t, s.log, t.Count())
  }

  ghost predicate Inv(t: Transfer, s: Run) {
    LanesInv(t, s) && PhasesInv(t, s) && LogInv(t, s) && ReceiverInv(t, s)
  }

  lemma LaneEnqueue(mine: seq<nat>, lane: Lane, c: nat)
    requires LaneInv(mine, lane, false, false)
    ensures LaneInv(mine + [c], lane.(queue := lane.queue + [c]), false, false)
  {
    var onWire :| LaneShape(mine, lane, false, false, onWire);
    var before := lane.taken + onWire + lane.sender.Unsent();
    assert before + (lane.queue + [c]) == (before + lane.queue) + [c];
    assert LaneShape(mine + [c], lane.(queue := lane.queue + [c]), false, false, onWire);
  }

  lemma LaneTake(mine: seq<nat>, lane: Lane, finishing: bool, fileEnd: bool)
    requires LaneInv(mine, lane, finishing, fileEnd) && lane.sender.Idle? && lane.queue != []
    ensures LaneInv(mine, lane.(sender := Busy(lane.queue[0]), queue := lane.queue[1..]), finishing, fileEnd)
  {
    var onWire :| LaneShape(mine, lane, finishing, fileEnd, onWire);
    assert [lane.queue[0]] + lane.queue[1..] == lane.queue;
    assert LaneShape(mine, lane.(sender := Busy(lane.queue[0]), queue := lane.queue[1..]), finishing, fileEnd, onWire);
  }

  lemma LaneSend(mine: seq<nat>, lane: Lane, finishing: bool, fileEnd: bool)
    requires LaneInv(mine, lane, finishing, fileEnd) && lane.sender.Busy?
    ensures var c := lane.sender.chunk;
      LaneInv(mine, lane.(sender := Sent(c), wire := lane.wire + [ChunkFrame(c)]), finishing, fileEnd)
  {
    var onWire :| LaneShape(mine, lane, finishing, fileEnd, onWire);
    var c := lane.sender.chunk;
    assert Frames(onWire + [c]) == Frames(onWire) + [ChunkFrame(c)];
    assert lane.taken + (onWire + [c]) + [] + lane.queue == lane.taken + onWire + [c] + lane.queue;
    assert LaneShape(mine, lane.(sender := Sent(c), wire := lane.wire + [ChunkFrame(c)]), finishing, fileEnd,
                     onWire + [c]);
  }

  lemma LaneAccount(mine: seq<nat>, lane: Lane, finishing: bool, fileEnd: bool)
    requires LaneInv(mine, lane, finishing, fileEnd) && lane.sender.Sent?
    ensures LaneInv(mine, lane.(sender := Idle), finishing, fileEnd)
  {
    var onWire :| LaneShape(mine, lane, finishing, fileEnd, onWire);
    assert LaneShape(mine, lane.(sender := Idle), finishing, fileEnd, onWire);
  }

  lemma LaneClose(mine: seq<nat>, lane: Lane, fileEnd: bool)
    requires LaneInv(mine, lane, true, fileEnd) && lane.sender.Idle? && lane.queue == []
    ensures LaneInv(mine, lane.(sender := Done, wire := lane.wire + [ChunkEndFrame]), true, fileEnd)
  {
    var onWire :| LaneShape(mine, lane, true, fileEnd, onWire);
    assert LaneShape(mine, lane.(sender := Done, wire := lane.wire + [ChunkEndFrame]), true, fileEnd, onWire);
  }

  lemma LaneFileEnd(mine: seq<nat>, lane: Lane, finishing: bool)
    requires LaneInv(mine, lane, finishing, false) && lane.sender.Done?
    ensures LaneInv(mine, lane.(wire := lane.wire + [FileEndFrame]), finishing, true)
  {
    var onWire :| LaneShape(mine, lane, finishing, false, onWire);
    assert LaneShape(mine, lane.(wire := lane.wire + [FileEndFrame]), finishing, true, onWire);
  }

  lemma LaneFinishing(mine: seq<nat>, lane: Lane, finishing: bool, fileEnd: bool)
    requires LaneInv(mine, lane, finishing, fileEnd)
    ensures LaneInv(mine, lane, true, fileEnd)
  {
    var onWire :| LaneShape(mine, lane, finishing, fileEnd, onWire);
    assert LaneShape(mine, lane, true, fileEnd, onWire);
  }

  lemma ChunkHead(mine: seq<nat>, lane: Lane, finishing: bool, fileEnd: bool)
    requires LaneInv(mine, lane, finishing, fileEnd) && lane.wire != [] && lane.wire[0].ChunkFrame?
    ensures var c := lane.wire[0].chunk;
      && lane.reading && |lane.taken| < |mine| && lane.taken == mine[..|lane.taken|] && c == mine[|lane.taken|]
      && LaneInv(mine, lane.(wire := lane.wire[1..], taken := lane.taken + [c]), finishing, fileEnd)
  {
    var onWire :| LaneShape(mine, lane, finishing, fileEnd, onWire);
    var c, rest := lane.wire[0].chunk, lane.wire[1..];
    assert onWire != [] && onWire[0] == c;
    var after := onWire[1..] + lane.sender.Unsent() + lane.queue;
    assert mine == lane.taken + [c] + after;
    assert rest == Frames(onWire[1..]) + Tail(lane, fileEnd);
    assert lane.taken + [c] + onWire[1..] + lane.sender.Unsent() + lane.queue == lane.taken + [c] + after;
    assert LaneShape(mine, lane.(wire := rest, taken := lane.taken + [c]), finishing, fileEnd, onWire[1..]);
  }

  lemma EndHead(mine: seq<nat>, lane: Lane, finishing: bool, fileEnd: bool)
    requires LaneInv(mine, lane, finishing, fileEnd) && lane.wire != [] && !lane.wire[0].ChunkFrame?
    ensures lane.wire[0].ChunkEndFrame? <==> lane.reading
    ensures lane.sender.Done? && lane.taken == mine
    ensures lane.reading ==>
      LaneInv(mine, lane.(wire := lane.wire[1..], reading := false), finishing, fileEnd)
    ensures !lane.reading ==> fileEnd && LaneInv(mine, lane.(wire := lane.wire[1..]), finishing, false)
  {
    var onWire :| LaneShape(mine, lane, finishing, fileEnd, onWire);
    assert Frames(onWire) <= lane.wire;
    assert lane.wire == Tail(lane, fileEnd);
    if lane.reading {
      assert LaneShape(mine, lane.(wire := lane.wire[1..], reading := false), finishing, fileEnd, []);
    } else {
      assert LaneShape(mine, lane.(wire := lane.wire[1..]), finishing, false, []);
    }
  }

  /**
   An active reader only ever meets its next chunk, not yet read by anyone, or ChunkEnd after all
   of its chunks; FileEnd only comes up once that reader has joined.
   */
  lemma WireHead(t: Transfer, s: Run, k: nat)
    requires LanesInv(t, s) && k < t.channels && s.lanes[k].wire != []
    ensures var lane := s.lanes[k];
      match lane.wire[0]
      case ChunkFrame(c) => lane.reading && c < |s.placed| && s.placed[c] == k && c !in lane.taken
      case ChunkEndFrame => lane.reading && lane.sender.Done? && lane.taken == Mine(s.placed, k)
      case FileEndFrame => !lane.reading && FileEndOnWire(s, k)
  {
    var lane, mine := s.lanes[k], Mine(s.placed, k);
    assert LaneInv(mine, lane, s.finishing, FileEndOnWire(s, k));
    if lane.wire[0].ChunkFrame? {
      ChunkHead(mine, lane, s.finishing, FileEndOnWire(s, k));
      MineMembers(s.placed, k);
    } else {
      EndHead(mine, lane, s.finishing, FileEndOnWire(s, k));
    }
  }

  lemma LanesReplace(t: Transfer, s: Run, next: Run, k: nat)
    requires LanesInv(t, s) && k < t.channels
    requires |next.lanes| == t.channels && next.lanes == s.lanes[k := next.lanes[k]] && next.finishing == s.finishing
    requires forall j :: 0 <= j < t.channels && j != k ==> Mine(next.placed, j) == Mine(s.placed, j)
    requires forall j :: 0 <= j < t.channels && j != k ==> FileEndOnWire(next, j) == FileEndOnWire(s, j)
    requires LaneInv(Mine(next.placed, k), next.lanes[k], next.finishing, FileEndOnWire(next, k))
    ensures LanesInv(t, next)
  {
    forall j | 0 <= j < t.channels
      ensures LaneInv(Mine(next.placed, j), next.lanes[j], next.finishing, FileEndOnWire(next, j))
    {
      assert j != k ==> LaneInv(Mine(s.placed, j), s.lanes[j], s.finishing, FileEndOnWire(s, j));
    }
  }

  lemma LanesStep(t: Transfer, s: Run, a: Action)
    requires LanesInv(t, s) && PhasesInv(t, s) && Enabled(t, s, a)
    ensures LanesInv(t, Step(t, s, a))
  {
    var next := Step(t, s, a);
    match a
    case Finish =>
      forall k | 0 <= k < t.channels ensures LaneInv(Mine(s.placed, k), s.lanes[k], true, FileEndOnWire(s, k)) {
        LaneFinishing(Mine(s.placed, k), s.lanes[k], s.finishing, FileEndOnWire(s, k));
      }
    case Enqueue(k) =>
      forall j ensures Mine(next.placed, j) == Mine(s.placed, j) + if j == k then [|s.placed|] else [] {
        MineAppend(s.placed, k, j);
      }
      LaneEnqueue(Mine(s.placed, k), s.lanes[k], |s.placed|);
      LanesReplace(t, s, next, k);
    case SendFileEnd =>
      LaneFileEnd(Mine(s.placed, 0), s.lanes[0], s.finishing);
      LanesReplace(t, s, next, 0);
    case ReadFileEnd =>
      WireHead(t, s, 0);
      EndHead(Mine(s.placed, 0), s.lanes[0], s.finishing, FileEndOnWire(s, 0));
      LanesReplace(t, s, next, 0);
    case Read(k) => LanesRead(t, s, k);
    case _ => LanesWork(t, s, a);
  }

  lemma LanesWork(t: Transfer, s: Run, a: Action)
    requires LanesInv(t, s) && PhasesInv(t, s) && Enabled(t, s, a)
    requires a.Take? || a.Send? || a.Account? || a.Close?
    ensures LanesInv(t, Step(t, s, a))
  {
    var k := a.channel;
    var lane, mine, fileEnd := s.lanes[k], Mine(s.placed, k), FileEndOnWire(s, k);
    assert LaneInv(mine, lane, s.finishing, fileEnd);
    match a {
      case Take(_) => LaneTake(mine, lane, s.finishing, fileEnd);
      case Send(_) => LaneSend(mine, lane, s.finishing, fileEnd);
      case Account(_) => LaneAccount(mine, lane, s.finishing, fileEnd);
      case Close(_) => LaneClose(mine, lane, fileEnd);
    }
    LanesReplace(t, s, Step(t, s, a), k);
  }

  lemma LanesRead(t: Transfer, s: Run, k: nat)
    requires LanesInv(t, s) && PhasesInv(t, s) && Enabled(t, s, Read(k))
    ensures LanesInv(t, Step(t, s, Read(k)))
  {
    var lane, mine, fileEnd := s.lanes[k], Mine(s.placed, k), FileEndOnWire(s, k);
    WireHead(t, s, k);
    if lane.wire[0].ChunkFrame? {
      ChunkHead(mine, lane, s.finishing, fileEnd);
    } else {
      EndHead(mine, lane, s.finishing, fileEnd);
    }
    LanesReplace(t, s, Step(t, s, Read(k)), k);
  }

  lemma PhasesRead(t: Transfer, s: Run, a: Action)
    requires LanesInv(t, s) && PhasesInv(t, s) && Enabled(t, s, a) && (a.Read? || a.ReadFileEnd?)
    ensures PhasesInv(t, Step(t, s, a))
  {
    var k := if a.Read? then a.channel else 0;
    WireHead(t, s, k);
    assert forall j :: 0 <= j < t.channels ==> Step(t, s, a).lanes[j].sender == s.lanes[j].sender;
  }

  lemma PhasesStep(t: Transfer, s: Run, a: Action)
    requires LanesInv(t, s) && PhasesInv(t, s) && Enabled(t, s, a)
    ensures PhasesInv(t, Step(t, s, a))
  {
    if a.Read? || a.ReadFileEnd? {
      PhasesRead(t, s, a);
    }
  }

  /** Steps other than a read leave the log and every reader's list alone. */
  lemma LogUntouched(t: Transfer, s: Run, a: Action)
    requires LanesInv(t, s) && PhasesInv(t, s) && Enabled(t, s, a) && !a.Read?
    ensures var next := Step(t, s, a);
      && next.log == s.log && s.placed <= next.placed && |next.lanes| == |s.lanes|
      && forall k :: 0 <= k < t.channels ==> next.lanes[k].taken == s.lanes[k].taken
  {
  }

  lemma LogExtend(t: Transfer, s: Run, k: nat, lane: Lane, c: nat)
    requires |s.lanes| == t.channels && LogInv(t, s)
    requires k < t.channels && lane.taken == s.lanes[k].taken + [c]
    requires c < |s.placed| && s.placed[c] == k && c !in s.lanes[k].taken
    ensures c !in s.log
    ensures LogInv(t, s.(lanes := s.lanes[k := lane], log := s.log + [c]))
  {
    var next := s.(lanes := s.lanes[k := lane], log := s.log + [c]);
    forall i | i in next.log
      ensures i < |next.placed| && next.placed[i] < t.channels && i in next.lanes[next.placed[i]].taken
    {
      if i != c {
        assert i in s.log && i in s.lanes[s.placed[i]].taken;
      }
    }
    forall j, i | 0 <= j < t.channels && i in next.lanes[j].taken ensures i in next.log {
      assert i == c || i in s.lanes[j].taken;
    }
  }

  lemma LogRead(t: Transfer, s: Run, k: nat)
    requires LanesInv(t, s) && PhasesInv(t, s) && LogInv(t, s) && Enabled(t, s, Read(k))
    ensures LogInv(t, Step(t, s, Read(k)))
  {
    WireHead(t, s, k);
    var lane := s.lanes[k];
    if lane.wire[0].ChunkFrame? {
      var c := lane.wire[0].chunk;
      LogExtend(t, s, k, lane.(wire := lane.wire[1..], taken := lane.taken + [c]), c);
    }
  }

  lemma LogStep(t: Transfer, s: Run, a: Action)
    requires LanesInv(t, s) && PhasesInv(t, s) && LogInv(t, s) && Enabled(t, s, a)
    ensures LanesInv(t, Step(t, s, a)) && LogInv(t, Step(t, s, a))
  {
    LanesStep(t, s, a);
    if a.Read? {
      LogRead(t, s, a.channel);
    } else {
      LogUntouched(t, s, a);
    }
  }

  lemma {:induction false} BytesReadAppend(t: Transfer, log: seq<nat>, i: nat, n: nat)
    requires n <= t.Count() && i !in log
    ensures BytesRead(t, log + [i], n) == BytesRead(t, log, n) + if i < n then ChunkRange(t, i).size else 0
  {
    if n > 0 {
      BytesReadAppend(t, log, i, n - 1);
    }
  }

  /** The reader accepts a chunk's own payload, whole and in place. */
  lemma PayloadAccepted(t: Transfer, r: Receiver, c: nat)
    requires t.Valid() && c < t.Count()
    ensures var next := Receive(t.session, r, Some(Tagged.Data(t.Payload(c))), WritesAll);
      && next.log == r.log + [ChunkRange(t, c)] && next.failed == r.failed
      && next.written == r.written + ChunkRange(t, c).size
    ensures GenuineFrame(t.source, t.session, Some(Tagged.Data(t.Payload(c))))
  {
    ChunkAccepted(t.source, t.session, c);
    ReceiveAccepted(t.session, r, t.Payload(c), ChunkAt(t.source, t.session.resume, c));
    AcceptedIsGenuine(t.source, t.session, t.Payload(c), ChunkAt(t.source, t.session.resume, c));
  }

  lemma ReceiverRead(t: Transfer, s: Run, c: nat)
    requires t.Valid() && ReceiverInv(t, s) && c < t.Count() && c !in s.log
    ensures var receiver := Receive(t.session, s.receiver, Some(Tagged.Data(t.Payload(c))), WritesAll);
      ReceiverInv(t, s.(receiver := receiver, log := s.log + [c]))
  {
    var frame := Some(Tagged.Data(t.Payload(c)));
    var receiver := Receive(t.session, s.receiver, frame, WritesAll);
    PayloadAccepted(t, s.receiver, c);
    FaithfulStep(t.source, t.session, s.receiver, frame, WritesAll);
    BytesReadAppend(t, s.log, c, t.Count());
    forall i | i in s.log + [c] && i < t.Count() ensures ChunkRange(t, i) in receiver.log {
      assert i == c || i in s.log;
    }
  }

  lemma ReceiverStep(t: Transfer, s: Run, a: Action)
    requires t.Valid() && Inv(t, s) && Enabled(t, s, a)
    ensures ReceiverInv(t, Step(t, s, a))
  {
    if a.Read? {
      var k := a.channel;
      WireHead(t, s, k);
      if s.lanes[k].wire[0].ChunkFrame? {
        assert s.lanes[k].wire[0].chunk !in s.log;
        ReceiverRead(t, s, s.lanes[k].wire[0].chunk);
      }
    } else if a.ReadFileEnd? {
      WireHead(t, s, 0);
    }
  }

  lemma StepKeepsInv(t: Transfer, s: Run, a: Action)
    requires t.Valid() && Inv(t, s) && Enabled(t, s, a)
    ensures Inv(t, Step(t, s, a))
  {
    PhasesStep(t, s, a);
    LogStep(t, s, a);
    ReceiverStep(t, s, a);
  }

  /** The part file a session opens agrees with the source up to the resume offset. */
  ghost predicate GoodStart(t: Transfer, file: seq<byte>) {
    t.session.resume <= |t.source| && file == t.source[..t.session.resume]
  }

  lemma {:induction false} NothingRead(t: Transfer, n: nat)
    requires n <= t.Count()
    ensures BytesRead(t, [], n) == 0
  {
    if n > 0 {
      NothingRead(t, n - 1);
    }
  }

  lemma InitialLanes(t: Transfer, file: seq<byte>)
    requires t.channels > 0
    ensures LanesInv(t, Initial(t, file)) && PhasesInv(t, Initial(t, file)) && LogInv(t, Initial(t, file))
  {
    var s := Initial(t, file);
    forall k | 0 <= k < t.channels ensures LaneInv(Mine(s.placed, k), s.lanes[k], false, false) {
      assert LaneShape([], s.lanes[k], false, false, []);
    }
  }

  lemma InitialReceiver(t: Transfer, file: seq<byte>, s: Run)
    requires t.Valid() && GoodStart(t, file) && s.receiver == Start(t.session, file) && s.log == []
    ensures ReceiverInv(t, s)
  {
    NothingRead(t, t.Count());
  }

  lemma InitialInv(t: Transfer, file: seq<byte>)
    requires t.Valid() && GoodStart(t, file)
    ensures Inv(t, Initial(t, file))
  {
    InitialLanes(t, file);
    InitialReceiver(t, file, Initial(t, file));
  }

  lemma {:induction false} RunKeepsInv(t: Transfer, s: Run, actions: seq<Action>)
    requires t.Valid() && Inv(t, s) && CanRun(t, s, actions)
    ensures Inv(t, RunAll(t, s, actions))
    decreases |actions|
  {
    if actions != [] {
      StepKeepsInv(t, s, actions[0]);
      RunKeepsInv(t, Step(t, s, actions[0]), actions[1..]);
    }
  }

  // ---------------------------------------------------------------- what a completed run delivers

  /** The sum of the chunk sizes is the part of the source behind the resume offset. */
  lemma {:induction false} BytesReadAll(t: Transfer, log: seq<nat>, n: nat)
    requires t.session.resume <= |t.source| && n <= t.Count()
    requires forall i :: 0 <= i < n ==> i in log
    ensures t.session.resume + BytesRead(t, log, n) == Min(ChunkStart(t.session.resume, n), |t.source|)
  {
    if n > 0 {
      BytesReadAll(t, log, n - 1);
      ChunkBounds(|t.source|, t.session.resume, n - 1);
    }
  }

  /** Every chunk was read exactly once. */
  ghost predicate EachOnce(t: Transfer, log: seq<nat>) {
    && Distinct(log)
    && (forall i :: 0 <= i < t.Count() ==> i in log)
    && (forall i :: i in log ==> i < t.Count())
  }

  lemma JoinedLane(mine: seq<nat>, lane: Lane, finishing: bool, fileEnd: bool)
    requires LaneInv(mine, lane, finishing, fileEnd) && !lane.reading
    ensures lane.taken == mine && finishing
  {
    var onWire :| LaneShape(mine, lane, finishing, fileEnd, onWire);
  }

  lemma JoinedReadsAll(t: Transfer, s: Run)
    requires t.channels > 0 && LanesInv(t, s) && PhasesInv(t, s) && LogInv(t, s) && AllReadersJoined(s)
    ensures EachOnce(t, s.log)
  {
    JoinedLane(Mine(s.placed, 0), s.lanes[0], s.finishing, FileEndOnWire(s, 0));
    forall i | 0 <= i < t.Count() ensures i in s.log {
      var k := s.placed[i];
      JoinedLane(Mine(s.placed, k), s.lanes[k], s.finishing, FileEndOnWire(s, k));
      MineMembers(s.placed, k);
      assert i in s.lanes[k].taken;
    }
  }

  lemma EachOnceCovers(t: Transfer, s: Run, x: int)
    requires t.Valid() && ReceiverInv(t, s) && EachOnce(t, s.log)
    requires t.session.resume <= x < |t.source|
    ensures Covered(s.receiver.log, x)
  {
    var i := ChunkOwner(|t.source|, t.session.resume, x);
    assert i in s.log;
    assert ChunkRange(t, i) in s.receiver.log && ChunkRange(t, i).Covers(x);
  }

  lemma EachOnceWrites(t: Transfer, s: Run)
    requires t.Valid() && EachOnce(t, s.log)
    requires s.receiver.written == t.session.resume + BytesRead(t, s.log, t.Count())
    ensures s.receiver.written == t.session.declared
  {
    BytesReadAll(t, s.log, t.Count());
    ChunkBounds(|t.source|, t.session.resume, t.Count());
  }

  lemma EachOnceCompletes(t: Transfer, s: Run)
    requires t.Valid() && ReceiverInv(t, s) && EachOnce(t, s.log)
    ensures s.receiver.file == t.source && Prefix(t.session, s.receiver) == |t.source|
  {
    forall x | t.session.resume <= x < |t.source| ensures Covered(s.receiver.log, x) {
      EachOnceCovers(t, s, x);
    }
    FullyCoveredIsSource(t.source, t.session, s.receiver);
  }

  /**
   Whatever the interleaving: once FileEnd has been read, every chunk was delivered exactly once,
   no reader failed, the part file is the source, and both `written` and the contiguous prefix
   stand at the declared size.
   */
  lemma Delivered(t: Transfer, file: seq<byte>, actions: seq<Action>)
    requires t.Valid() && GoodStart(t, file) && CanRun(t, Initial(t, file), actions)
    ensures var s := RunAll(t, Initial(t, file), actions);
      s.fileEndRead ==>
        && EachOnce(t, s.log)
        && !s.receiver.failed
        && s.receiver.file == t.source
        && s.receiver.written == Prefix(t.session, s.receiver) == t.session.declared
  {
    InitialInv(t, file);
    RunKeepsInv(t, Initial(t, file), actions);
    var s := RunAll(t, Initial(t, file), actions);
    if s.fileEndRead {
      JoinedReadsAll(t, s);
      EachOnceWrites(t, s);
      EachOnceCompletes(t, s);
    }
  }

  /** In every reachable state no reader has failed, and FileEnd is only read after every ChunkEnd. */
  lemma NeverFails(t: Transfer, file: seq<byte>, actions: seq<Action>)
    requires t.Valid() && GoodStart(t, file) && CanRun(t, Initial(t, file), actions)
    ensures var s := RunAll(t, Initial(t, file), actions);
      && !s.receiver.failed
      && |s.lanes| == t.channels
      && (s.fileEndSent ==> AllDone(s))
      && (s.fileEndRead ==> AllReadersJoined(s))
      && (forall k :: 0 <= k < t.channels && !s.lanes[k].reading ==> s.lanes[k].taken == Mine(s.placed, k))
  {
    InitialInv(t, file);
    RunKeepsInv(t, Initial(t, file), actions);
    var s := RunAll(t, Initial(t, file), actions);
    forall k | 0 <= k < t.channels && !s.lanes[k].reading ensures s.lanes[k].taken == Mine(s.placed, k) {
      JoinedLane(Mine(s.placed, k), s.lanes[k], s.finishing, FileEndOnWire(s, k));
    }
  }

  // ---------------------------------------------------------------- progress

  ghost predicate LaneQuiet(lane: Lane) {
    (lane.sender.Idle? || lane.sender.Done?) && lane.queue == []
  }

  /** A worker or queue that still has something can move. */
  lemma BusyLaneMoves(t: Transfer, s: Run, k: nat)
    requires LanesInv(t, s) && k < t.channels && !LaneQuiet(s.lanes[k])
    ensures exists a :: Enabled(t, s, a)
  {
    var lane := s.lanes[k];
    assert LaneInv(Mine(s.placed, k), lane, s.finishing, FileEndOnWire(s, k));
    if lane.sender.Busy? {
      assert Enabled(t, s, Send(k));
    } else if lane.sender.Sent? {
      assert Enabled(t, s, Account(k));
    } else {
      assert Enabled(t, s, Take(k));
    }
  }

  /** Nothing is pending on a lane whose queue and worker are empty. */
  lemma QuietMeansNoPending(t: Transfer, s: Run)
    requires forall k :: 0 <= k < |s.lanes| ==> LaneQuiet(s.lanes[k])
    ensures forall k :: 0 <= k < |s.lanes| ==> Pending(t, s)[k] == 0
  {
  }

  /** With every queue and worker empty the byte limits cannot block the producer. */
  lemma ProducerMoves(t: Transfer, s: Run)
    requires |s.lanes| == t.channels > 0 && !s.finishing && |s.placed| <= t.Count()
    requires forall k :: 0 <= k < t.channels ==> LaneQuiet(s.lanes[k])
    ensures exists a :: Enabled(t, s, a)
  {
    if |s.placed| == t.Count() {
      assert Enabled(t, s, Finish);
    } else {
      QuietMeansNoPending(t, s);
      Scheduler.EmptyMeansRoom(Pending(t, s), |t.Payload(|s.placed|)|);
      assert Enabled(t, s, Enqueue(0));
    }
  }

  lemma EndMoves(t: Transfer, s: Run)
    requires t.Valid() && Inv(t, s) && s.finishing && !s.fileEndRead
    requires forall k :: 0 <= k < t.channels ==> LaneQuiet(s.lanes[k])
    ensures exists a :: Enabled(t, s, a)
  {
    if k :| 0 <= k < t.channels && s.lanes[k].sender.Idle? {
      assert Enabled(t, s, Close(k));
    } else if !s.fileEndSent {
      assert Enabled(t, s, SendFileEnd);
    } else if k :| 0 <= k < t.channels && s.lanes[k].reading {
      assert LaneInv(Mine(s.placed, k), s.lanes[k], s.finishing, FileEndOnWire(s, k));
      assert Enabled(t, s, Read(k));
    } else {
      assert LaneInv(Mine(s.placed, 0), s.lanes[0], s.finishing, FileEndOnWire(s, 0));
      assert Enabled(t, s, ReadFileEnd);
    }
  }

  /** No deadlock: until FileEnd is read, some thread can take a step, byte limits included. */
  lemma SomeoneMoves(t: Transfer, s: Run)
    requires t.Valid() && Inv(t, s) && !s.fileEndRead
    ensures exists a :: Enabled(t, s, a)
  {
    if k :| 0 <= k < t.channels && !LaneQuiet(s.lanes[k]) {
      BusyLaneMoves(t, s, k);
    } else if s.finishing {
      EndMoves(t, s);
    } else {
      ProducerMoves(t, s);
    }
  }

  function SenderWeight(sender: Sender): nat {
    match sender
    case Idle => 2
    case Busy(_) => 5
    case Sent(_) => 3
    case Done => 0
  }

  function Weight(lane: Lane): nat {
    4 * |lane.queue| + SenderWeight(lane.sender) + |lane.wire|
  }

  function Weights(lanes: seq<Lane>): nat {
    if lanes == [] then 0 else Weight(lanes[0]) + Weights(lanes[1..])
  }

  lemma {:induction false} WeightsReplace(lanes: seq<Lane>, k: nat, lane: Lane)
    requires k < |lanes|
    ensures Weights(lanes[k := lane]) + Weight(lanes[k]) == Weights(lanes) + Weight(lane)
  {
    if k > 0 {
      assert lanes[k := lane][1..] == lanes[1..][k - 1 := lane];
      WeightsReplace(lanes[1..], k - 1, lane);
    }
  }

  /** Steps still to come, at most. */
  function Remaining(t: Transfer, s: Run): int {
    5 * (t.Count() - |s.placed|) + Weights(s.lanes)
      + (if s.finishing then 0 else 1) + (if s.fileEndSent then 0 else 2)
  }

  /** The lane a step works on gets lighter, by more than the step adds elsewhere. */
  lemma LaneGetsLighter(t: Transfer, s: Run, a: Action)
    requires LanesInv(t, s) && PhasesInv(t, s) && Enabled(t, s, a) && !a.Finish?
    ensures var next := Step(t, s, a);
      var k := if a.SendFileEnd? || a.ReadFileEnd? then 0 else a.channel;
      && next.lanes == s.lanes[k := next.lanes[k]]
      && Weight(next.lanes[k]) <= Weight(s.lanes[k]) - 1
         + (if a.Enqueue? then 5 else 0) + (if a.SendFileEnd? then 2 else 0)
  {
    if a.Read? {
      WireHead(t, s, a.channel);
    } else if a.ReadFileEnd? {
      WireHead(t, s, 0);
    }
  }

  /** What a step does to the counters outside the lanes. */
  lemma StepCounters(t: Transfer, s: Run, a: Action)
    requires PhasesInv(t, s) && Enabled(t, s, a)
    ensures var next := Step(t, s, a);
      && |next.placed| == |s.placed| + (if a.Enqueue? then 1 else 0)
      && next.finishing == (s.finishing || a.Finish?) && (a.Finish? ==> !s.finishing && next.lanes == s.lanes)
      && next.fileEndSent == (s.fileEndSent || a.SendFileEnd?) && (a.SendFileEnd? ==> !s.fileEndSent)
  {
  }

  lemma StepMakesProgress(t: Transfer, s: Run, a: Action)
    requires LanesInv(t, s) && PhasesInv(t, s) && Enabled(t, s, a)
    ensures Remaining(t, Step(t, s, a)) < Remaining(t, s)
  {
    StepCounters(t, s, a);
    if !a.Finish? {
      LaneStepMakesProgress(t, s, a, Step(t, s, a));
    }
  }

  lemma LaneStepMakesProgress(t: Transfer, s: Run, a: Action, next: Run)
    requires LanesInv(t, s) && PhasesInv(t, s) && Enabled(t, s, a) && !a.Finish? && next == Step(t, s, a)
    requires |next.placed| == |s.placed| + (if a.Enqueue? then 1 else 0) && next.finishing == s.finishing
    requires next.fileEndSent == (s.fileEndSent || a.SendFileEnd?) && (a.SendFileEnd? ==> !s.fileEndSent)
    ensures Remaining(t, next) < Remaining(t, s)
  {
    var k := if a.SendFileEnd? || a.ReadFileEnd? then 0 else a.channel;
    LaneGetsLighter(t, s, a);
    WeightsReplace(s.lanes, k, next.lanes[k]);
  }

  /** Every run is finite, with an explicit bound on its number of steps. */
  lemma {:induction false} RunsAreBounded(t: Transfer, s: Run, actions: seq<Action>)
    requires t.Valid() && Inv(t, s) && CanRun(t, s, actions)
    ensures |actions| + Remaining(t, RunAll(t, s, actions)) <= Remaining(t, s)
    ensures 0 <= Remaining(t, RunAll(t, s, actions))
    decreases |actions|
  {
    if actions != [] {
      StepKeepsInv(t, s, actions[0]);
      StepMakesProgress(t, s, actions[0]);
      RunsAreBounded(t, Step(t, s, actions[0]), actions[1..]);
    }
  }

  /** A run that cannot be extended has delivered the file; together with the bound, every run ends there. */
  lemma MaximalRunsDeliver(t: Transfer, file: seq<byte>, actions: seq<Action>)
    requires t.Valid() && GoodStart(t, file) && CanRun(t, Initial(t, file), actions)
    requires forall a :: !Enabled(t, RunAll(t, Initial(t, file), actions), a)
    ensures var s := RunAll(t, Initial(t, file), actions);
      && s.fileEndRead && EachOnce(t, s.log)
      && s.receiver.file == t.source && s.receiver.written == t.session.declared
  {
    InitialInv(t, file);
    RunKeepsInv(t, Initial(t, file), actions);
    var s := RunAll(t, Initial(t, file), actions);
    if !s.fileEndRead {
      SomeoneMoves(t, s);
    }
    Delivered(t, file, actions);
  }
}
