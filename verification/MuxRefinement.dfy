/**
 The scheduler object against the run model: as long as no send fails, every method of
 MuxSendScheduler is a step of MuxRun, on the same queues, workers and channels.
 */
module MuxRefinement {
  import opened Prelude
  import opened MuxReceive
  import opened MuxResume
  import opened MuxRun
  import Scheduler = MuxScheduler

  /** The item the producer hands over for a chunk. */
  function Item(t: Transfer, c: nat): Scheduler.SendItem {
    if c < t.Count() then Scheduler.SendItem(t.Payload(c), |ChunkAt(t.source, t.session.resume, c).bytes|)
    else Scheduler.SendItem([], 0)
  }

  function Items(t: Transfer, chunks: seq<nat>): (items: seq<Scheduler.SendItem>)
    ensures |items| == |chunks|
  {
    seq(|chunks|, i requires 0 <= i < |chunks| => Item(t, chunks[i]))
  }

  lemma ItemsAppend(t: Transfer, chunks: seq<nat>, c: nat)
    ensures Items(t, chunks + [c]) == Items(t, chunks) + [Item(t, c)]
  {
  }

  /** The chunks among the frames on a wire. */
  function ChunksOn(wire: seq<Frame>): seq<nat> {
    if wire == [] then []
    else ChunksOn(wire[..|wire| - 1]) + if wire[|wire| - 1].ChunkFrame? then [wire[|wire| - 1].chunk] else []
  }

  lemma ChunksOnAppend(wire: seq<Frame>, frame: Frame)
    ensures ChunksOn(wire + [frame]) == ChunksOn(wire) + if frame.ChunkFrame? then [frame.chunk] else []
  {
    assert (wire + [frame])[..|wire|] == wire;
  }

  lemma {:induction false} ChunksOnHead(wire: seq<Frame>)
    requires wire != []
    ensures ChunksOn(wire) == (if wire[0].ChunkFrame? then [wire[0].chunk] else []) + ChunksOn(wire[1..])
    decreases |wire|
  {
    if |wire| == 1 {
      assert wire[..0] == [] && wire[1..] == [];
    } else {
      var init, last := wire[..|wire| - 1], wire[|wire| - 1];
      ChunksOnHead(init);
      assert wire[1..] == init[1..] + [last];
      ChunksOnAppend(init[1..], last);
    }
  }

  predicate WorkerMatches(t: Transfer, sender: Sender, worker: Scheduler.Worker) {
    match sender
    case Idle => worker.Idle? || worker.Ending?
    case Busy(c) => worker == Scheduler.Sending(Item(t, c))
    case Sent(c) => worker == Scheduler.Sent(Item(t, c))
    case Done => worker.Ended?
  }

  /** One channel of the run and the scheduler's view of it: its queue, its worker and what it sent. */
  predicate LaneMatches(t: Transfer, lane: Lane, queue: seq<Scheduler.SendItem>, worker: Scheduler.Worker,
                        sent: seq<Scheduler.SendItem>)
  {
    && queue == Items(t, lane.queue)
    && WorkerMatches(t, lane.sender, worker)
    && sent == Items(t, lane.taken + ChunksOn(lane.wire))
  }

  ghost predicate LanesMatch(t: Transfer, lanes: seq<Lane>, queues: seq<seq<Scheduler.SendItem>>,
                             workers: seq<Scheduler.Worker>, sent: seq<seq<Scheduler.SendItem>>)
  {
    && |lanes| == |queues| == |workers| == |sent|
    && forall k {:trigger lanes[k]} :: 0 <= k < |lanes| ==> LaneMatches(t, lanes[k], queues[k], workers[k], sent[k])
  }

  lemma LanesMatchReplace(t: Transfer, lanes: seq<Lane>, queues: seq<seq<Scheduler.SendItem>>,
                          workers: seq<Scheduler.Worker>, sent: seq<seq<Scheduler.SendItem>>,
                          k: nat, lane: Lane, q: seq<Scheduler.SendItem>, w: Scheduler.Worker, s: seq<Scheduler.SendItem>)
    requires LanesMatch(t, lanes, queues, workers, sent) && k < |lanes| && LaneMatches(t, lane, q, w, s)
    ensures LanesMatch(t, lanes[k := lane], queues[k := q], workers[k := w], sent[k := s])
  {
    forall j | 0 <= j < |lanes| && j != k ensures LaneMatches(t, lanes[j], queues[j], workers[j], sent[j]) {
    }
  }

  /** The run and the scheduler are in the same state. */
  ghost predicate Matches(t: Transfer, s: Run, scheduler: Scheduler.MuxSendScheduler)
    reads scheduler
  {
    && scheduler.Valid() && scheduler.channels == t.channels && !scheduler.error
    && s.finishing == scheduler.finishing
    && LanesMatch(t, s.lanes, scheduler.queues, scheduler.workers, scheduler.sent)
  }

  // ---------------------------------------------------------------- one lane

  lemma {:induction false} SameBytes(t: Transfer, chunks: seq<nat>)
    ensures Scheduler.PayloadBytes(Items(t, chunks)) == PayloadBytes(t, chunks)
  {
    if chunks != [] {
      SameBytes(t, chunks[1..]);
      assert Items(t, chunks)[1..] == Items(t, chunks[1..]);
    }
  }

  lemma SameLanePending(t: Transfer, lane: Lane, queue: seq<Scheduler.SendItem>, worker: Scheduler.Worker,
                        sent: seq<Scheduler.SendItem>)
    requires LaneMatches(t, lane, queue, worker, sent)
    ensures Scheduler.PayloadBytes(worker.InFlight()) + Scheduler.PayloadBytes(queue)
            == PayloadBytes(t, lane.sender.InFlight()) + PayloadBytes(t, lane.queue)
  {
    SameBytes(t, lane.queue);
    SameBytes(t, lane.sender.InFlight());
    assert worker.InFlight() == Items(t, lane.sender.InFlight());
  }

  /** The byte counters of the scheduler are the pending bytes of the run. */
  lemma SamePending(t: Transfer, s: Run, queues: seq<seq<Scheduler.SendItem>>, workers: seq<Scheduler.Worker>,
                    sent: seq<seq<Scheduler.SendItem>>, wires: seq<seq<Tagged>>, pending: seq<nat>, finishing: bool)
    requires LanesMatch(t, s.lanes, queues, workers, sent)
    requires Scheduler.LanesOk(sent, queues, workers, wires, pending, finishing, false)
    ensures pending == Pending(t, s)
  {
    forall k | 0 <= k < |pending| ensures pending[k] == Pending(t, s)[k] {
      assert Scheduler.LaneOk(sent[k], queues[k], workers[k], wires[k], pending[k], finishing, false);
      SameLanePending(t, s.lanes[k], queues[k], workers[k], sent[k]);
    }
  }

  lemma LaneQueues(t: Transfer, lane: Lane, queue: seq<Scheduler.SendItem>, worker: Scheduler.Worker,
                   sent: seq<Scheduler.SendItem>, c: nat)
    requires LaneMatches(t, lane, queue, worker, sent)
    ensures LaneMatches(t, lane.(queue := lane.queue + [c]), queue + [Item(t, c)], worker, sent)
  {
    ItemsAppend(t, lane.queue, c);
  }

  lemma LaneTakes(t: Transfer, lane: Lane, queue: seq<Scheduler.SendItem>, worker: Scheduler.Worker,
                  sent: seq<Scheduler.SendItem>)
    requires LaneMatches(t, lane, queue, worker, sent) && worker.Idle? && queue != []
    ensures lane.sender.Idle? && lane.queue != []
    ensures LaneMatches(t, lane.(sender := Busy(lane.queue[0]), queue := lane.queue[1..]),
                        queue[1..], Scheduler.Sending(queue[0]), sent)
  {
    assert Items(t, lane.queue)[1..] == Items(t, lane.queue[1..]);
  }

  /** One more chunk at the end of the wire is one more item sent. */
  lemma WireSends(t: Transfer, taken: seq<nat>, wire: seq<Frame>, c: nat)
    ensures Items(t, taken + ChunksOn(wire + [ChunkFrame(c)])) == Items(t, taken + ChunksOn(wire)) + [Item(t, c)]
  {
    ChunksOnAppend(wire, ChunkFrame(c));
    assert taken + (ChunksOn(wire) + [c]) == (taken + ChunksOn(wire)) + [c];
    ItemsAppend(t, taken + ChunksOn(wire), c);
  }

  lemma LaneSends(t: Transfer, lane: Lane, queue: seq<Scheduler.SendItem>, item: Scheduler.SendItem,
                  sent: seq<Scheduler.SendItem>)
    requires LaneMatches(t, lane, queue, Scheduler.Sending(item), sent)
    ensures lane.sender.Busy?
    ensures LaneMatches(t, lane.(sender := Sent(lane.sender.chunk), wire := lane.wire + [ChunkFrame(lane.sender.chunk)]),
                        queue, Scheduler.Sent(item), sent + [item])
  {
    WireSends(t, lane.taken, lane.wire, lane.sender.chunk);
  }

  lemma LaneCloses(t: Transfer, lane: Lane, queue: seq<Scheduler.SendItem>, sent: seq<Scheduler.SendItem>)
    requires LaneMatches(t, lane, queue, Scheduler.Ending, sent)
    ensures lane.sender.Idle?
    ensures LaneMatches(t, lane.(sender := Done, wire := lane.wire + [ChunkEndFrame]), queue, Scheduler.Ended, sent)
  {
    ChunksOnAppend(lane.wire, ChunkEndFrame);
    assert ChunksOn(lane.wire) + [] == ChunksOn(lane.wire);
  }

  /** What a reader takes off the wire it has taken: the sender's side does not notice. */
  lemma LaneRead(t: Transfer, lane: Lane, after: Lane, queue: seq<Scheduler.SendItem>, worker: Scheduler.Worker,
                 sent: seq<Scheduler.SendItem>)
    requires LaneMatches(t, lane, queue, worker, sent) && lane.wire != []
    requires after.queue == lane.queue && after.sender == lane.sender && after.wire == lane.wire[1..]
    requires after.taken == lane.taken + if lane.wire[0].ChunkFrame? then [lane.wire[0].chunk] else []
    ensures LaneMatches(t, after, queue, worker, sent)
  {
    ChunksOnHead(lane.wire);
    assert after.taken + ChunksOn(after.wire) == lane.taken + ChunksOn(lane.wire);
  }

  /** What a reader's or the file end's step does to the one lane it works on. */
  lemma OtherStepLane(t: Transfer, s: Run, a: Action, k: nat)
    requires Enabled(t, s, a) && (a.Read? || a.SendFileEnd? || a.ReadFileEnd?)
    requires k == if a.Read? then a.channel else 0
    ensures var lane, after := s.lanes[k], Step(t, s, a).lanes[k];
      && Step(t, s, a).lanes == s.lanes[k := after]
      && after.queue == lane.queue && after.sender == lane.sender
      && (|| (after.wire == lane.wire + [FileEndFrame] && after.taken == lane.taken)
          || (after.wire == lane.wire && after.taken == lane.taken)
          || (lane.wire != [] && after.wire == lane.wire[1..]
              && after.taken == lane.taken + if lane.wire[0].ChunkFrame? then [lane.wire[0].chunk] else []))
  {
  }

  lemma LaneKept(t: Transfer, lane: Lane, after: Lane, queue: seq<Scheduler.SendItem>, worker: Scheduler.Worker,
                 sent: seq<Scheduler.SendItem>)
    requires LaneMatches(t, lane, queue, worker, sent)
    requires after.queue == lane.queue && after.sender == lane.sender && after.taken == lane.taken
    requires after.wire == lane.wire || after.wire == lane.wire + [FileEndFrame]
    ensures LaneMatches(t, after, queue, worker, sent)
  {
    ChunksOnAppend(lane.wire, FileEndFrame);
    assert ChunksOn(lane.wire) + [] == ChunksOn(lane.wire);
  }

  lemma OtherStepKeepsLane(t: Transfer, s: Run, a: Action, k: nat, queue: seq<Scheduler.SendItem>,
                           worker: Scheduler.Worker, sent: seq<Scheduler.SendItem>)
    requires Enabled(t, s, a) && (a.Read? || a.SendFileEnd? || a.ReadFileEnd?)
    requires (k == if a.Read? then a.channel else 0) && LaneMatches(t, s.lanes[k], queue, worker, sent)
    ensures LaneMatches(t, Step(t, s, a).lanes[k], queue, worker, sent)
    ensures Step(t, s, a).lanes == s.lanes[k := Step(t, s, a).lanes[k]]
  {
    var lane, after := s.lanes[k], Step(t, s, a).lanes[k];
    OtherStepLane(t, s, a, k);
    if lane.wire != [] && after.wire == lane.wire[1..] {
      LaneRead(t, lane, after, queue, worker, sent);
    } else {
      LaneKept(t, lane, after, queue, worker, sent);
    }
  }

  /** The steps of the readers and of the file end leave the scheduler where it is. */
  lemma OtherStepsKeepLanes(t: Transfer, s: Run, a: Action, queues: seq<seq<Scheduler.SendItem>>,
                            workers: seq<Scheduler.Worker>, sent: seq<seq<Scheduler.SendItem>>)
    requires LanesMatch(t, s.lanes, queues, workers, sent) && Enabled(t, s, a)
    requires a.Read? || a.SendFileEnd? || a.ReadFileEnd?
    ensures LanesMatch(t, Step(t, s, a).lanes, queues, workers, sent)
  {
    var k := if a.Read? then a.channel else 0;
    assert LaneMatches(t, s.lanes[k], queues[k], workers[k], sent[k]);
    OtherStepKeepsLane(t, s, a, k, queues[k], workers[k], sent[k]);
    LanesMatchReplace(t, s.lanes, queues, workers, sent, k, Step(t, s, a).lanes[k], queues[k], workers[k], sent[k]);
    assert queues[k := queues[k]] == queues && workers[k := workers[k]] == workers && sent[k := sent[k]] == sent;
  }

  // ---------------------------------------------------------------- the methods are steps

  /** A new scheduler is the start of a run. */
  method Begin(t: Transfer, ghost file: seq<byte>) returns (scheduler: Scheduler.MuxSendScheduler)
    requires t.channels > 0
    ensures fresh(scheduler) && Matches(t, Initial(t, file), scheduler)
  {
    scheduler := new Scheduler.MuxSendScheduler(t.channels);
    forall k | 0 <= k < t.channels
      ensures LaneMatches(t, Lane([], Idle, [], true, []), [], Scheduler.Idle, scheduler.sent[k])
    {
      assert scheduler.PlacedOn(k) == scheduler.sent[k];
    }
  }

  /**
   enqueue is the run's Enqueue on the channel it picks; when it waits, the run cannot enqueue
   anywhere either.
   */
  method Enqueue(t: Transfer, ghost s: Run, scheduler: Scheduler.MuxSendScheduler, c: nat)
    returns (placement: Scheduler.Placement)
    requires Matches(t, s, scheduler) && !s.finishing && c == |s.placed| < t.Count()
    modifies scheduler
    ensures placement.Placed? || placement.MustWait?
    ensures placement.Placed? ==>
      && Enabled(t, s, Action.Enqueue(placement.channel))
      && Matches(t, Step(t, s, Action.Enqueue(placement.channel)), scheduler)
    ensures placement.MustWait? ==>
      Matches(t, s, scheduler) && forall k :: !Enabled(t, s, Action.Enqueue(k))
  {
    SamePending(t, s, scheduler.queues, scheduler.workers, scheduler.sent, scheduler.wires,
                Scheduler.Pending(scheduler.channelState), scheduler.finishing);
    ghost var queues, workers, sent := scheduler.queues, scheduler.workers, scheduler.sent;
    placement := scheduler.TryEnqueue(Item(t, c));
    if placement.Placed? {
      var k := placement.channel;
      LaneQueues(t, s.lanes[k], queues[k], workers[k], sent[k], c);
      LanesMatchReplace(t, s.lanes, queues, workers, sent, k, s.lanes[k].(queue := s.lanes[k].queue + [c]),
                        queues[k] + [Item(t, c)], workers[k], sent[k]);
      assert workers[k := workers[k]] == workers && sent[k := sent[k]] == sent;
    }
  }

  /** finish announces the end, as the run does once every chunk is placed. */
  method Finish(t: Transfer, ghost s: Run, scheduler: Scheduler.MuxSendScheduler)
    requires Matches(t, s, scheduler) && Enabled(t, s, Action.Finish)
    modifies scheduler
    ensures Matches(t, Step(t, s, Action.Finish), scheduler)
  {
    scheduler.BeginFinish();
  }

  /** A woken worker takes its next item, which is the run's Take, or starts to close its channel. */
  method Wake(t: Transfer, ghost s: Run, scheduler: Scheduler.MuxSendScheduler, k: nat)
    requires Matches(t, s, scheduler) && k < t.channels && scheduler.workers[k].Idle?
    requires s.finishing || scheduler.queues[k] != []
    modifies scheduler
    ensures old(scheduler.queues[k]) != [] ==>
      Enabled(t, s, Action.Take(k)) && Matches(t, Step(t, s, Action.Take(k)), scheduler)
    ensures old(scheduler.queues[k]) == [] ==> Matches(t, s, scheduler) && scheduler.workers[k].Ending?
  {
    ghost var queues, workers, sent, lane := scheduler.queues, scheduler.workers, scheduler.sent, s.lanes[k];
    scheduler.WorkerWake(k);
    if queues[k] != [] {
      LaneTakes(t, lane, queues[k], workers[k], sent[k]);
      LanesMatchReplace(t, s.lanes, queues, workers, sent, k, lane.(sender := Busy(lane.queue[0]), queue := lane.queue[1..]),
                        queues[k][1..], Scheduler.Sending(queues[k][0]), sent[k]);
      assert sent[k := sent[k]] == sent;
    } else {
      LanesMatchReplace(t, s.lanes, queues, workers, sent, k, lane, queues[k], Scheduler.Ending, sent[k]);
      assert s.lanes[k := lane] == s.lanes && queues[k := queues[k]] == queues && sent[k := sent[k]] == sent;
    }
  }

  /** A send that succeeds is the run's Send. */
  method SendOn(t: Transfer, ghost s: Run, scheduler: Scheduler.MuxSendScheduler, k: nat)
    requires Matches(t, s, scheduler) && k < t.channels && scheduler.workers[k].Sending?
    modifies scheduler
    ensures Enabled(t, s, Action.Send(k)) && Matches(t, Step(t, s, Action.Send(k)), scheduler)
  {
    ghost var queues, workers, sent, lane := scheduler.queues, scheduler.workers, scheduler.sent, s.lanes[k];
    LaneSends(t, lane, queues[k], workers[k].item, sent[k]);
    scheduler.WorkerSend(k, Scheduler.Delivers);
    LanesMatchReplace(t, s.lanes, queues, workers, sent, k,
                      lane.(sender := Sent(lane.sender.chunk), wire := lane.wire + [ChunkFrame(lane.sender.chunk)]),
                      queues[k], Scheduler.Sent(workers[k].item), sent[k] + [workers[k].item]);
    assert queues[k := queues[k]] == queues;
  }

  /** The accounting section is the run's Account. */
  method AccountOn(t: Transfer, ghost s: Run, scheduler: Scheduler.MuxSendScheduler, k: nat, elapsedMs: int)
    requires Matches(t, s, scheduler) && k < t.channels && scheduler.workers[k].Sent?
    modifies scheduler
    ensures Enabled(t, s, Action.Account(k)) && Matches(t, Step(t, s, Action.Account(k)), scheduler)
  {
    ghost var queues, workers, sent, lane := scheduler.queues, scheduler.workers, scheduler.sent, s.lanes[k];
    assert LaneMatches(t, lane, queues[k], workers[k], sent[k]);
    scheduler.WorkerAccount(k, elapsedMs);
    LanesMatchReplace(t, s.lanes, queues, workers, sent, k, lane.(sender := Idle), queues[k], Scheduler.Idle, sent[k]);
    assert queues[k := queues[k]] == queues && sent[k := sent[k]] == sent;
  }

  /** A worker about to close its channel has nothing left to send, and no more will come. */
  lemma EndingIsEmpty(t: Transfer, s: Run, scheduler: Scheduler.MuxSendScheduler, k: nat)
    requires Matches(t, s, scheduler) && k < t.channels && scheduler.workers[k].Ending?
    ensures s.lanes[k].sender.Idle? && s.lanes[k].queue == [] && s.finishing
  {
    assert LaneMatches(t, s.lanes[k], scheduler.queues[k], scheduler.workers[k], scheduler.sent[k]);
    assert Scheduler.LaneOk(scheduler.sent[k], scheduler.queues[k], scheduler.workers[k], scheduler.wires[k],
                            Scheduler.Pending(scheduler.channelState)[k], scheduler.finishing, scheduler.error);
  }

  /** ChunkEnd is the run's Close. */
  method CloseOn(t: Transfer, ghost s: Run, scheduler: Scheduler.MuxSendScheduler, k: nat)
    requires Matches(t, s, scheduler) && k < t.channels && scheduler.workers[k].Ending?
    modifies scheduler
    ensures Enabled(t, s, Action.Close(k)) && Matches(t, Step(t, s, Action.Close(k)), scheduler)
  {
    ghost var queues, workers, sent, lane := scheduler.queues, scheduler.workers, scheduler.sent, s.lanes[k];
    LaneCloses(t, lane, queues[k], sent[k]);
    EndingIsEmpty(t, s, scheduler, k);
    scheduler.WorkerEnd(k, true);
    LanesMatchReplace(t, s.lanes, queues, workers, sent, k, lane.(sender := Done, wire := lane.wire + [ChunkEndFrame]),
                      queues[k], Scheduler.Ended, sent[k]);
    assert queues[k := queues[k]] == queues;
  }
}
