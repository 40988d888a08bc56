/**
 MuxSendScheduler: one producer hands chunk payloads to n worker threads, one queue per channel,
 under a per-channel and a global byte limit. The mutex makes each method below one atomic step;
 `worker` is split where it releases the lock.
 */
module MuxScheduler {
  import opened Prelude
  import opened MuxReceive

  const PENDING_CHUNKS_PER_CHANNEL: nat := 4
  const MAX_PENDING_PER_CHANNEL: nat := PENDING_CHUNKS_PER_CHANNEL * MUX_CHUNK
  const LATENCY_PENALTY_BYTES_PER_MS: real := 16.0 * 1024.0
  const SEND_EWMA_ALPHA: real := 0.2

  function Total(pending: seq<nat>): nat {
    if pending == [] then 0 else pending[0] + Total(pending[1..])
  }

  lemma {:induction false} TotalUpdate(pending: seq<nat>, k: nat, value: nat)
    requires k < |pending|
    ensures Total(pending[k := value]) + pending[k] == Total(pending) + value
  {
    if k > 0 {
      assert pending[k := value][1..] == pending[1..][k - 1 := value];
      TotalUpdate(pending[1..], k - 1, value);
    }
  }

  lemma {:induction false} TotalZero(pending: seq<nat>)
    requires forall k :: 0 <= k < |pending| ==> pending[k] == 0
    ensures Total(pending) == 0
  {
    if pending != [] {
      TotalZero(pending[1..]);
    }
  }

  /** A payload larger than the limit may still go out alone. */
  function ChannelLimit(payload: nat): nat {
    Max(MAX_PENDING_PER_CHANNEL, payload)
  }

  function GlobalLimit(channels: nat, payload: nat): nat {
    Max(channels * MAX_PENDING_PER_CHANNEL, payload)
  }

  predicate HasRoom(pending: seq<nat>, payload: nat, k: nat)
    requires k < |pending|
  {
    && Total(pending) + payload <= GlobalLimit(|pending|, payload)
    && pending[k] + payload <= ChannelLimit(payload)
  }

  /**
   A channel has room exactly when at most 1 MiB is then pending on it and 1 MiB per channel in all;
   a payload larger than that has room where nothing is pending.
   */
  lemma RoomExactly(pending: seq<nat>, payload: nat, k: nat)
    requires k < |pending|
    ensures HasRoom(pending, payload, k) <==>
      && (pending[k] == 0 || pending[k] + payload <= 1024 * 1024)
      && (Total(pending) == 0 || Total(pending) + payload <= |pending| * (1024 * 1024))
  {
    assert MAX_PENDING_PER_CHANNEL == 1024 * 1024;
    PendingBelowTotal(pending, k);
  }

  lemma {:induction false} PendingBelowTotal(pending: seq<nat>, k: nat)
    requires k < |pending|
    ensures pending[k] <= Total(pending)
  {
    if k > 0 {
      PendingBelowTotal(pending[1..], k - 1);
    }
  }

  /** With nothing pending, every channel takes any payload. */
  lemma EmptyMeansRoom(pending: seq<nat>, payload: nat)
    requires |pending| > 0
    requires forall k :: 0 <= k < |pending| ==> pending[k] == 0
    ensures HasRoom(pending, payload, 0)
  {
    TotalZero(pending);
  }

  /** Only outstanding bytes can block: a blocked producer leaves some worker something to send. */
  lemma BlockedMeansPending(pending: seq<nat>, payload: nat)
    requires |pending| > 0
    requires forall k :: 0 <= k < |pending| ==> !HasRoom(pending, payload, k)
    ensures exists k :: 0 <= k < |pending| && pending[k] > 0
  {
    if forall k :: 0 <= k < |pending| ==> pending[k] == 0 {
      EmptyMeansRoom(pending, payload);
    }
  }

  datatype SendItem = SendItem(payload: seq<byte>, rawSize: nat)

  /** Where a worker thread is between two critical sections. */
  datatype Worker =
    | Idle
    | Sending(item: SendItem)
    | Sent(item: SendItem)
    | Ending
    | Ended
    | Failed(lost: SendItem)
    | Thrown(gone: SendItem)
    | Stopped
  {
    /** The item whose bytes are still counted as pending. */
    function InFlight(): seq<SendItem> {
      match this
      case Sending(item) => [item]
      case Sent(item) => [item]
      case Failed(item) => [item]
      case Thrown(item) => [item]
      case _ => []
    }

    /** The item that has not reached the channel. */
    function Unsent(): seq<SendItem> {
      match this
      case Sending(item) => [item]
      case Failed(item) => [item]
      case _ => []
    }
  }

  function PayloadBytes(items: seq<SendItem>): nat {
    if items == [] then 0 else |items[0].payload| + PayloadBytes(items[1..])
  }

  lemma {:induction false} PayloadBytesAppend(items: seq<SendItem>, more: seq<SendItem>)
    ensures PayloadBytes(items + more) == PayloadBytes(items) + PayloadBytes(more)
    decreases |items|
  {
    if items == [] {
      assert items + more == more;
    } else {
      PayloadBytesAppend(items[1..], more);
      assert (items + more)[1..] == items[1..] + more;
    }
  }

  function DataFrames(items: seq<SendItem>): (frames: seq<Tagged>)
    ensures |frames| == |items|
  {
    seq(|items|, i requires 0 <= i < |items| => Tagged.Data(items[i].payload))
  }

  /** A send that throws may have put its frame on the wire before. */
  datatype SendOutcome = Delivers | LosesFrame | DeliversThenThrows

  datatype Placement = Placed(channel: nat) | MustWait | Rethrow

  /** Distance of channel `k` from the round-robin cursor. */
  function Turn(cursor: nat, channels: nat, k: nat): nat
    requires cursor < channels && k < channels
  {
    if k >= cursor then k - cursor else k + channels - cursor
  }

  /** What choose_ready_channel_locked reads of a channel. */
  datatype ChannelState = ChannelState(pendingBytes: nat, sendEwmaMs: real) {
    function Cost(): real {
      pendingBytes as real + sendEwmaMs * LATENCY_PENALTY_BYTES_PER_MS
    }
  }

  function Pending(states: seq<ChannelState>): (pending: seq<nat>)
    ensures |pending| == |states|
    ensures forall k :: 0 <= k < |states| ==> pending[k] == states[k].pendingBytes
  {
    seq(|states|, k requires 0 <= k < |states| => states[k].pendingBytes)
  }

  /** `b` is at least as good a choice as `k`: cheaper, or as cheap and first in turn. */
  predicate NoWorse(states: seq<ChannelState>, cursor: nat, b: nat, k: nat)
    requires cursor < |states| && b < |states| && k < |states|
  {
    || states[b].Cost() < states[k].Cost()
    || (states[b].Cost() == states[k].Cost() && Turn(cursor, |states|, b) <= Turn(cursor, |states|, k))
  }

  /** `best` is the choice among the channels whose turn comes before `limit`. */
  ghost predicate BestOf(states: seq<ChannelState>, payload: nat, cursor: nat, limit: nat, best: Option<nat>)
    requires cursor < |states|
  {
    match best
    case None =>
      forall k :: 0 <= k < |states| && Turn(cursor, |states|, k) < limit ==> !HasRoom(Pending(states), payload, k)
    case Some(b) =>
      && b < |states| && Turn(cursor, |states|, b) < limit && HasRoom(Pending(states), payload, b)
      && forall k :: 0 <= k < |states| && Turn(cursor, |states|, k) < limit && HasRoom(Pending(states), payload, k) ==>
           NoWorse(states, cursor, b, k)
  }

  lemma BestOfStep(states: seq<ChannelState>, payload: nat, cursor: nat, k: nat, best: Option<nat>)
    requires cursor < |states| && k < |states|
    requires BestOf(states, payload, cursor, Turn(cursor, |states|, k), best)
    ensures BestOf(states, payload, cursor, Turn(cursor, |states|, k) + 1,
                   if !HasRoom(Pending(states), payload, k) then best
                   else if best.None? || states[k].Cost() < states[best.value].Cost() then Some(k) else best)
  {
    forall j | 0 <= j < |states| && Turn(cursor, |states|, j) == Turn(cursor, |states|, k) ensures j == k {
    }
  }

  /**
   A channel with room is passed over only for one that makes up for it: a millisecond of average
   latency weighs as much as 16 KiB pending. So no channel with room is less loaded and as fast, or
   faster and as little loaded, and among channels alike in both the one first in turn is picked.
   */
  lemma BestIsUnbeaten(states: seq<ChannelState>, payload: nat, cursor: nat, b: nat, k: nat)
    requires cursor < |states| && BestOf(states, payload, cursor, |states|, Some(b))
    requires k < |states| && HasRoom(Pending(states), payload, k)
    ensures states[b].pendingBytes as real + states[b].sendEwmaMs * 16384.0
         <= states[k].pendingBytes as real + states[k].sendEwmaMs * 16384.0
    ensures states[k].pendingBytes <= states[b].pendingBytes && states[k].sendEwmaMs <= states[b].sendEwmaMs ==>
      states[k] == states[b] && Turn(cursor, |states|, b) <= Turn(cursor, |states|, k)
  {
    assert NoWorse(states, cursor, b, k);
  }

  /** record_channel_latency_locked: the first sample counts alone, later ones by a fifth. */
  function NextLatency(ewmaMs: real, elapsedMs: int): real {
    var sample := (if elapsedMs < 0 then 0 else elapsedMs) as real;
    if ewmaMs <= 0.0 then sample else ewmaMs * (1.0 - SEND_EWMA_ALPHA) + sample * SEND_EWMA_ALPHA
  }

  function LatencyAfter(ewmaMs: real, samples: seq<int>): real
    decreases |samples|
  {
    if samples == [] then ewmaMs else LatencyAfter(NextLatency(ewmaMs, samples[0]), samples[1..])
  }

  /** The average of any number of sends stays between the fastest and the slowest of them. */
  lemma {:induction false} LatencyStaysBetween(ewmaMs: real, samples: seq<int>, low: nat, high: nat)
    requires 0 < low && forall i :: 0 <= i < |samples| ==> low <= samples[i] <= high
    requires samples != [] && (ewmaMs <= 0.0 || low as real <= ewmaMs <= high as real)
    ensures low as real <= LatencyAfter(ewmaMs, samples) <= high as real
    decreases |samples|
  {
    if |samples| > 1 {
      LatencyStaysBetween(NextLatency(ewmaMs, samples[0]), samples[1..], low, high);
    } else {
      assert samples[1..] == [];
    }
  }

  /** A steady channel is soon known: each send takes a fifth off the difference. */
  lemma {:induction false} LatencyApproaches(ewmaMs: real, steady: nat, n: nat)
    requires ewmaMs > 0.0 && steady > 0
    ensures LatencyAfter(ewmaMs, seq(n, _ => steady)) - steady as real == (ewmaMs - steady as real) * Power(0.8, n)
    decreases n
  {
    if n > 0 {
      var samples := seq(n, _ => steady);
      assert samples[1..] == seq(n - 1, _ => steady);
      LatencyApproaches(NextLatency(ewmaMs, steady), steady, n - 1);
      assert NextLatency(ewmaMs, steady) - steady as real == (ewmaMs - steady as real) * 0.8;
    }
  }

  function Power(base: real, n: nat): real {
    if n == 0 then 1.0 else base * Power(base, n - 1)
  }

  /**
   The search of choose_ready_channel_locked: the cheapest channel with room, the first in turn
   among equals, or none exactly when no channel has room.
   */
  method PickChannel(states: seq<ChannelState>, payload: nat, cursor: nat) returns (best: Option<nat>)
    requires cursor < |states|
    ensures BestOf(states, payload, cursor, |states|, best)
    ensures best.None? <==> forall k :: 0 <= k < |states| ==> !HasRoom(Pending(states), payload, k)
  {
    if Total(Pending(states)) > GlobalLimit(|states|, payload) - payload {
      return None;
    }
    var channelLimit := ChannelLimit(payload);
    best := None;
    for step := 0 to |states|
      invariant BestOf(states, payload, cursor, step, best)
    {
      var k := if cursor + step < |states| then cursor + step else cursor + step - |states|;
      assert Turn(cursor, |states|, k) == step;
      BestOfStep(states, payload, cursor, k, best);
      if states[k].pendingBytes <= channelLimit - payload {
        if best.None? || states[k].Cost() < states[best.value].Cost() {
          best := Some(k);
        }
      }
    }
  }

  /**
   One channel: what was sent went out in order, ChunkEnd is last and only after everything, and
   pending_bytes counts exactly the queued and in-flight payload bytes.
   */
  ghost predicate LaneOk(sent: seq<SendItem>, queue: seq<SendItem>, worker: Worker, wire: seq<Tagged>,
                         pending: nat, finishing: bool, error: bool)
  {
    && wire == DataFrames(sent) + (if worker.Ended? then [ChunkEnd] else [])
    && pending == PayloadBytes(worker.InFlight()) + PayloadBytes(queue)
    && (worker.Ended? || worker.Ending? ==> queue == [] && finishing)
    && (worker.Failed? || worker.Thrown? || worker.Stopped? ==> error)
  }

  /** What a channel has been given, in order: sent, then in a worker's hands, then queued. */
  ghost function LaneItems(sent: seq<SendItem>, worker: Worker, queue: seq<SendItem>): seq<SendItem> {
    sent + worker.Unsent() + queue
  }

  lemma LanePlace(sent: seq<SendItem>, queue: seq<SendItem>, worker: Worker, wire: seq<Tagged>, pending: nat,
                  error: bool, item: SendItem)
    requires LaneOk(sent, queue, worker, wire, pending, false, error)
    ensures LaneOk(sent, queue + [item], worker, wire, pending + |item.payload|, false, error)
    ensures LaneItems(sent, worker, queue + [item]) == LaneItems(sent, worker, queue) + [item]
  {
    PayloadBytesAppend(queue, [item]);
  }

  /** Taking, sending and accounting for an item keep the lane in order and the count exact. */
  lemma LaneAdvance(sent: seq<SendItem>, queue: seq<SendItem>, wire: seq<Tagged>, pending: nat,
                    finishing: bool, error: bool, item: SendItem)
    ensures LaneOk(sent, [item] + queue, Idle, wire, pending, finishing, error) ==>
      LaneOk(sent, queue, Sending(item), wire, pending, finishing, error)
    ensures LaneOk(sent, queue, Sending(item), wire, pending, finishing, error) ==>
      LaneOk(sent + [item], queue, Sent(item), wire + [Tagged.Data(item.payload)], pending, finishing, error)
    ensures LaneOk(sent, queue, Sent(item), wire, pending, finishing, error) ==>
      |item.payload| <= pending && LaneOk(sent, queue, Idle, wire, pending - |item.payload|, finishing, error)
    ensures LaneItems(sent, Idle, [item] + queue) == LaneItems(sent, Sending(item), queue)
      == LaneItems(sent + [item], Sent(item), queue)
  {
    assert ([item] + queue)[1..] == queue;
  }

  /** A frame that reached the wire before the worker failed still counts as pending. */
  lemma LaneThrows(sent: seq<SendItem>, queue: seq<SendItem>, wire: seq<Tagged>, pending: nat,
                   finishing: bool, error: bool, item: SendItem)
    requires LaneOk(sent, queue, Sending(item), wire, pending, finishing, error)
    ensures LaneOk(sent, queue, Failed(item), wire, pending, finishing, true)
    ensures LaneOk(sent + [item], queue, Thrown(item), wire + [Tagged.Data(item.payload)], pending, finishing, true)
    ensures LaneItems(sent, Sending(item), queue) == LaneItems(sent, Failed(item), queue)
      == LaneItems(sent + [item], Thrown(item), queue)
  {
    assert DataFrames(sent + [item]) == DataFrames(sent) + [Tagged.Data(item.payload)];
  }

  ghost predicate LanesOk(sent: seq<seq<SendItem>>, queues: seq<seq<SendItem>>, workers: seq<Worker>,
                          wires: seq<seq<Tagged>>, pending: seq<nat>, finishing: bool, error: bool)
  {
    && |sent| == |queues| == |workers| == |wires| == |pending|
    && forall k {:trigger queues[k]} :: 0 <= k < |queues| ==>
         LaneOk(sent[k], queues[k], workers[k], wires[k], pending[k], finishing, error)
  }

  lemma LanesReplace(sent: seq<seq<SendItem>>, queues: seq<seq<SendItem>>, workers: seq<Worker>,
                     wires: seq<seq<Tagged>>, pending: seq<nat>, finishing: bool, error: bool,
                     k: nat, s: seq<SendItem>, q: seq<SendItem>, w: Worker, wire: seq<Tagged>, p: nat, e: bool)
    requires LanesOk(sent, queues, workers, wires, pending, finishing, error)
    requires k < |queues| && LaneOk(s, q, w, wire, p, finishing, e) && (error ==> e)
    ensures LanesOk(sent[k := s], queues[k := q], workers[k := w], wires[k := wire], pending[k := p], finishing, e)
  {
    forall j | 0 <= j < |queues| && j != k
      ensures LaneOk(sent[j], queues[j], workers[j], wires[j], pending[j], finishing, e)
    {
    }
  }

  /** An item more in one queue. */
  lemma LanesPlace(sent: seq<seq<SendItem>>, queues: seq<seq<SendItem>>, workers: seq<Worker>,
                   wires: seq<seq<Tagged>>, pending: seq<nat>, error: bool, k: nat, item: SendItem)
    requires LanesOk(sent, queues, workers, wires, pending, false, error) && k < |queues|
    ensures LanesOk(sent, queues[k := queues[k] + [item]], workers, wires, pending[k := pending[k] + |item.payload|], false, error)
  {
    LanePlace(sent[k], queues[k], workers[k], wires[k], pending[k], error, item);
  }

  lemma LaneEnd(sent: seq<SendItem>, queue: seq<SendItem>, wire: seq<Tagged>, pending: nat, finishing: bool, error: bool)
    requires LaneOk(sent, queue, Ending, wire, pending, finishing, error)
    ensures wire == DataFrames(sent)
    ensures LaneOk(sent, queue, Ended, wire + [ChunkEnd], pending, finishing, error)
    ensures LaneOk(sent, queue, Stopped, wire, pending, finishing, true)
    ensures LaneItems(sent, Ending, queue) == LaneItems(sent, Ended, queue) == LaneItems(sent, Stopped, queue) == sent
  {
  }

  /** Pending bytes on a lane that has not failed are somewhere a worker will pick them up. */
  lemma PendingMeansWork(sent: seq<seq<SendItem>>, queues: seq<seq<SendItem>>, workers: seq<Worker>,
                         wires: seq<seq<Tagged>>, pending: seq<nat>, finishing: bool, payload: nat)
    requires LanesOk(sent, queues, workers, wires, pending, finishing, false)
    requires |pending| > 0 && forall k :: 0 <= k < |pending| ==> !HasRoom(pending, payload, k)
    ensures exists k :: 0 <= k < |queues| && (queues[k] != [] || workers[k].Sending? || workers[k].Sent?)
  {
    BlockedMeansPending(pending, payload);
    var k :| 0 <= k < |pending| && pending[k] > 0;
    assert LaneOk(sent[k], queues[k], workers[k], wires[k], pending[k], finishing, false);
  }

  /** What is pending stays within the limits of the largest payload placed so far. */
  ghost predicate LimitsOk(states: seq<ChannelState>, maxPending: nat, largest: nat) {
    && (forall k :: 0 <= k < |states| ==> states[k].pendingBytes <= ChannelLimit(largest))
    && Total(Pending(states)) <= maxPending <= GlobalLimit(|states|, largest)
  }

  lemma PlaceKeepsLimits(states: seq<ChannelState>, maxPending: nat, largest: nat, k: nat, size: nat)
    requires LimitsOk(states, maxPending, largest) && k < |states| && HasRoom(Pending(states), size, k)
    ensures var next := states[k := ChannelState(states[k].pendingBytes + size, states[k].sendEwmaMs)];
      && Pending(next) == Pending(states)[k := Pending(states)[k] + size]
      && LimitsOk(next, Max(maxPending, Total(Pending(next))), Max(largest, size))
  {
    var next := states[k := ChannelState(states[k].pendingBytes + size, states[k].sendEwmaMs)];
    TotalUpdate(Pending(states), k, Pending(states)[k] + size);
    assert Pending(next) == Pending(states)[k := Pending(states)[k] + size];
  }

  class MuxSendScheduler {
    const channels: nat
    var queues: seq<seq<SendItem>>
    var channelState: seq<ChannelState>
    var workers: seq<Worker>
    /** What each channel has been given so far: the far end reads it in this order. */
    var wires: seq<seq<Tagged>>
    var nextChannel: nat
    var error: bool
    var finishing: bool
    var maxPending: nat
    ghost var sent: seq<seq<SendItem>>
    /** The largest payload placed so far. */
    ghost var largest: nat

    ghost predicate Valid()
      reads this
    {
      && 0 < channels && nextChannel < channels && |queues| == channels
      && LanesOk(sent, queues, workers, wires, Pending(channelState), finishing, error)
      && LimitsOk(channelState, maxPending, largest)
    }

    ghost function PlacedOn(k: nat): seq<SendItem>
      requires k < |sent| && k < |workers| && k < |queues|
      reads this
    {
      LaneItems(sent[k], workers[k], queues[k])
    }

    constructor (channels: nat)
      requires channels > 0
      ensures Valid() && this.channels == channels && !error && !finishing && largest == 0
      ensures queues == seq(channels, _ => []) && workers == seq(channels, _ => Idle) && wires == seq(channels, _ => [])
      ensures Pending(channelState) == seq(channels, _ => 0)
      ensures forall k :: 0 <= k < channels ==> PlacedOn(k) == []
    {
      this.channels := channels;
      queues, channelState := seq(channels, _ => []), seq(channels, _ => ChannelState(0, 0.0));
      workers, wires, nextChannel := seq(channels, _ => Idle), seq(channels, _ => []), 0;
      error, finishing, maxPending := false, false, 0;
      sent, largest := seq(channels, _ => []), 0;
      new;
      TotalZero(Pending(channelState));
    }

    /**
     One evaluation of enqueue under the lock. MustWait is the condition-variable wait: without an
     error it is only entered while some worker still holds an item or will find one.
     */
    method TryEnqueue(item: SendItem) returns (placement: Placement)
      requires Valid() && !finishing
      modifies this`nextChannel, this`queues, this`channelState, this`maxPending, this`largest
      ensures Valid()
      ensures placement == Rethrow <==> error
      ensures placement == MustWait ==>
        && (forall k :: 0 <= k < channels ==> !HasRoom(Pending(channelState), |item.payload|, k))
        && exists k :: 0 <= k < channels && (queues[k] != [] || workers[k].Sending? || workers[k].Sent?)
      ensures !placement.Placed? ==>
        queues == old(queues) && channelState == old(channelState) && largest == old(largest)
      ensures placement.Placed? ==> largest == Max(old(largest), |item.payload|)
      ensures placement.Placed? ==>
        placement.channel < |Pending(old(channelState))|
        && HasRoom(Pending(old(channelState)), |item.payload|, placement.channel)
      ensures placement.Placed? ==>
        var k := placement.channel;
        && BestOf(old(channelState), |item.payload|, old(nextChannel), channels, Some(k))
        && nextChannel == (k + 1) % channels
        && queues == old(queues)[k := old(queues)[k] + [item]]
        && channelState == old(channelState)[k := ChannelState(
             old(channelState)[k].pendingBytes + |item.payload|, old(channelState)[k].sendEwmaMs)]
        && PlacedOn(k) == old(PlacedOn(k)) + [item]
    {
      var size := |item.payload|;
      var chosen := PickChannel(channelState, size, nextChannel);
      if chosen.Some? {
        nextChannel := (chosen.value + 1) % channels;
      }
      if error {
        return Rethrow;
      }
      if chosen.None? {
        PendingMeansWork(sent, queues, workers, wires, Pending(channelState), finishing, size);
        return MustWait;
      }
      Place(chosen.value, item);
      return Placed(chosen.value);
    }

    method Place(k: nat, item: SendItem)
      requires Valid() && !finishing && !error
      requires k < channels && HasRoom(Pending(channelState), |item.payload|, k)
      modifies this`queues, this`channelState, this`maxPending, this`largest
      ensures Valid()
      ensures queues == old(queues)[k := old(queues)[k] + [item]]
      ensures channelState == old(channelState)[k := ChannelState(
                old(channelState)[k].pendingBytes + |item.payload|, old(channelState)[k].sendEwmaMs)]
      ensures PlacedOn(k) == old(PlacedOn(k)) + [item] && largest == Max(old(largest), |item.payload|)
    {
      var more := channelState[k].pendingBytes + |item.payload|;
      LanesPlace(sent, queues, workers, wires, Pending(channelState), error, k, item);
      PlaceKeepsLimits(channelState, maxPending, largest, k, |item.payload|);
      channelState := channelState[k := ChannelState(more, channelState[k].sendEwmaMs)];
      queues := queues[k := queues[k] + [item]];
      maxPending := Max(maxPending, Total(Pending(channelState)));
      largest := Max(largest, |item.payload|);
    }

    method SetPending(k: nat, pendingBytes: nat, sendEwmaMs: real)
      requires k < |channelState|
      modifies this`channelState
      ensures channelState == old(channelState)[k := ChannelState(pendingBytes, sendEwmaMs)]
      ensures Pending(channelState) == Pending(old(channelState))[k := pendingBytes]
      ensures Total(Pending(channelState)) + old(channelState)[k].pendingBytes
           == Total(Pending(old(channelState))) + pendingBytes
    {
      TotalUpdate(Pending(channelState), k, pendingBytes);
      channelState := channelState[k := ChannelState(pendingBytes, sendEwmaMs)];
      assert Pending(channelState) == Pending(old(channelState))[k := pendingBytes];
    }

    /** finish: no more items; the workers end once their queues are empty. */
    method BeginFinish()
      requires Valid()
      modifies this`finishing
      ensures Valid() && finishing
    {
      finishing := true;
    }

    /** The top of the worker loop, once its wait condition holds. */
    method WorkerWake(k: nat)
      requires Valid() && k < channels && workers[k].Idle?
      requires error || finishing || queues[k] != []
      modifies this`workers, this`queues
      ensures Valid() && PlacedOn(k) == old(PlacedOn(k))
      ensures error ==> workers == old(workers)[k := Stopped] && queues == old(queues)
      ensures !error && old(queues)[k] == [] ==> workers == old(workers)[k := Ending] && queues == old(queues)
      ensures !error && old(queues)[k] != [] ==>
        && workers == old(workers)[k := Sending(old(queues)[k][0])]
        && queues == old(queues)[k := old(queues)[k][1..]]
    {
      var queue, worker := queues[k], workers[k];
      if error {
        worker := Stopped;
      } else if queue == [] {
        worker := Ending;
      } else {
        LaneAdvance(sent[k], queue[1..], wires[k], channelState[k].pendingBytes, finishing, error, queue[0]);
        assert [queue[0]] + queue[1..] == queue;
        worker, queue := Sending(queue[0]), queue[1..];
      }
      LanesReplace(sent, queues, workers, wires, Pending(channelState), finishing, error,
                   k, sent[k], queue, worker, wires[k], channelState[k].pendingBytes, error);
      queues, workers := queues[k := queue], workers[k := worker];
    }

    /** send_tagged outside the lock; when it throws, set_error records it and the worker returns. */
    method WorkerSend(k: nat, outcome: SendOutcome)
      requires Valid() && k < channels && workers[k].Sending?
      modifies this`workers, this`wires, this`error, this`sent
      ensures Valid() && PlacedOn(k) == old(PlacedOn(k))
      ensures error == (old(error) || !outcome.Delivers?)
      ensures var item := old(workers)[k].item;
        && workers == old(workers)[k := match outcome
                                        case Delivers => Sent(item)
                                        case LosesFrame => Failed(item)
                                        case DeliversThenThrows => Thrown(item)]
        && wires == (if outcome.LosesFrame? then old(wires)
                     else old(wires)[k := old(wires)[k] + [Tagged.Data(item.payload)]])
        && sent == (if outcome.LosesFrame? then old(sent) else old(sent)[k := old(sent)[k] + [item]])
    {
      var item := workers[k].item;
      LaneAdvance(sent[k], queues[k], wires[k], channelState[k].pendingBytes, finishing, error, item);
      LaneThrows(sent[k], queues[k], wires[k], channelState[k].pendingBytes, finishing, error, item);
      match outcome
      case Delivers => SetLane(k, Sent(item), wires[k] + [Tagged.Data(item.payload)], sent[k] + [item], false);
      case LosesFrame => SetLane(k, Failed(item), wires[k], sent[k], true);
      case DeliversThenThrows =>
        SetLane(k, Thrown(item), wires[k] + [Tagged.Data(item.payload)], sent[k] + [item], true);
    }

    /** A worker leaves its send with this wire; `throws` sets the shared error. */
    method SetLane(k: nat, worker: Worker, wire: seq<Tagged>, ghost done: seq<SendItem>, throws: bool)
      requires Valid() && k < channels
      requires LaneOk(done, queues[k], worker, wire, channelState[k].pendingBytes, finishing, error || throws)
      modifies this`workers, this`wires, this`error, this`sent
      ensures Valid() && workers == old(workers)[k := worker] && wires == old(wires)[k := wire]
      ensures sent == old(sent)[k := done] && error == (old(error) || throws)
    {
      LanesReplace(sent, queues, workers, wires, Pending(channelState), finishing, error,
                   k, done, queues[k], worker, wire, channelState[k].pendingBytes, error || throws);
      wires, workers, sent := wires[k := wire], workers[k := worker], sent[k := done];
      error := error || throws;
    }

    /** The accounting section after a send. The subtraction never saturates. */
    method WorkerAccount(k: nat, elapsedMs: int)
      requires Valid() && k < channels && workers[k].Sent?
      modifies this`workers, this`channelState
      ensures Valid() && PlacedOn(k) == old(PlacedOn(k))
      ensures channelState == old(channelState)[k := channelState[k]]
      ensures channelState[k].pendingBytes + |old(workers)[k].item.payload| == old(channelState)[k].pendingBytes
      ensures channelState[k].sendEwmaMs == NextLatency(old(channelState)[k].sendEwmaMs, elapsedMs)
      ensures workers == old(workers)[k := Idle]
    {
      var state, item := channelState[k], workers[k].item;
      LaneAdvance(sent[k], queues[k], wires[k], state.pendingBytes, finishing, error, item);
      var left := state.pendingBytes - Min(state.pendingBytes, |item.payload|);
      LanesReplace(sent, queues, workers, wires, Pending(channelState), finishing, error,
                   k, sent[k], queues[k], Idle, wires[k], left, error);
      SetPending(k, left, NextLatency(state.sendEwmaMs, elapsedMs));
      workers := workers[k := Idle];
    }

    /** After the loop: ChunkEnd, once, behind everything the channel was given. */
    method WorkerEnd(k: nat, delivered: bool)
      requires Valid() && k < channels && workers[k].Ending?
      modifies this`workers, this`wires, this`error, this`sent
      ensures Valid() && PlacedOn(k) == old(PlacedOn(k)) && sent == old(sent)
      ensures delivered ==>
        && workers == old(workers)[k := Ended] && error == old(error)
        && wires == old(wires)[k := DataFrames(PlacedOn(k)) + [ChunkEnd]]
      ensures !delivered ==> workers == old(workers)[k := Stopped] && error && wires == old(wires)
    {
      var wire := if delivered then wires[k] + [ChunkEnd] else wires[k];
      var worker := if delivered then Ended else Stopped;
      LaneEnd(sent[k], queues[k], wires[k], channelState[k].pendingBytes, finishing, error);
      SetLane(k, worker, wire, sent[k], !delivered);
    }

    /** join succeeded on every worker without an error: each channel carries all its items, then ChunkEnd. */
    lemma AllSent()
      requires Valid() && forall k :: 0 <= k < channels ==> workers[k].Ended?
      ensures forall k :: 0 <= k < channels ==>
        && wires[k] == DataFrames(PlacedOn(k)) + [ChunkEnd]
        && channelState[k].pendingBytes == 0
    {
      forall k | 0 <= k < channels
        ensures wires[k] == DataFrames(PlacedOn(k)) + [ChunkEnd] && channelState[k].pendingBytes == 0
      {
        assert queues[k] == [];
        assert PlacedOn(k) == sent[k];
      }
    }
  }
}
