/**
 How far the synced indicator can be trusted. It compares revisions only, and a pad's revision is
 a 64-bit counter that wraps: exactly there the indicator parts from what the peer holds.
 */
module NoteSynced {
  import opened Prelude
  import opened NoteProtocol
  import opened NoteWorkspaces
  import opened NoteOutboxes
  import opened NoteSync

  /** The check synced_locked makes for one pad. */
  predicate ReadsAcked(w: Workspace, pad: string) {
    pad in w.local && pad in w.acked && w.local[pad] <= w.acked[pad]
  }

  /** Every local edit, on every pad, is contained in the peer. */
  ghost predicate AllDelivered(me: Replica, peer: Replica) {
    forall e :: e in me.made ==> StampLeq(EditStamp(e), PadStamp(peer.ws, e.pad))
  }

  // ---------------------------------------------------------------- exactly when a fresh edit reads as acknowledged

  /** An acknowledged revision is one of the replica's own, so never above its document. */
  lemma AckedBelowDocument(me: Replica, peer: Replica, pad: string)
    requires OwnEdits(me) && AcksTrue(me, peer) && pad in me.ws.acked
    ensures me.ws.acked[pad] <= PadStamp(me.ws, pad).revision <= U64_MAX
  {
    assert Contains(peer, me, pad, me.ws.acked[pad]);
  }

  /** The two facts about one side of a reachable net that the check rests on. */
  lemma SideFacts(net: Net, x: nat)
    requires Inv(net) && x < 2
    ensures var me, peer := net.replicas[x], Peer(net, x);
      OwnEdits(me) && OwnRevisions(me) && AcksTrue(me, peer)
  {
    assert x == 0 || x == 1;
  }

  lemma FreshEdit(me: Replica, peer: Replica, after: Workspace, frame: NoteFrame)
    requires OwnEdits(me) && AcksTrue(me, peer) && LocalEdit(me.ws, after, frame)
    ensures ReadsAcked(after, frame.pad) <==>
      frame.pad in me.ws.acked && PadStamp(me.ws, frame.pad).revision == U64_MAX
  {
    if frame.pad in me.ws.acked {
      AckedBelowDocument(me, peer, frame.pad);
    }
  }

  /**
   An edit that has only just been made must not read as acknowledged. In every reachable state it
   does so exactly when the pad was acknowledged before and its revision counter was exhausted.
   */
  lemma FreshEditReadsAcked(net: Net, x: nat, after: Workspace, frame: NoteFrame)
    requires Inv(net) && x < 2 && LocalEdit(net.replicas[x].ws, after, frame)
    ensures ReadsAcked(after, frame.pad) <==>
      frame.pad in net.replicas[x].ws.acked && PadStamp(net.replicas[x].ws, frame.pad).revision == U64_MAX
  {
    SideFacts(net, x);
    FreshEdit(net.replicas[x], Peer(net, x), after, frame);
  }

  /**
   What the check says about a pad, in every reachable state: while the pad's local revision is not
   0, all local edits of the pad are contained in the peer; at 0, only that something was once
   acknowledged.
   */
  lemma ReadsAckedMeans(net: Net, x: nat, pad: string)
    requires Inv(net) && x < 2 && pad in net.replicas[x].ws.local
    ensures var me, peer := net.replicas[x], Peer(net, x);
      && (me.ws.local[pad] > 0 && ReadsAcked(me.ws, pad) ==>
            forall e :: e in me.made && e.pad == pad ==> StampLeq(EditStamp(e), PadStamp(peer.ws, pad)))
      && (me.ws.local[pad] == 0 ==> (ReadsAcked(me.ws, pad) <==> pad in me.ws.acked))
  {
    EitherEnd(net, x);
    var me, peer := net.replicas[x], Peer(net, x);
    if me.ws.local[pad] > 0 && ReadsAcked(me.ws, pad) {
      forall e | e in me.made && e.pad == pad ensures StampLeq(EditStamp(e), PadStamp(peer.ws, pad)) {
        AckedMeansContained(me, peer, e);
      }
    }
  }

  // ---------------------------------------------------------------- runs that stay below the last revision

  /** The guard a caller can check before an edit: the active pad has a revision left. */
  predicate HasRevisionLeft(net: Net, a: Action)
    requires Enabled(net, a)
  {
    a.Update? || a.ClearNote? ==>
      var w := net.replicas[a.x].ws;
      PadStamp(w, NormalizedPad(w.active)).revision < U64_MAX
  }

  predicate StaysBelow(size: FrameSize, net: Net, actions: seq<Action>)
    requires CanRun(size, net, actions)
    decreases |actions|
  {
    actions != [] ==> HasRevisionLeft(net, actions[0]) && StaysBelow(size, Step(size, net, actions[0]), actions[1..])
  }

  predicate NoneWrapped(w: Workspace) {
    forall pad :: pad in w.local ==> w.local[pad] > 0
  }

  lemma LocalKeepsUnwrapped(before: Workspace, after: Workspace, frame: NoteFrame)
    requires NoneWrapped(before) && LocalEdit(before, after, frame)
    requires PadStamp(before, frame.pad).revision < U64_MAX
    ensures NoneWrapped(after)
  {
  }

  lemma ReplicaKeepsUnwrapped(size: FrameSize, me: Replica, incoming: seq<NoteFrame>, a: Action)
    requires a.Send? ==> me.box.frames != []
    requires a.Receive? ==> incoming != []
    requires a.CreateNote? ==> PadName(a.number) !in me.ws.documents
    requires NoneWrapped(me.ws)
    requires a.Update? || a.ClearNote? ==> PadStamp(me.ws, NormalizedPad(me.ws.active)).revision < U64_MAX
    ensures NoneWrapped(ReplicaStep(size, me, incoming, a).ws)
  {
    var w := me.ws;
    match a
    case Update(_, text, now) =>
      UpdateIsLocalEdit(w, text, now);
      if |text| <= NOTE_MAX_BYTES {
        LocalKeepsUnwrapped(w, UpdateActive(w, text, now).0, UpdateActive(w, text, now).1.value);
      }
    case ClearNote(_, now) =>
      ClearIsLocalEdit(w, now);
      LocalKeepsUnwrapped(w, ClearActive(w, now).0, ClearActive(w, now).1);
    case CreateNote(_, number, now) =>
      CreateIsLocalEdit(w, number, now);
      LocalKeepsUnwrapped(w, CreatePad(w, number, now).0, CreatePad(w, number, now).1);
    case _ =>
  }

  lemma Replaced(net: Net, next: Net, x: nat, me: Replica)
    requires net.Valid() && x < 2 && next.replicas == net.replicas[x := me] && |next.wires| == 2
    ensures next.Valid() && next.replicas[1 - x] == net.replicas[1 - x] && next.replicas[x] == me
  {
  }

  lemma StepParts(size: FrameSize, net: Net, a: Action)
    requires Enabled(net, a)
    ensures var next := Step(size, net, a);
      && next.Valid() && next.replicas[1 - a.x] == net.replicas[1 - a.x]
      && next.replicas[a.x] == ReplicaStep(size, net.replicas[a.x], net.wires[1 - a.x], a)
  {
    Replaced(net, Step(size, net, a), a.x, ReplicaStep(size, net.replicas[a.x], net.wires[1 - a.x], a));
  }

  lemma StepKeepsUnwrapped(size: FrameSize, net: Net, a: Action)
    requires Enabled(net, a) && HasRevisionLeft(net, a) && NoneWrapped(net.replicas[a.x].ws)
    ensures NoneWrapped(Step(size, net, a).replicas[a.x].ws)
    ensures Step(size, net, a).replicas[1 - a.x] == net.replicas[1 - a.x]
  {
    StepParts(size, net, a);
    ReplicaKeepsUnwrapped(size, net.replicas[a.x], net.wires[1 - a.x], a);
  }

  lemma {:induction false} RunStaysUnwrapped(size: FrameSize, net: Net, actions: seq<Action>)
    requires net.Valid() && CanRun(size, net, actions) && StaysBelow(size, net, actions)
    requires NoneWrapped(net.replicas[0].ws) && NoneWrapped(net.replicas[1].ws)
    ensures var end := RunAll(size, net, actions);
      end.Valid() && NoneWrapped(end.replicas[0].ws) && NoneWrapped(end.replicas[1].ws)
    decreases |actions|
  {
    if actions != [] {
      StepKeepsUnwrapped(size, net, actions[0]);
      RunStaysUnwrapped(size, Step(size, net, actions[0]), actions[1..]);
    }
  }

  lemma UnwrappedSynced(me: Replica, peer: Replica)
    requires OwnRevisions(me) && AcksTrue(me, peer) && Synced(me.ws) && NoneWrapped(me.ws)
    ensures AllDelivered(me, peer)
  {
    SyncedSide(me, peer);
  }

  /**
   In every run whose edits had a revision left, at any moment and with any frames and
   acknowledgements under way, `synced` means that every local edit ever made is contained in the peer.
   */
  lemma SyncedBelowLastRevision(size: FrameSize, writer0: string, writer1: string, actions: seq<Action>, x: nat)
    requires x < 2 && CanRun(size, InitialNet(writer0, writer1), actions)
    requires StaysBelow(size, InitialNet(writer0, writer1), actions)
    ensures var net := RunAll(size, InitialNet(writer0, writer1), actions);
      net.Valid() && (Synced(net.replicas[x].ws) ==> AllDelivered(net.replicas[x], Peer(net, x)))
  {
    var net := RunAll(size, InitialNet(writer0, writer1), actions);
    InitialInv(writer0, writer1);
    RunKeepsInv(size, InitialNet(writer0, writer1), actions);
    RunStaysUnwrapped(size, InitialNet(writer0, writer1), actions);
    SyncedNet(net, x);
  }

  lemma SyncedNet(net: Net, x: nat)
    requires Inv(net) && x < 2 && NoneWrapped(net.replicas[x].ws)
    ensures Synced(net.replicas[x].ws) ==> AllDelivered(net.replicas[x], Peer(net, x))
  {
    SideFacts(net, x);
    if Synced(net.replicas[x].ws) {
      UnwrappedSynced(net.replicas[x], Peer(net, x));
    }
  }

  // ---------------------------------------------------------------- a run that goes past it

  lemma {:induction false} RunSplit(size: FrameSize, net: Net, first: seq<Action>, rest: seq<Action>)
    requires CanRun(size, net, first) && CanRun(size, RunAll(size, net, first), rest)
    ensures CanRun(size, net, first + rest)
    ensures RunAll(size, net, first + rest) == RunAll(size, RunAll(size, net, first), rest)
    decreases |first|
  {
    if first == [] {
      assert first + rest == rest;
    } else {
      assert (first + rest)[0] == first[0] && (first + rest)[1..] == first[1..] + rest;
      RunSplit(size, Step(size, net, first[0]), first[1..], rest);
    }
  }

  lemma RunOne(size: FrameSize, net: Net, a: Action)
    requires Enabled(net, a)
    ensures CanRun(size, net, [a]) && RunAll(size, net, [a]) == Step(size, net, a)
  {
    assert [a][1..] == [];
  }

  /** Any one frame fits the outbox. */
  ghost predicate SmallFrames(size: FrameSize) {
    forall f :: size(f) <= OUTBOX_MAX_BYTES
  }

  /** An outbox with nothing in it but the newest unsent edit of "main". */
  predicate OnlyMain(size: FrameSize, box: Outbox) {
    && !box.stopped
    && (box.frames == [] ==> box.bytes == 0)
    && (box.frames != [] ==>
          |box.frames| == 1 && box.frames[0].IsEdit() && box.frames[0].pad == "main" && box.bytes == size(box.frames[0]))
  }

  lemma QueueKeepsOnlyMain(size: FrameSize, box: Outbox, frame: NoteFrame)
    requires SmallFrames(size) && OnlyMain(size, box) && frame.IsEdit() && frame.pad == "main"
    ensures OnlyMain(size, QueueFrame(size, box, frame).0)
  {
    if box.frames != [] {
      assert Coalesce(box.frames[0], frame);
    } else {
      assert FindQueued(box.frames, frame) == 0;
      assert box.frames + [frame] == [frame];
    }
  }

  /** The pad "main" is the active one, at revision `r`. */
  predicate OnMain(w: Workspace, r: nat) {
    w.active == "main" && "main" in w.documents && PadStamp(w, "main").revision == r
  }

  lemma EditOnMain(w: Workspace, r: nat)
    requires OnMain(w, r) && r <= U64_MAX
    ensures var (after, made) := UpdateActive(w, "", 0);
      && made.Ok? && made.value.IsEdit() && made.value.pad == "main" && made.value.revision == NextRevision(r)
      && OnMain(after, if r < U64_MAX then r + 1 else r)
      && after.local == w.local["main" := NextRevision(r)] && after.acked == w.acked
  {
  }

  /**
   Replica 0 has edited "main" up to revision `r`, of which only revision 1 reached the peer and was
   acknowledged; the rest waits in its outbox, where each edit replaced the one before.
   */
  ghost predicate Typing(size: FrameSize, net: Net, r: nat) {
    && net.Valid()
    && var me, peer := net.replicas[0], net.replicas[1];
    && OnMain(me.ws, r) && me.ws.local == map["main" := r] && me.ws.acked == map["main" := 1]
    && me.hand == multiset{} && OnlyMain(size, me.box)
    && (exists e :: e in me.made && e.pad == "main" && e.revision == r)
    && PadStamp(peer.ws, "main").revision == 1
  }

  function NextFrame(w: Workspace): NoteFrame {
    UpdateActive(w, "", 0).1.value
  }

  /** One more edit, queued but not sent. */
  function TypeOnce(w: Workspace): seq<Action> {
    [Action.Update(0, "", 0)] + [Queue(0, NextFrame(w))]
  }

  function Typed(size: FrameSize, net: Net): Net
    requires net.Valid()
  {
    var me := net.replicas[0];
    var next := me.(ws := UpdateActive(me.ws, "", 0).0, made := me.made + {NextFrame(me.ws)},
                    box := QueueFrame(size, me.box, NextFrame(me.ws)).0);
    net.(replicas := net.replicas[0 := next])
  }

  lemma TypeOnceRuns(size: FrameSize, net: Net)
    requires net.Valid() && net.replicas[0].hand == multiset{}
    ensures CanRun(size, net, TypeOnce(net.replicas[0].ws))
    ensures RunAll(size, net, TypeOnce(net.replicas[0].ws)) == Typed(size, net)
  {
    var me, frame := net.replicas[0], NextFrame(net.replicas[0].ws);
    var edited := Step(size, net, Action.Update(0, "", 0));
    assert edited.replicas[0] == WithEdit(me, UpdateActive(me.ws, "", 0).0, frame);
    assert edited.replicas[0].hand == multiset{frame};
    RunOne(size, net, Action.Update(0, "", 0));
    RunOne(size, edited, Queue(0, frame));
    RunSplit(size, net, [Action.Update(0, "", 0)], [Queue(0, frame)]);
    assert multiset{frame} - multiset{frame} == multiset{};
    assert Step(size, edited, Queue(0, frame)) == Typed(size, net);
  }

  lemma TypedStaysTyping(size: FrameSize, net: Net, r: nat)
    requires SmallFrames(size) && Typing(size, net, r) && r < U64_MAX
    ensures Typing(size, Typed(size, net), r + 1)
  {
    var me, frame := net.replicas[0], NextFrame(net.replicas[0].ws);
    EditOnMain(me.ws, r);
    QueueKeepsOnlyMain(size, me.box, frame);
    assert me.ws.local["main" := r + 1] == map["main" := r + 1];
    assert frame in Typed(size, net).replicas[0].made;
  }

  /** From revision `r` any number of further edits can be typed. */
  lemma {:induction false} TypeUpTo(size: FrameSize, net: Net, r: nat, target: nat) returns (actions: seq<Action>)
    requires SmallFrames(size) && Typing(size, net, r) && r <= target <= U64_MAX
    ensures CanRun(size, net, actions) && Typing(size, RunAll(size, net, actions), target)
    decreases target - r
  {
    if r == target {
      actions := [];
    } else {
      TypeOnceRuns(size, net);
      TypedStaysTyping(size, net, r);
      var rest := TypeUpTo(size, Typed(size, net), r + 1, target);
      RunSplit(size, net, TypeOnce(net.replicas[0].ws), rest);
      actions := TypeOnce(net.replicas[0].ws) + rest;
    }
  }

  /** One edit past the last revision: the indicator turns on with the last edit still unsent. */
  lemma TypedPastTheEnd(size: FrameSize, net: Net)
    requires SmallFrames(size) && Typing(size, net, U64_MAX)
    ensures var end := Typed(size, net);
      end.Valid() && Synced(end.replicas[0].ws) && !AllDelivered(end.replicas[0], end.replicas[1])
  {
    var me := net.replicas[0];
    EditOnMain(me.ws, U64_MAX);
    assert me.ws.local["main" := 0] == map["main" := 0];
    var e :| e in me.made && e.pad == "main" && e.revision == U64_MAX;
    assert e in Typed(size, net).replicas[0].made;
  }

  /** The first edit of "main" is on the wire and nothing else has happened. */
  ghost predicate FirstSent(net: Net, f: NoteFrame) {
    && net.Valid() && net.wires == [[f], []]
    && f.IsEdit() && f.pad == "main" && f.revision == 1
    && var me, peer := net.replicas[0], net.replicas[1];
    && OnMain(me.ws, 1) && me.ws.local == map["main" := 1] && me.ws.acked == map[]
    && me.hand == multiset{} && me.box == Outbox([], 0, false) && f in me.made
    && peer.hand == multiset{} && peer.box == Outbox([], 0, false) && OnMain(peer.ws, 0)
  }

  lemma FirstEditSent(size: FrameSize, writer0: string, writer1: string) returns (actions: seq<Action>, f: NoteFrame)
    requires SmallFrames(size)
    ensures var net := InitialNet(writer0, writer1);
      CanRun(size, net, actions) && FirstSent(RunAll(size, net, actions), f)
  {
    var net := InitialNet(writer0, writer1);
    var me := net.replicas[0];
    f := NextFrame(me.ws);
    EditOnMain(me.ws, 0);
    TypeOnceRuns(size, net);
    assert [] + [f] == [f];
    assert QueueFrame(size, me.box, f).0 == Outbox([f], size(f), false);
    var typed := Typed(size, net);
    var sent := Step(size, typed, Send(0));
    assert [f][1..] == [] && sent.wires == [[] + [f], []];
    assert sent.replicas[0].ws.local == map["main" := 1];
    RunOne(size, typed, Send(0));
    RunSplit(size, net, TypeOnce(me.ws), [Send(0)]);
    actions := TypeOnce(me.ws) + [Send(0)];
  }

  /** Replica 1 has taken the first edit in and its acknowledgement waits in its outbox. */
  ghost predicate AckQueued(size: FrameSize, net: Net, ack: NoteFrame) {
    && net.Valid() && net.wires == [[], []]
    && ack == MakeAck("main", 1, 0)
    && var me, peer := net.replicas[0], net.replicas[1];
    && OnMain(me.ws, 1) && me.ws.local == map["main" := 1] && me.ws.acked == map[]
    && me.hand == multiset{} && me.box == Outbox([], 0, false)
    && (exists e :: e in me.made && e.pad == "main" && e.revision == 1)
    && peer.box == Outbox([ack], size(ack), false) && OnMain(peer.ws, 1)
  }

  lemma FirstEditTaken(size: FrameSize, net: Net, f: NoteFrame) returns (actions: seq<Action>, ack: NoteFrame)
    requires SmallFrames(size) && FirstSent(net, f)
    ensures CanRun(size, net, actions) && AckQueued(size, RunAll(size, net, actions), ack)
  {
    ack := MakeAck("main", 1, 0);
    RemoteTakesMaximum(net.replicas[1].ws, f);
    var taken := Step(size, net, Receive(1, 0));
    assert net.wires[0] == [f] && [f][1..] == [] && net.wires[1] == [];
    assert taken.wires == net.wires[0 := [f][1..]];
    assert taken.replicas[1] == TakeEdit(net.replicas[1], f, 0);
    assert taken.replicas[1].hand == multiset{} + multiset{ack};
    RunOne(size, net, Receive(1, 0));
    assert [] + [ack] == [ack];
    RunOne(size, taken, Queue(1, ack));
    RunSplit(size, net, [Receive(1, 0)], [Queue(1, ack)]);
    actions := [Receive(1, 0)] + [Queue(1, ack)];
  }

  lemma FirstEditAcked(size: FrameSize, net: Net, ack: NoteFrame) returns (actions: seq<Action>)
    requires AckQueued(size, net, ack)
    ensures CanRun(size, net, actions) && Typing(size, RunAll(size, net, actions), 1)
  {
    var sent := Step(size, net, Send(1));
    assert sent.wires == [[], [] + [ack]];
    RunOne(size, net, Send(1));
    var acked := Step(size, sent, Receive(0, 0));
    assert acked.replicas[0].ws.acked == map["main" := 1];
    RunOne(size, sent, Receive(0, 0));
    RunSplit(size, net, [Send(1)], [Receive(0, 0)]);
    actions := [Send(1)] + [Receive(0, 0)];
  }

  /**
   The guard is needed: a run of ordinary edits that goes one past the last revision and ends with
   the indicator on while the peer lacks an edit of replica 0.
   */
  lemma SyncedPastLastRevision(size: FrameSize, writer0: string, writer1: string) returns (actions: seq<Action>)
    requires SmallFrames(size)
    ensures CanRun(size, InitialNet(writer0, writer1), actions)
    ensures var net := RunAll(size, InitialNet(writer0, writer1), actions);
      net.Valid() && Synced(net.replicas[0].ws) && !AllDelivered(net.replicas[0], net.replicas[1])
  {
    var net := InitialNet(writer0, writer1);
    var sending, f := FirstEditSent(size, writer0, writer1);
    var taking, ack := FirstEditTaken(size, RunAll(size, net, sending), f);
    RunSplit(size, net, sending, taking);
    var acking := FirstEditAcked(size, RunAll(size, net, sending + taking), ack);
    RunSplit(size, net, sending + taking, acking);
    var before := sending + taking + acking;
    var first := RunAll(size, net, before);
    var typing := TypeUpTo(size, first, 1, U64_MAX);
    RunSplit(size, net, before, typing);
    var last := RunAll(size, first, typing);
    TypeOnceRuns(size, last);
    TypedPastTheEnd(size, last);
    RunSplit(size, net, before + typing, TypeOnce(last.replicas[0].ws));
    actions := before + typing + TypeOnce(last.replicas[0].ws);
  }
}
