/**
 Acknowledgements arrive: although coalescing drops frames in both directions, every local edit is
 acknowledged once nothing is under way, so the synced indicator turns on.
 */
module NoteAcks {
  import opened Prelude
  import opened NoteProtocol
  import opened NoteWorkspaces
  import opened NoteOutboxes
  import opened NoteSync
  import opened NoteSynced

  /** An edit of the pad, of at least that revision, is on its way to the peer. */
  ghost predicate EditComing(me: Replica, out: seq<NoteFrame>, pad: string, revision: nat) {
    exists f :: InTransit(me, out, f) && f.IsEdit() && f.pad == pad && revision <= f.revision
  }

  /** An acknowledgement of the pad, of at least that revision, is on its way back. */
  ghost predicate AckComing(peer: Replica, back: seq<NoteFrame>, pad: string, revision: nat) {
    exists f :: InTransit(peer, back, f) && f.kind.Ack? && f.pad == pad && revision <= f.revision
  }

  /** Each local revision is acknowledged, or its edit or its acknowledgement is still under way. */
  ghost predicate Owed(me: Replica, peer: Replica, out: seq<NoteFrame>, back: seq<NoteFrame>) {
    !me.box.stopped && !peer.box.stopped ==>
      forall p :: p in me.ws.local ==>
        || ReadsAcked(me.ws, p)
        || EditComing(me, out, p, me.ws.local[p])
        || AckComing(peer, back, p, me.ws.local[p])
  }

  ghost predicate Accounted(net: Net, x: nat)
    requires net.Valid() && x < 2
  {
    && Owed(net.replicas[x], Peer(net, x), net.wires[x], net.wires[1 - x])
    && Owed(Peer(net, x), net.replicas[x], net.wires[1 - x], net.wires[x])
  }

  // ---------------------------------------------------------------- frames that stay under way

  /** Nothing under way at this end was lost. */
  ghost predicate KeepsTransit(me: Replica, out: seq<NoteFrame>, me': Replica, out': seq<NoteFrame>) {
    forall f :: InTransit(me, out, f) ==>
      exists g :: InTransit(me', out', g) && Covers(g, f)
  }

  /** A frame that does for the other: same pad, same kind, not older. */
  predicate Covers(g: NoteFrame, f: NoteFrame) {
    g.pad == f.pad && f.revision <= g.revision && (f.IsEdit() ==> g.IsEdit()) && (f.kind.Ack? ==> g.kind.Ack?)
  }

  lemma ComingKept(me: Replica, out: seq<NoteFrame>, me': Replica, out': seq<NoteFrame>, pad: string, revision: nat)
    requires KeepsTransit(me, out, me', out')
    ensures EditComing(me, out, pad, revision) ==> EditComing(me', out', pad, revision)
    ensures AckComing(me, out, pad, revision) ==> AckComing(me', out', pad, revision)
  {
    if f :| InTransit(me, out, f) && f.IsEdit() && f.pad == pad && revision <= f.revision {
      var g :| InTransit(me', out', g) && Covers(g, f);
    }
    if f :| InTransit(me, out, f) && f.kind.Ack? && f.pad == pad && revision <= f.revision {
      var g :| InTransit(me', out', g) && Covers(g, f);
    }
  }

  /** A step that loses nothing at this end and leaves its counters alone keeps both accounts. */
  lemma QuietKeepsOwed(me: Replica, me': Replica, peer: Replica, out: seq<NoteFrame>, out': seq<NoteFrame>,
                       back: seq<NoteFrame>)
    requires Owed(me, peer, out, back) && Owed(peer, me, back, out)
    requires me'.ws.local == me.ws.local && me'.ws.acked == me.ws.acked
    requires me.box.stopped ==> me'.box.stopped
    requires me'.box.stopped || KeepsTransit(me, out, me', out')
    ensures Owed(me', peer, out', back) && Owed(peer, me', back, out')
  {
    if !me'.box.stopped && !peer.box.stopped {
      forall p | p in me.ws.local
        ensures ReadsAcked(me'.ws, p) || EditComing(me', out', p, me.ws.local[p]) || AckComing(peer, back, p, me.ws.local[p])
      {
        ComingKept(me, out, me', out', p, me.ws.local[p]);
      }
      forall p | p in peer.ws.local
        ensures ReadsAcked(peer.ws, p) || EditComing(peer, back, p, peer.ws.local[p]) || AckComing(me', out', p, peer.ws.local[p])
      {
        ComingKept(me, out, me', out', p, peer.ws.local[p]);
      }
    }
  }

  /** More under way at this end never hurts. */
  lemma MoreTransit(me: Replica, out: seq<NoteFrame>, me': Replica, out': seq<NoteFrame>)
    requires forall f :: InTransit(me, out, f) ==> InTransit(me', out', f)
    ensures KeepsTransit(me, out, me', out')
  {
    forall f | InTransit(me, out, f) ensures exists g :: InTransit(me', out', g) && Covers(g, f) {
      assert InTransit(me', out', f) && Covers(f, f);
    }
  }

  // ---------------------------------------------------------------- the steps

  lemma LocalEditOwed(me: Replica, peer: Replica, out: seq<NoteFrame>, back: seq<NoteFrame>, ws: Workspace, frame: NoteFrame)
    requires Owed(me, peer, out, back) && Owed(peer, me, back, out) && LocalEdit(me.ws, ws, frame)
    ensures Owed(WithEdit(me, ws, frame), peer, out, back) && Owed(peer, WithEdit(me, ws, frame), back, out)
  {
    var me' := WithEdit(me, ws, frame);
    var same := me'.(ws := me.ws);
    MoreTransit(me, out, same, out);
    QuietKeepsOwed(me, same, peer, out, out, back);
    assert forall f :: InTransit(same, out, f) <==> InTransit(me', out, f);
    assert InTransit(me', out, frame);
    forall p | p in ws.local && p != frame.pad && (EditComing(same, out, p, ws.local[p]))
      ensures EditComing(me', out, p, ws.local[p])
    {
      var f :| InTransit(same, out, f) && f.IsEdit() && f.pad == p && ws.local[p] <= f.revision;
      assert InTransit(me', out, f);
    }
    forall p | p in peer.ws.local && AckComing(same, out, p, peer.ws.local[p])
      ensures AckComing(me', out, p, peer.ws.local[p])
    {
      var f :| InTransit(same, out, f) && f.kind.Ack? && f.pad == p && peer.ws.local[p] <= f.revision;
      assert InTransit(me', out, f);
    }
  }

  /** A queued frame may replace or be dropped for another, but never for an older one of its kind and pad. */
  lemma QueueKeepsTransit(size: FrameSize, me: Replica, out: seq<NoteFrame>, frame: NoteFrame)
    requires frame in me.hand && !QueueFrame(size, me.box, frame).0.stopped
    requires forall f :: InTransit(me, out, f) ==> f.IsEdit() || f.kind.Ack?
    ensures KeepsTransit(me, out, me.(hand := me.hand - multiset{frame}, box := QueueFrame(size, me.box, frame).0), out)
  {
    var me' := me.(hand := me.hand - multiset{frame}, box := QueueFrame(size, me.box, frame).0);
    forall f | InTransit(me, out, f) ensures exists g :: InTransit(me', out, g) && Covers(g, f) {
      var g := Survivor(size, me, out, frame, f);
    }
  }

  lemma Survivor(size: FrameSize, me: Replica, out: seq<NoteFrame>, frame: NoteFrame, f: NoteFrame) returns (g: NoteFrame)
    requires frame in me.hand && !QueueFrame(size, me.box, frame).0.stopped && InTransit(me, out, f)
    ensures InTransit(me.(hand := me.hand - multiset{frame}, box := QueueFrame(size, me.box, frame).0), out, g)
    ensures Covers(g, f)
  {
    var before, after := me.box.frames, QueueFrame(size, me.box, frame).0.frames;
    var i := FindQueued(before, frame);
    QueueShape(size, me.box, frame);
    if f in before {
      var j :| 0 <= j < |before| && before[j] == f;
      g := after[j];
    } else if f == frame {
      g := after[i];
    } else {
      g := f;
    }
    assert g in after || g in out || g in me.hand - multiset{frame};
  }

  /** What queueing does to the frames: the slot of the coalescing frame holds the newer of the two. */
  lemma QueueShape(size: FrameSize, box: Outbox, frame: NoteFrame)
    requires !QueueFrame(size, box, frame).0.stopped
    ensures var after, i := QueueFrame(size, box, frame).0.frames, FindQueued(box.frames, frame);
      && |box.frames| <= |after| && i < |after|
      && (forall j :: 0 <= j < |box.frames| && j != i ==> after[j] == box.frames[j])
      && Covers(after[i], frame)
      && (i < |box.frames| ==> Covers(after[i], box.frames[i]))
  {
  }

  lemma SendKeepsTransit(size: FrameSize, me: Replica, out: seq<NoteFrame>)
    requires me.box.frames != []
    ensures KeepsTransit(me, out, me.(box := TakeFrame(size, me.box).0), out + [me.box.frames[0]])
  {
    assert me.box.frames == [me.box.frames[0]] + me.box.frames[1..];
    MoreTransit(me, out, me.(box := TakeFrame(size, me.box).0), out + [me.box.frames[0]]);
  }

  /** What is still on the wire once its first frame is taken off. */
  lemma FirstTaken(peer: Replica, back: seq<NoteFrame>, pad: string, revision: nat)
    requires back != []
    ensures EditComing(peer, back, pad, revision) ==>
      EditComing(peer, back[1..], pad, revision) || (back[0].IsEdit() && back[0].pad == pad && revision <= back[0].revision)
    ensures AckComing(peer, back, pad, revision) ==>
      AckComing(peer, back[1..], pad, revision) || (back[0].kind.Ack? && back[0].pad == pad && revision <= back[0].revision)
  {
    assert back == [back[0]] + back[1..];
    if f :| InTransit(peer, back, f) && f.IsEdit() && f.pad == pad && revision <= f.revision {
      assert f == back[0] || InTransit(peer, back[1..], f);
    }
    if f :| InTransit(peer, back, f) && f.kind.Ack? && f.pad == pad && revision <= f.revision {
      assert f == back[0] || InTransit(peer, back[1..], f);
    }
  }

  /** Taking an edit in: its acknowledgement is under way from then on. */
  lemma EditTakenOwed(me: Replica, peer: Replica, out: seq<NoteFrame>, back: seq<NoteFrame>, now: nat)
    requires Owed(me, peer, out, back) && Owed(peer, me, back, out)
    requires back != [] && back[0].IsEdit() && back[0].pad != ""
    ensures var me' := TakeEdit(me, back[0], now);
      Owed(me', peer, out, back[1..]) && Owed(peer, me', back[1..], out)
  {
    var me', ack := TakeEdit(me, back[0], now), MakeAck(back[0].pad, back[0].revision, now);
    RemoteAppliesEdit(me.ws, back[0]);
    assert InTransit(me', out, ack);
    MoreTransit(me, out, me', out);
    if !me.box.stopped && !peer.box.stopped {
      forall p | p in me.ws.local
        ensures ReadsAcked(me'.ws, p) || EditComing(me', out, p, me.ws.local[p]) || AckComing(peer, back[1..], p, me.ws.local[p])
      {
        ComingKept(me, out, me', out, p, me.ws.local[p]);
        FirstTaken(peer, back, p, me.ws.local[p]);
      }
      forall p | p in peer.ws.local
        ensures ReadsAcked(peer.ws, p) || EditComing(peer, back[1..], p, peer.ws.local[p]) || AckComing(me', out, p, peer.ws.local[p])
      {
        ComingKept(me, out, me', out, p, peer.ws.local[p]);
        FirstTaken(peer, back, p, peer.ws.local[p]);
      }
    }
  }

  /** Taking an acknowledgement in: what it acknowledges reads as acknowledged. */
  lemma AckTakenOwed(me: Replica, peer: Replica, out: seq<NoteFrame>, back: seq<NoteFrame>)
    requires Owed(me, peer, out, back) && Owed(peer, me, back, out)
    requires back != [] && back[0].kind.Ack? && back[0].pad != ""
    ensures var me' := me.(ws := Acknowledge(me.ws, back[0]));
      Owed(me', peer, out, back[1..]) && Owed(peer, me', back[1..], out)
  {
    var me' := me.(ws := Acknowledge(me.ws, back[0]));
    MoreTransit(me, out, me', out);
    if !me.box.stopped && !peer.box.stopped {
      forall p | p in me.ws.local
        ensures ReadsAcked(me'.ws, p) || EditComing(me', out, p, me.ws.local[p]) || AckComing(peer, back[1..], p, me.ws.local[p])
      {
        ComingKept(me, out, me', out, p, me.ws.local[p]);
        FirstTaken(peer, back, p, me.ws.local[p]);
      }
      forall p | p in peer.ws.local
        ensures ReadsAcked(peer.ws, p) || EditComing(peer, back[1..], p, peer.ws.local[p]) || AckComing(me', out, p, peer.ws.local[p])
      {
        ComingKept(me, out, me', out, p, peer.ws.local[p]);
        FirstTaken(peer, back, p, peer.ws.local[p]);
      }
    }
  }

  // ---------------------------------------------------------------- every step, every run

  /** The wires after a step: only sending appends and only receiving takes off. */
  lemma StepWires(size: FrameSize, net: Net, a: Action)
    requires Enabled(net, a)
    ensures var next := Step(size, net, a);
      && next.Valid()
      && next.wires[a.x] == (if a.Send? then net.wires[a.x] + [net.replicas[a.x].box.frames[0]] else net.wires[a.x])
      && next.wires[1 - a.x] == (if a.Receive? then net.wires[1 - a.x][1..] else net.wires[1 - a.x])
  {
  }

  /** Selecting a pad and stopping leave frames and counters alone. */
  lemma RestOwed(me: Replica, me': Replica, peer: Replica, out: seq<NoteFrame>, back: seq<NoteFrame>)
    requires Owed(me, peer, out, back) && Owed(peer, me, back, out)
    requires me'.ws.local == me.ws.local && me'.ws.acked == me.ws.acked
    requires me'.hand == me.hand && me'.box.frames == me.box.frames && (me.box.stopped ==> me'.box.stopped)
    ensures Owed(me', peer, out, back) && Owed(peer, me', back, out)
  {
    MoreTransit(me, out, me', out);
    QuietKeepsOwed(me, me', peer, out, out, back);
  }

  lemma EditStepOwed(size: FrameSize, me: Replica, peer: Replica, out: seq<NoteFrame>, back: seq<NoteFrame>, a: Action)
    requires Owed(me, peer, out, back) && Owed(peer, me, back, out)
    requires a.Update? || a.ClearNote? || (a.CreateNote? && PadName(a.number) !in me.ws.documents)
    ensures var me' := ReplicaStep(size, me, back, a);
      Owed(me', peer, out, back) && Owed(peer, me', back, out)
  {
    match a
    case Update(_, text, now) =>
      UpdateIsLocalEdit(me.ws, text, now);
      var (ws, r) := UpdateActive(me.ws, text, now);
      if r.Ok? {
        LocalEditOwed(me, peer, out, back, ws, r.value);
      } else {
        RestOwed(me, me.(ws := ws), peer, out, back);
      }
    case ClearNote(_, now) =>
      ClearIsLocalEdit(me.ws, now);
      LocalEditOwed(me, peer, out, back, ClearActive(me.ws, now).0, ClearActive(me.ws, now).1);
    case CreateNote(_, number, now) =>
      CreateIsLocalEdit(me.ws, number, now);
      LocalEditOwed(me, peer, out, back, CreatePad(me.ws, number, now).0, CreatePad(me.ws, number, now).1);
  }

  /** Every frame under way at this end is an edit or an acknowledgement of a named pad. */
  ghost predicate Readable(me: Replica, out: seq<NoteFrame>) {
    forall f :: InTransit(me, out, f) ==> (f.IsEdit() || f.kind.Ack?) && f.pad != ""
  }

  lemma QueueStepOwed(size: FrameSize, me: Replica, peer: Replica, out: seq<NoteFrame>, back: seq<NoteFrame>, frame: NoteFrame)
    requires Owed(me, peer, out, back) && Owed(peer, me, back, out)
    requires frame in me.hand && Readable(me, out)
    ensures var me' := me.(hand := me.hand - multiset{frame}, box := QueueFrame(size, me.box, frame).0);
      Owed(me', peer, out, back) && Owed(peer, me', back, out)
  {
    var me' := me.(hand := me.hand - multiset{frame}, box := QueueFrame(size, me.box, frame).0);
    if !me'.box.stopped {
      QueueKeepsTransit(size, me, out, frame);
    }
    QuietKeepsOwed(me, me', peer, out, out, back);
  }

  lemma MoveStepOwed(size: FrameSize, me: Replica, peer: Replica, out: seq<NoteFrame>, back: seq<NoteFrame>, a: Action)
    requires Owed(me, peer, out, back) && Owed(peer, me, back, out)
    requires a.Select? || a.Stop? || (a.Queue? && a.frame in me.hand)
    requires Readable(me, out)
    ensures var me' := ReplicaStep(size, me, back, a);
      Owed(me', peer, out, back) && Owed(peer, me', back, out)
  {
    var me' := ReplicaStep(size, me, back, a);
    if a.Queue? {
      QueueStepOwed(size, me, peer, out, back, a.frame);
    } else {
      RestOwed(me, me', peer, out, back);
    }
  }

  lemma HonestFrames(me: Replica, peer: Replica, out: seq<NoteFrame>)
    requires Side(me, peer, out)
    ensures Readable(me, out)
  {
  }

  lemma FirstReadable(peer: Replica, back: seq<NoteFrame>)
    requires Readable(peer, back) && back != []
    ensures (back[0].IsEdit() || back[0].kind.Ack?) && back[0].pad != ""
  {
    assert InTransit(peer, back, back[0]);
  }

  lemma TakenOwed(me: Replica, me': Replica, peer: Replica, out: seq<NoteFrame>, back: seq<NoteFrame>, now: nat)
    requires Owed(me, peer, out, back) && Owed(peer, me, back, out) && back != [] && back[0].pad != ""
    requires back[0].IsEdit() || back[0].kind.Ack?
    requires me' == if back[0].kind.Ack? then me.(ws := Acknowledge(me.ws, back[0])) else TakeEdit(me, back[0], now)
    ensures Owed(me', peer, out, back[1..]) && Owed(peer, me', back[1..], out)
  {
    if back[0].kind.Ack? {
      AckTakenOwed(me, peer, out, back);
    } else {
      EditTakenOwed(me, peer, out, back, now);
    }
  }

  lemma ReceiveStepOwed(size: FrameSize, net: Net, x: nat, now: nat)
    requires Enabled(net, Receive(x, now)) && Accounted(net, x) && Readable(Peer(net, x), net.wires[1 - x])
    ensures Accounted(Step(size, net, Receive(x, now)), x)
  {
    ReceiveParts(size, net, x, now);
    FirstReadable(Peer(net, x), net.wires[1 - x]);
    TakenOwed(net.replicas[x], Step(size, net, Receive(x, now)).replicas[x], Peer(net, x), net.wires[x], net.wires[1 - x], now);
  }

  lemma SendStepOwed(size: FrameSize, net: Net, x: nat)
    requires Enabled(net, Send(x)) && Accounted(net, x)
    ensures Accounted(Step(size, net, Send(x)), x)
  {
    var me, out := net.replicas[x], net.wires[x];
    StepParts(size, net, Send(x));
    StepWires(size, net, Send(x));
    SendKeepsTransit(size, me, out);
    QuietKeepsOwed(me, me.(box := TakeFrame(size, me.box).0), Peer(net, x), out, out + [me.box.frames[0]], net.wires[1 - x]);
  }

  lemma OwnStepOwed(size: FrameSize, net: Net, a: Action)
    requires Enabled(net, a) && !a.Send? && !a.Receive? && Accounted(net, a.x)
    requires Readable(net.replicas[a.x], net.wires[a.x])
    ensures Accounted(Step(size, net, a), a.x)
  {
    var me, peer, out, back := net.replicas[a.x], Peer(net, a.x), net.wires[a.x], net.wires[1 - a.x];
    StepParts(size, net, a);
    StepWires(size, net, a);
    if a.Update? || a.ClearNote? || a.CreateNote? {
      EditStepOwed(size, me, peer, out, back, a);
    } else {
      MoveStepOwed(size, me, peer, out, back, a);
    }
  }

  lemma StepKeepsAccounted(size: FrameSize, net: Net, a: Action)
    requires Enabled(net, a) && Accounted(net, a.x)
    requires Readable(net.replicas[a.x], net.wires[a.x]) && Readable(Peer(net, a.x), net.wires[1 - a.x])
    ensures Accounted(Step(size, net, a), a.x)
  {
    match a
    case Receive(x, now) => ReceiveStepOwed(size, net, x, now);
    case Send(x) => SendStepOwed(size, net, x);
    case _ => OwnStepOwed(size, net, a);
  }

  lemma SidesReadable(net: Net, x: nat)
    requires net.Valid() && x < 2 && BothSides(net, x)
    ensures Readable(net.replicas[x], net.wires[x]) && Readable(Peer(net, x), net.wires[1 - x])
  {
    HonestFrames(net.replicas[x], Peer(net, x), net.wires[x]);
    HonestFrames(Peer(net, x), net.replicas[x], net.wires[1 - x]);
  }

  /** The account, seen from either end. */
  lemma EitherAccount(net: Net, x: nat)
    requires net.Valid() && x < 2
    ensures Accounted(net, 0) <==> Accounted(net, x)
  {
    assert x == 0 || x == 1;
  }

  ghost predicate InvWithAccount(net: Net) {
    Inv(net) && Accounted(net, 0)
  }

  lemma StepKeepsBoth(size: FrameSize, net: Net, a: Action)
    requires InvWithAccount(net) && Enabled(net, a)
    ensures InvWithAccount(Step(size, net, a))
  {
    EitherEnd(net, a.x);
    EitherAccount(net, a.x);
    SidesReadable(net, a.x);
    StepKeepsAccounted(size, net, a);
    StepKeepsInv(size, net, a);
    EitherAccount(Step(size, net, a), a.x);
  }

  lemma {:induction false} RunKeepsAccounted(size: FrameSize, net: Net, actions: seq<Action>)
    requires InvWithAccount(net) && CanRun(size, net, actions)
    ensures InvWithAccount(RunAll(size, net, actions))
    decreases |actions|
  {
    if actions != [] {
      StepKeepsBoth(size, net, actions[0]);
      RunKeepsAccounted(size, Step(size, net, actions[0]), actions[1..]);
    }
  }

  lemma QuietSide(me: Replica, peer: Replica)
    requires Owed(me, peer, [], []) && me.hand == peer.hand == multiset{}
    requires me.box.frames == peer.box.frames == [] && !me.box.stopped && !peer.box.stopped
    ensures Synced(me.ws)
  {
  }

  /**
   Acknowledgements arrive. However edits, sends and receives interleave and whatever coalescing
   dropped, in either direction: once nothing is in transit both sides read as synced.
   */
  lemma QuietMeansSynced(size: FrameSize, writer0: string, writer1: string, actions: seq<Action>)
    requires CanRun(size, InitialNet(writer0, writer1), actions)
    ensures var net := RunAll(size, InitialNet(writer0, writer1), actions);
      net.Valid() && (Quiet(net) ==> Synced(net.replicas[0].ws) && Synced(net.replicas[1].ws))
  {
    InitialInv(writer0, writer1);
    RunKeepsAccounted(size, InitialNet(writer0, writer1), actions);
    var net := RunAll(size, InitialNet(writer0, writer1), actions);
    if Quiet(net) {
      QuietSide(net.replicas[0], net.replicas[1]);
      QuietSide(net.replicas[1], net.replicas[0]);
    }
  }
}
