/**
 Two notepads joined by coalescing outboxes and FIFO channels. Local edits, queueing, sending and
 receiving are separate steps in any interleaving; `hand` holds frames a thread has made but not
 queued yet. `made` remembers every local edit.
 */
module NoteSync {
  import opened Prelude
  import opened NoteProtocol
  import opened NoteWorkspaces
  import opened NoteOutboxes

  datatype Replica = Replica(ws: Workspace, hand: multiset<NoteFrame>, box: Outbox, made: set<NoteFrame>)

  /** Two replicas; wires[x] carries frames from replica x to the other one. */
  datatype Net = Net(replicas: seq<Replica>, wires: seq<seq<NoteFrame>>) {
    ghost predicate Valid() {
      |replicas| == |wires| == 2
    }
  }

  datatype Action =
    | Update(x: nat, text: string, now: nat)
    | ClearNote(x: nat, now: nat)
    | CreateNote(x: nat, number: nat, now: nat)
    | Select(x: nat, pad: string)
    | Queue(x: nat, frame: NoteFrame)
    | Send(x: nat)
    | Receive(x: nat, now: nat)
    | Stop(x: nat)

  function InitialReplica(writer: string): Replica {
    Replica(InitialWorkspace(writer), multiset{}, Outbox([], 0, false), {})
  }

  function InitialNet(writer0: string, writer1: string): Net {
    Net([InitialReplica(writer0), InitialReplica(writer1)], [[], []])
  }

  function WithEdit(r: Replica, ws: Workspace, frame: NoteFrame): Replica {
    r.(ws := ws, hand := r.hand + multiset{frame}, made := r.made + {frame})
  }

  predicate Enabled(net: Net, a: Action) {
    && |net.replicas| == 2 && |net.wires| == 2 && a.x < 2
    && match a
       case CreateNote(x, number, _) => PadName(number) !in net.replicas[x].ws.documents
       case Queue(x, frame) => frame in net.replicas[x].hand
       case Send(x) => !net.replicas[x].box.stopped && net.replicas[x].box.frames != []
       case Receive(x, _) => net.wires[1 - x] != []
       case _ => true
  }

  /** A remote edit is applied and its acknowledgement is ready to be queued. */
  function TakeEdit(r: Replica, frame: NoteFrame, now: nat): Replica {
    if frame.IsEdit() then
      r.(ws := ApplyRemote(r.ws, frame).0, hand := r.hand + multiset{MakeAck(frame.pad, frame.revision, now)})
    else r
  }

  function ReplicaStep(size: FrameSize, r: Replica, incoming: seq<NoteFrame>, a: Action): Replica
    requires a.Send? ==> r.box.frames != []
    requires a.Receive? ==> incoming != []
  {
    match a
    case Update(_, text, now) => (
      var (ws, made) := UpdateActive(r.ws, text, now);
      match made
      case Ok(frame) => WithEdit(r, ws, frame)
      case Err(_) => r.(ws := ws))
    case ClearNote(_, now) =>
      var (ws, frame) := ClearActive(r.ws, now);
      WithEdit(r, ws, frame)
    case CreateNote(_, number, now) =>
      var (ws, frame) := CreatePad(r.ws, number, now);
      WithEdit(r, ws, frame)
    case Select(_, pad) => r.(ws := SelectPad(r.ws, pad).0)
    case Queue(_, frame) => r.(hand := r.hand - multiset{frame}, box := QueueFrame(size, r.box, frame).0)
    case Send(_) => r.(box := TakeFrame(size, r.box).0)
    case Receive(_, now) => (
      var frame := incoming[0];
      if frame.kind.Ack? then r.(ws := Acknowledge(r.ws, frame)) else TakeEdit(r, frame, now))
    case Stop(_) => r.(box := r.box.(stopped := true))
  }

  function Step(size: FrameSize, net: Net, a: Action): Net
    requires Enabled(net, a)
  {
    var me := net.replicas[a.x];
    var replicas := net.replicas[a.x := ReplicaStep(size, me, net.wires[1 - a.x], a)];
    var wires :=
      if a.Send? then net.wires[a.x := net.wires[a.x] + [me.box.frames[0]]]
      else if a.Receive? then net.wires[1 - a.x := net.wires[1 - a.x][1..]]
      else net.wires;
    Net(replicas, wires)
  }

  predicate CanRun(size: FrameSize, net: Net, actions: seq<Action>)
    decreases |actions|
  {
    actions != [] ==> Enabled(net, actions[0]) && CanRun(size, Step(size, net, actions[0]), actions[1..])
  }

  function RunAll(size: FrameSize, net: Net, actions: seq<Action>): Net
    requires CanRun(size, net, actions)
    decreases |actions|
  {
    if actions == [] then net else RunAll(size, Step(size, net, actions[0]), actions[1..])
  }

  // ---------------------------------------------------------------- the invariant, one side at a time

  /** `f` is on its way from a replica to its peer. */
  ghost predicate InTransit(me: Replica, out: seq<NoteFrame>, f: NoteFrame) {
    f in me.hand || f in me.box.frames || f in out
  }

  /** No local edit is above the replica's own version of the pad. */
  ghost predicate OwnEdits(me: Replica) {
    && (forall p :: PadStamp(me.ws, p).revision <= U64_MAX)
    && forall e :: e in me.made ==>
         e.IsEdit() && e.pad != "" && StampLeq(EditStamp(e), PadStamp(me.ws, e.pad))
  }

  /** Each revision of a pad is used once; revision 0 only appears after the counter wrapped. */
  ghost predicate OwnRevisions(me: Replica) {
    && (forall e, f :: e in me.made && f in me.made && e.pad == f.pad && e.revision == f.revision ==>
          e == f || e.revision == 0)
    && (forall e :: e in me.made && e.revision == 0 ==> PadStamp(me.ws, e.pad).revision == U64_MAX)
    && (forall e :: e in me.made ==>
          && e.pad in me.ws.local
          && (me.ws.local[e.pad] == 0 || e.revision <= me.ws.local[e.pad])
          && (me.ws.local[e.pad] == 0 ==> PadStamp(me.ws, e.pad).revision == U64_MAX))
  }

  /** Some edit of `author` with that revision is already contained in `holder`. */
  ghost predicate Contains(holder: Replica, author: Replica, pad: string, revision: nat) {
    exists e :: e in author.made && e.pad == pad && e.revision == revision
             && StampLeq(EditStamp(e), PadStamp(holder.ws, pad))
  }

  /** Frames under way are the replica's own edits, or acknowledgements of edits it already contains. */
  ghost predicate Honest(me: Replica, peer: Replica, out: seq<NoteFrame>) {
    forall f :: InTransit(me, out, f) ==>
      || (f.IsEdit() && f in me.made)
      || (f.kind.Ack? && f.pad != "" && Contains(me, peer, f.pad, f.revision))
  }

  /** Acknowledged revisions are contained in the peer. */
  ghost predicate AcksTrue(me: Replica, peer: Replica) {
    forall p :: p in me.ws.acked ==> Contains(peer, me, p, me.ws.acked[p])
  }

  ghost predicate CarriesUp(me: Replica, out: seq<NoteFrame>, pad: string, stamp: Stamp) {
    exists f :: InTransit(me, out, f) && f.IsEdit() && f.pad == pad && StampLeq(stamp, EditStamp(f))
  }

  /** Whatever the peer lacks is still under way, although coalescing drops frames. */
  ghost predicate Covering(me: Replica, peer: Replica, out: seq<NoteFrame>) {
    !me.box.stopped ==>
      forall p :: StampLeq(PadStamp(me.ws, p), PadStamp(peer.ws, p)) || CarriesUp(me, out, p, PadStamp(me.ws, p))
  }

  /** A version is untouched or is one of the edits made. */
  ghost predicate Authored(me: Replica, peer: Replica) {
    forall p :: PadStamp(me.ws, p) == INITIAL_STAMP
             || exists e :: e in me.made + peer.made && e.pad == p && EditStamp(e) == PadStamp(me.ws, p)
  }

  ghost predicate Side(me: Replica, peer: Replica, out: seq<NoteFrame>) {
    && OwnEdits(me) && OwnRevisions(me) && Honest(me, peer, out) && AcksTrue(me, peer)
    && Covering(me, peer, out) && Authored(me, peer)
  }

  ghost predicate Inv(net: Net) {
    && net.Valid()
    && Side(net.replicas[0], net.replicas[1], net.wires[0])
    && Side(net.replicas[1], net.replicas[0], net.wires[1])
  }

  ghost predicate Grows(before: Workspace, after: Workspace) {
    forall p :: StampLeq(PadStamp(before, p), PadStamp(after, p))
  }

  lemma EditGrows(before: Workspace, after: Workspace, frame: NoteFrame)
    requires AppliesEdit(before, after, frame)
    ensures Grows(before, after)
    ensures StampLeq(EditStamp(frame), PadStamp(after, frame.pad))
  {
    forall p ensures StampLeq(PadStamp(before, p), PadStamp(after, p)) {
      StampTotal(PadStamp(before, p), PadStamp(before, p));
      MaxUpper(EditStamp(frame), PadStamp(before, p));
    }
    MaxUpper(EditStamp(frame), PadStamp(before, frame.pad));
  }

  lemma ContainsMonotone(holder: Replica, holder': Replica, author: Replica, author': Replica, pad: string, revision: nat)
    requires Contains(holder, author, pad, revision)
    requires Grows(holder.ws, holder'.ws) && author.made <= author'.made
    ensures Contains(holder', author', pad, revision)
  {
    var e :| e in author.made && e.pad == pad && e.revision == revision
          && StampLeq(EditStamp(e), PadStamp(holder.ws, pad));
    StampTransitive(EditStamp(e), PadStamp(holder.ws, pad), PadStamp(holder'.ws, pad));
  }

  /** When the peer's versions only go up, what held on this side still holds. */
  lemma PeerGrows(me: Replica, peer: Replica, peer': Replica, out: seq<NoteFrame>)
    requires Side(me, peer, out)
    requires Grows(peer.ws, peer'.ws) && peer.made <= peer'.made
    ensures Side(me, peer', out)
  {
    forall f | InTransit(me, out, f)
      ensures (f.IsEdit() && f in me.made) || (f.kind.Ack? && f.pad != "" && Contains(me, peer', f.pad, f.revision))
    {
      if f.kind.Ack? {
        StampsReflexive(me.ws);
        ContainsMonotone(me, me, peer, peer', f.pad, f.revision);
      }
    }
    forall p | p in me.ws.acked ensures Contains(peer', me, p, me.ws.acked[p]) {
      ContainsMonotone(peer, peer', me, me, p, me.ws.acked[p]);
    }
    forall p ensures StampLeq(PadStamp(me.ws, p), PadStamp(peer.ws, p)) ==>
                     StampLeq(PadStamp(me.ws, p), PadStamp(peer'.ws, p)) {
      if StampLeq(PadStamp(me.ws, p), PadStamp(peer.ws, p)) {
        StampTransitive(PadStamp(me.ws, p), PadStamp(peer.ws, p), PadStamp(peer'.ws, p));
      }
    }
    AuthoredMonotone(me, peer, peer');
  }

  lemma StampsReflexive(w: Workspace)
    ensures Grows(w, w)
  {
    forall p ensures StampLeq(PadStamp(w, p), PadStamp(w, p)) {
      StampTotal(PadStamp(w, p), PadStamp(w, p));
    }
  }

  lemma AuthoredMonotone(me: Replica, peer: Replica, peer': Replica)
    requires Authored(me, peer) && peer.made <= peer'.made
    ensures Authored(me, peer')
  {
    forall p | PadStamp(me.ws, p) != INITIAL_STAMP
      ensures exists e :: e in me.made + peer'.made && e.pad == p && EditStamp(e) == PadStamp(me.ws, p)
    {
      var e :| e in me.made + peer.made && e.pad == p && EditStamp(e) == PadStamp(me.ws, p);
      assert e in me.made + peer'.made;
    }
  }

  // ---------------------------------------------------------------- local edits

  lemma EditKeepsOwnEdits(me: Replica, ws: Workspace, frame: NoteFrame)
    requires OwnEdits(me) && LocalEdit(me.ws, ws, frame)
    ensures OwnEdits(WithEdit(me, ws, frame))
  {
    EditGrows(me.ws, ws, frame);
    forall e | e in me.made ensures StampLeq(EditStamp(e), PadStamp(ws, e.pad)) {
      StampTransitive(EditStamp(e), PadStamp(me.ws, e.pad), PadStamp(ws, e.pad));
    }
  }

  /** The next revision is above every earlier one, unless the counter wraps to 0. */
  lemma EditKeepsOwnRevisions(me: Replica, ws: Workspace, frame: NoteFrame)
    requires OwnEdits(me) && OwnRevisions(me) && LocalEdit(me.ws, ws, frame)
    ensures OwnRevisions(WithEdit(me, ws, frame))
  {
    var pad, top := frame.pad, PadStamp(me.ws, frame.pad).revision;
    assert frame.revision == if top == U64_MAX then 0 else top + 1;
    EditGrows(me.ws, ws, frame);
    assert forall p :: PadStamp(me.ws, p).revision <= PadStamp(ws, p).revision <= U64_MAX by {
      EditKeepsOwnEdits(me, ws, frame);
    }
    assert forall e :: e in me.made && e.pad == pad ==> e.revision <= top;
  }

  lemma EditKeepsHonest(me: Replica, peer: Replica, out: seq<NoteFrame>, ws: Workspace, frame: NoteFrame)
    requires Honest(me, peer, out) && LocalEdit(me.ws, ws, frame)
    ensures Honest(WithEdit(me, ws, frame), peer, out)
  {
    EditGrows(me.ws, ws, frame);
    var me' := WithEdit(me, ws, frame);
    forall f | InTransit(me', out, f)
      ensures (f.IsEdit() && f in me'.made) || (f.kind.Ack? && f.pad != "" && Contains(me', peer, f.pad, f.revision))
    {
      if f != frame {
        assert InTransit(me, out, f);
        if f.kind.Ack? {
          ContainsMonotone(me, me', peer, peer, f.pad, f.revision);
        }
      }
    }
  }

  lemma EditKeepsAcks(me: Replica, peer: Replica, ws: Workspace, frame: NoteFrame)
    requires AcksTrue(me, peer) && LocalEdit(me.ws, ws, frame)
    ensures AcksTrue(WithEdit(me, ws, frame), peer)
  {
    StampsReflexive(peer.ws);
    forall p | p in ws.acked ensures Contains(peer, WithEdit(me, ws, frame), p, ws.acked[p]) {
      ContainsMonotone(peer, peer, me, WithEdit(me, ws, frame), p, ws.acked[p]);
    }
  }

  lemma EditKeepsCovering(me: Replica, peer: Replica, out: seq<NoteFrame>, ws: Workspace, frame: NoteFrame)
    requires Covering(me, peer, out) && LocalEdit(me.ws, ws, frame)
    ensures Covering(WithEdit(me, ws, frame), peer, out)
  {
    var me' := WithEdit(me, ws, frame);
    if !me.box.stopped {
      forall p ensures StampLeq(PadStamp(ws, p), PadStamp(peer.ws, p)) || CarriesUp(me', out, p, PadStamp(ws, p)) {
        if p == frame.pad && PadStamp(ws, p) == EditStamp(frame) {
          StampTotal(EditStamp(frame), EditStamp(frame));
          assert InTransit(me', out, frame);
        } else if !StampLeq(PadStamp(me.ws, p), PadStamp(peer.ws, p)) {
          var f :| InTransit(me, out, f) && f.IsEdit() && f.pad == p && StampLeq(PadStamp(me.ws, p), EditStamp(f));
          assert InTransit(me', out, f);
        }
      }
    }
  }

  lemma EditKeepsAuthored(me: Replica, peer: Replica, ws: Workspace, frame: NoteFrame)
    requires Authored(me, peer) && LocalEdit(me.ws, ws, frame)
    ensures Authored(WithEdit(me, ws, frame), peer)
  {
    var me' := WithEdit(me, ws, frame);
    forall p | PadStamp(ws, p) != INITIAL_STAMP
      ensures exists e :: e in me'.made + peer.made && e.pad == p && EditStamp(e) == PadStamp(ws, p)
    {
      if p == frame.pad && PadStamp(ws, p) == EditStamp(frame) {
        assert frame in me'.made + peer.made;
      } else {
        var e :| e in me.made + peer.made && e.pad == p && EditStamp(e) == PadStamp(me.ws, p);
        assert e in me'.made + peer.made;
      }
    }
  }

  lemma EditKeepsSide(me: Replica, peer: Replica, out: seq<NoteFrame>, ws: Workspace, frame: NoteFrame)
    requires Side(me, peer, out) && LocalEdit(me.ws, ws, frame)
    ensures Side(WithEdit(me, ws, frame), peer, out)
    ensures Grows(me.ws, ws)
  {
    EditGrows(me.ws, ws, frame);
    EditKeepsOwnEdits(me, ws, frame);
    EditKeepsOwnRevisions(me, ws, frame);
    EditKeepsHonest(me, peer, out, ws, frame);
    EditKeepsAcks(me, peer, ws, frame);
    EditKeepsCovering(me, peer, out, ws, frame);
    EditKeepsAuthored(me, peer, ws, frame);
  }

  // ---------------------------------------------------------------- queueing and sending

  /**
   Coalescing only drops frames below the newest: a frame that carries the pad's current version
   survives, whether it is the one queued or the one already waiting.
   */
  lemma CarrierSurvives(size: FrameSize, me: Replica, out: seq<NoteFrame>, frame: NoteFrame, f: NoteFrame)
    requires OwnEdits(me) && OwnRevisions(me)
    requires forall g :: InTransit(me, out, g) && g.IsEdit() ==> g in me.made
    requires frame in me.hand && !QueueFrame(size, me.box, frame).0.stopped
    requires InTransit(me, out, f) && f.IsEdit() && StampLeq(PadStamp(me.ws, f.pad), EditStamp(f))
    ensures InTransit(me.(hand := me.hand - multiset{frame}, box := QueueFrame(size, me.box, frame).0), out, f)
  {
    var before, after := me.box.frames, QueueFrame(size, me.box, frame).0.frames;
    var i := FindQueued(before, frame);
    assert InTransit(me, out, frame);
    if i < |before| {
      assert InTransit(me, out, before[i]);
      assert |after| == |before| && forall j :: 0 <= j < |before| && j != i ==> after[j] == before[j];
      assert after[i] == frame || (after[i] == before[i] && frame.revision < before[i].revision);
    } else {
      assert after == before + [frame];
      assert after[|before|] == frame;
    }
    if f in before {
      var j :| 0 <= j < |before| && before[j] == f;
      assert after[j] == f || j == i;
    }
  }

  lemma QueueKeepsCarrying(size: FrameSize, me: Replica, out: seq<NoteFrame>, frame: NoteFrame, pad: string)
    requires OwnEdits(me) && OwnRevisions(me)
    requires forall f :: InTransit(me, out, f) && f.IsEdit() ==> f in me.made
    requires frame in me.hand && !QueueFrame(size, me.box, frame).0.stopped
    requires CarriesUp(me, out, pad, PadStamp(me.ws, pad))
    ensures var me' := me.(hand := me.hand - multiset{frame}, box := QueueFrame(size, me.box, frame).0);
      CarriesUp(me', out, pad, PadStamp(me.ws, pad))
  {
    var f :| InTransit(me, out, f) && f.IsEdit() && f.pad == pad && StampLeq(PadStamp(me.ws, pad), EditStamp(f));
    CarrierSurvives(size, me, out, frame, f);
  }

  lemma QueueTransit(size: FrameSize, me: Replica, out: seq<NoteFrame>, frame: NoteFrame, f: NoteFrame)
    requires frame in me.hand
    requires InTransit(me.(hand := me.hand - multiset{frame}, box := QueueFrame(size, me.box, frame).0), out, f)
    ensures InTransit(me, out, f)
  {
  }

  lemma QueueKeepsSide(size: FrameSize, me: Replica, peer: Replica, out: seq<NoteFrame>, frame: NoteFrame)
    requires Side(me, peer, out) && frame in me.hand
    ensures Side(me.(hand := me.hand - multiset{frame}, box := QueueFrame(size, me.box, frame).0), peer, out)
  {
    var me' := me.(hand := me.hand - multiset{frame}, box := QueueFrame(size, me.box, frame).0);
    forall f | InTransit(me', out, f)
      ensures (f.IsEdit() && f in me.made) || (f.kind.Ack? && f.pad != "" && Contains(me', peer, f.pad, f.revision))
    {
      QueueTransit(size, me, out, frame, f);
      if f.kind.Ack? {
        StampsReflexive(me.ws);
        ContainsMonotone(me, me', peer, peer, f.pad, f.revision);
      }
    }
    SameMadeKeepsRest(me, me', peer);
    if !me'.box.stopped {
      forall p | !StampLeq(PadStamp(me.ws, p), PadStamp(peer.ws, p)) ensures CarriesUp(me', out, p, PadStamp(me.ws, p)) {
        QueueKeepsCarrying(size, me, out, frame, p);
      }
    }
  }

  ghost predicate SameVersions(before: Workspace, after: Workspace) {
    && (forall p :: PadStamp(after, p) == PadStamp(before, p))
    && after.local == before.local && after.acked == before.acked
  }

  /** Moving frames about does not touch versions, edits or acknowledged revisions. */
  lemma SameMadeKeepsRest(me: Replica, me': Replica, peer: Replica)
    requires SameVersions(me.ws, me'.ws) && me'.made == me.made
    requires OwnEdits(me) && OwnRevisions(me) && AcksTrue(me, peer) && Authored(me, peer)
    ensures OwnEdits(me') && OwnRevisions(me') && AcksTrue(me', peer) && Authored(me', peer)
  {
    StampsReflexive(peer.ws);
    forall p | p in me.ws.acked ensures Contains(peer, me', p, me.ws.acked[p]) {
      ContainsMonotone(peer, peer, me, me', p, me.ws.acked[p]);
    }
  }

  /** Relocating frames without losing any keeps the side. */
  lemma MoveKeepsSide(me: Replica, me': Replica, peer: Replica, out: seq<NoteFrame>, out': seq<NoteFrame>)
    requires Side(me, peer, out)
    requires SameVersions(me.ws, me'.ws) && me'.made == me.made && (me.box.stopped ==> me'.box.stopped)
    requires forall f :: InTransit(me, out, f) <==> InTransit(me', out', f)
    ensures Side(me', peer, out')
  {
    SameMadeKeepsRest(me, me', peer);
    forall f | InTransit(me', out', f)
      ensures (f.IsEdit() && f in me.made) || (f.kind.Ack? && f.pad != "" && Contains(me', peer, f.pad, f.revision))
    {
      if f.kind.Ack? {
        StampsReflexive(me.ws);
        ContainsMonotone(me, me', peer, peer, f.pad, f.revision);
      }
    }
    if !me'.box.stopped {
      forall p | !StampLeq(PadStamp(me.ws, p), PadStamp(peer.ws, p))
        ensures CarriesUp(me', out', p, PadStamp(me.ws, p))
      {
        var f :| InTransit(me, out, f) && f.IsEdit() && f.pad == p && StampLeq(PadStamp(me.ws, p), EditStamp(f));
        assert InTransit(me', out', f);
      }
    }
  }

  // ---------------------------------------------------------------- receiving

  /** Receiving a peer's edit: this side keeps its promises and owes an acknowledgement. */
  lemma ReceiveEditKeepsSide(me: Replica, peer: Replica, out: seq<NoteFrame>, ws: Workspace, frame: NoteFrame, now: nat)
    requires Side(me, peer, out) && OwnEdits(peer)
    requires frame in peer.made && AppliesEdit(me.ws, ws, frame)
    requires ws.local == me.ws.local && ws.acked == me.ws.acked
    ensures Grows(me.ws, ws)
    ensures Side(me.(ws := ws, hand := me.hand + multiset{MakeAck(frame.pad, frame.revision, now)}), peer, out)
  {
    EditGrows(me.ws, ws, frame);
    var ack := MakeAck(frame.pad, frame.revision, now);
    var me' := me.(ws := ws, hand := me.hand + multiset{ack});
    forall e | e in me.made ensures StampLeq(EditStamp(e), PadStamp(ws, e.pad)) {
      StampTransitive(EditStamp(e), PadStamp(me.ws, e.pad), PadStamp(ws, e.pad));
    }
    ReceivedOwn(me, peer, ws, frame);
    assert Contains(me', peer, frame.pad, frame.revision);
    forall f | InTransit(me', out, f)
      ensures (f.IsEdit() && f in me'.made) || (f.kind.Ack? && f.pad != "" && Contains(me', peer, f.pad, f.revision))
    {
      if f != ack {
        assert InTransit(me, out, f);
        if f.kind.Ack? {
          ContainsMonotone(me, me', peer, peer, f.pad, f.revision);
        }
      }
    }
    ReceivedAcks(me, me', peer);
    ReceivedCovering(me, me', peer, out, frame);
    ReceivedAuthored(me, me', peer, frame);
  }

  lemma ReceivedOwn(me: Replica, peer: Replica, ws: Workspace, frame: NoteFrame)
    requires OwnEdits(me) && OwnRevisions(me) && OwnEdits(peer) && frame in peer.made
    requires AppliesEdit(me.ws, ws, frame)
    ensures forall p :: PadStamp(ws, p).revision <= U64_MAX
    ensures forall p :: PadStamp(me.ws, p).revision <= PadStamp(ws, p).revision
  {
    EditGrows(me.ws, ws, frame);
    assert frame.revision <= PadStamp(peer.ws, frame.pad).revision;
  }

  lemma ReceivedAcks(me: Replica, me': Replica, peer: Replica)
    requires AcksTrue(me, peer) && me'.ws.acked == me.ws.acked && me'.made == me.made
    ensures AcksTrue(me', peer)
  {
    StampsReflexive(peer.ws);
    forall p | p in me.ws.acked ensures Contains(peer, me', p, me.ws.acked[p]) {
      ContainsMonotone(peer, peer, me, me', p, me.ws.acked[p]);
    }
  }

  lemma ReceivedCovering(me: Replica, me': Replica, peer: Replica, out: seq<NoteFrame>, frame: NoteFrame)
    requires Covering(me, peer, out) && OwnEdits(peer) && frame in peer.made
    requires AppliesEdit(me.ws, me'.ws, frame) && me.hand <= me'.hand && me'.box == me.box
    ensures Covering(me', peer, out)
  {
    if !me.box.stopped {
      forall p ensures StampLeq(PadStamp(me'.ws, p), PadStamp(peer.ws, p)) || CarriesUp(me', out, p, PadStamp(me'.ws, p)) {
        if p == frame.pad && PadStamp(me'.ws, p) == EditStamp(frame) {
          assert StampLeq(EditStamp(frame), PadStamp(peer.ws, p));
        } else if !StampLeq(PadStamp(me.ws, p), PadStamp(peer.ws, p)) {
          var f :| InTransit(me, out, f) && f.IsEdit() && f.pad == p && StampLeq(PadStamp(me.ws, p), EditStamp(f));
          assert InTransit(me', out, f);
        }
      }
    }
  }

  lemma ReceivedAuthored(me: Replica, me': Replica, peer: Replica, frame: NoteFrame)
    requires Authored(me, peer) && frame in peer.made && me'.made == me.made
    requires AppliesEdit(me.ws, me'.ws, frame)
    ensures Authored(me', peer)
  {
    forall p | PadStamp(me'.ws, p) != INITIAL_STAMP
      ensures exists e :: e in me'.made + peer.made && e.pad == p && EditStamp(e) == PadStamp(me'.ws, p)
    {
      if p == frame.pad && PadStamp(me'.ws, p) == EditStamp(frame) {
        assert frame in me'.made + peer.made;
      } else {
        var e :| e in me.made + peer.made && e.pad == p && EditStamp(e) == PadStamp(me.ws, p);
        assert e in me'.made + peer.made;
      }
    }
  }

  /** The other side after its edit has been taken off the wire and applied. */
  lemma DeliveryKeepsSender(me: Replica, peer: Replica, peer': Replica, out: seq<NoteFrame>)
    requires Side(me, peer, out) && out != []
    requires peer'.made == peer.made
    requires Grows(peer.ws, peer'.ws)
    requires out[0].IsEdit() ==> StampLeq(EditStamp(out[0]), PadStamp(peer'.ws, out[0].pad))
    ensures Side(me, peer', out[1..])
  {
    PeerGrows(me, peer, peer', out);
    assert out == [out[0]] + out[1..];
    assert forall f :: InTransit(me, out[1..], f) ==> InTransit(me, out, f);
    if !me.box.stopped {
      forall p | !StampLeq(PadStamp(me.ws, p), PadStamp(peer'.ws, p))
        ensures CarriesUp(me, out[1..], p, PadStamp(me.ws, p))
      {
        var f :| InTransit(me, out, f) && f.IsEdit() && f.pad == p && StampLeq(PadStamp(me.ws, p), EditStamp(f));
        if f == out[0] {
          StampTransitive(PadStamp(me.ws, p), EditStamp(f), PadStamp(peer'.ws, p));
        }
        assert InTransit(me, out[1..], f);
      }
    }
  }

  /** Taking in an acknowledgement. */
  lemma ReceiveAckKeepsSide(me: Replica, peer: Replica, out: seq<NoteFrame>, frame: NoteFrame)
    requires Side(me, peer, out) && frame.kind.Ack? && frame.pad != ""
    requires Contains(peer, me, frame.pad, frame.revision)
    ensures Side(me.(ws := Acknowledge(me.ws, frame)), peer, out)
    ensures Grows(me.ws, Acknowledge(me.ws, frame))
  {
    var me' := me.(ws := Acknowledge(me.ws, frame));
    assert forall p :: PadStamp(me'.ws, p) == PadStamp(me.ws, p);
    StampsReflexive(me.ws);
    forall f | InTransit(me', out, f)
      ensures (f.IsEdit() && f in me.made) || (f.kind.Ack? && f.pad != "" && Contains(me', peer, f.pad, f.revision))
    {
      assert InTransit(me, out, f);
      if f.kind.Ack? {
        ContainsMonotone(me, me', peer, peer, f.pad, f.revision);
      }
    }
    StampsReflexive(peer.ws);
    forall p | p in me'.ws.acked ensures Contains(peer, me', p, me'.ws.acked[p]) {
      if p == frame.pad && me'.ws.acked[p] == frame.revision {
        ContainsMonotone(peer, peer, me, me', p, frame.revision);
      } else {
        ContainsMonotone(peer, peer, me, me', p, me.ws.acked[p]);
      }
    }
    if !me.box.stopped {
      forall p | !StampLeq(PadStamp(me.ws, p), PadStamp(peer.ws, p)) ensures CarriesUp(me', out, p, PadStamp(me.ws, p)) {
        var f :| InTransit(me, out, f) && f.IsEdit() && f.pad == p && StampLeq(PadStamp(me.ws, p), EditStamp(f));
        assert InTransit(me', out, f);
      }
    }
    AuthoredSame(me, me', peer);
  }

  lemma AuthoredSame(me: Replica, me': Replica, peer: Replica)
    requires Authored(me, peer) && me'.made == me.made
    requires forall p :: PadStamp(me'.ws, p) == PadStamp(me.ws, p)
    ensures Authored(me', peer)
  {
  }

  // ---------------------------------------------------------------- every step, every run

  ghost function Peer(net: Net, x: nat): Replica
    requires net.Valid() && x < 2
  {
    net.replicas[1 - x]
  }

  ghost predicate BothSides(net: Net, x: nat)
    requires net.Valid() && x < 2
  {
    Side(net.replicas[x], Peer(net, x), net.wires[x]) && Side(Peer(net, x), net.replicas[x], net.wires[1 - x])
  }

  lemma LocalStep(size: FrameSize, net: Net, a: Action)
    requires Enabled(net, a) && BothSides(net, a.x)
    requires a.Update? || a.ClearNote? || a.CreateNote?
    ensures BothSides(Step(size, net, a), a.x)
  {
    var me, peer, out, back := net.replicas[a.x], Peer(net, a.x), net.wires[a.x], net.wires[1 - a.x];
    var me' := Step(size, net, a).replicas[a.x];
    match a {
      case Update(_, text, now) =>
        UpdateIsLocalEdit(me.ws, text, now);
        var (ws, r) := UpdateActive(me.ws, text, now);
        if r.Ok? {
          EditKeepsSide(me, peer, out, ws, r.value);
        } else {
          MoveKeepsSide(me, me', peer, out, out);
          StampsReflexive(me.ws);
        }
      case ClearNote(_, now) =>
        ClearIsLocalEdit(me.ws, now);
        EditKeepsSide(me, peer, out, ClearActive(me.ws, now).0, ClearActive(me.ws, now).1);
      case CreateNote(_, number, now) =>
        CreateIsLocalEdit(me.ws, number, now);
        EditKeepsSide(me, peer, out, CreatePad(me.ws, number, now).0, CreatePad(me.ws, number, now).1);
    }
    PeerGrows(peer, me, me', back);
  }

  lemma SendMoves(size: FrameSize, me: Replica, peer: Replica, out: seq<NoteFrame>)
    requires Side(me, peer, out) && me.box.frames != []
    ensures Side(me.(box := TakeFrame(size, me.box).0), peer, out + [me.box.frames[0]])
  {
    var me' := me.(box := TakeFrame(size, me.box).0);
    StampsReflexive(me.ws);
    assert me.box.frames == [me.box.frames[0]] + me'.box.frames;
    MoveKeepsSide(me, me', peer, out, out + [me.box.frames[0]]);
  }

  /** Selecting a pad and stopping touch neither versions nor frames. */
  lemma QuietMoves(me: Replica, me': Replica, peer: Replica, out: seq<NoteFrame>)
    requires Side(me, peer, out)
    requires (exists pad :: me' == me.(ws := SelectPad(me.ws, pad).0)) || me' == me.(box := me.box.(stopped := true))
    ensures Side(me', peer, out) && Grows(me.ws, me'.ws)
  {
    StampsReflexive(me.ws);
    MoveKeepsSide(me, me', peer, out, out);
  }

  lemma MoveStep(size: FrameSize, net: Net, a: Action)
    requires Enabled(net, a) && BothSides(net, a.x)
    requires a.Select? || a.Queue? || a.Send? || a.Stop?
    ensures BothSides(Step(size, net, a), a.x)
  {
    var me, peer, out, back := net.replicas[a.x], Peer(net, a.x), net.wires[a.x], net.wires[1 - a.x];
    var me' := Step(size, net, a).replicas[a.x];
    StampsReflexive(me.ws);
    PeerGrows(peer, me, me', back);
    if a.Queue? {
      QueueKeepsSide(size, me, peer, out, a.frame);
    } else if a.Send? {
      SendMoves(size, me, peer, out);
    } else {
      QuietMoves(me, me', peer, out);
    }
  }

  /** Both replicas after one of them took the first frame off the wire between them. */
  lemma AckTaken(me: Replica, peer: Replica, out: seq<NoteFrame>, back: seq<NoteFrame>)
    requires Side(me, peer, out) && Side(peer, me, back) && back != [] && back[0].kind.Ack?
    ensures var me' := me.(ws := Acknowledge(me.ws, back[0]));
      Side(me', peer, out) && Side(peer, me', back[1..])
  {
    assert InTransit(peer, back, back[0]);
    ReceiveAckKeepsSide(me, peer, out, back[0]);
    DeliveryKeepsSender(peer, me, me.(ws := Acknowledge(me.ws, back[0])), back);
  }

  lemma EditTaken(me: Replica, me': Replica, peer: Replica, out: seq<NoteFrame>, back: seq<NoteFrame>, now: nat)
    requires Side(me, peer, out) && Side(peer, me, back) && back != [] && !back[0].kind.Ack?
    requires me' == TakeEdit(me, back[0], now)
    ensures Side(me', peer, out) && Side(peer, me', back[1..])
  {
    var frame := back[0];
    assert InTransit(peer, back, frame);
    RemoteAppliesEdit(me.ws, frame);
    ReceiveEditKeepsSide(me, peer, out, ApplyRemote(me.ws, frame).0, frame, now);
    EditGrows(me.ws, ApplyRemote(me.ws, frame).0, frame);
    DeliveryKeepsSender(peer, me, me', back);
  }

  lemma ReceiveParts(size: FrameSize, net: Net, x: nat, now: nat)
    requires Enabled(net, Receive(x, now))
    ensures var next, me, frame := Step(size, net, Receive(x, now)), net.replicas[x], net.wires[1 - x][0];
      && next.Valid() && Peer(next, x) == Peer(net, x)
      && next.wires[x] == net.wires[x] && next.wires[1 - x] == net.wires[1 - x][1..]
      && next.replicas[x] == if frame.kind.Ack? then me.(ws := Acknowledge(me.ws, frame)) else TakeEdit(me, frame, now)
  {
  }

  lemma ReceiveStep(size: FrameSize, net: Net, x: nat, now: nat)
    requires Enabled(net, Receive(x, now)) && BothSides(net, x)
    ensures BothSides(Step(size, net, Receive(x, now)), x)
  {
    var me, peer, out, back := net.replicas[x], Peer(net, x), net.wires[x], net.wires[1 - x];
    ReceiveParts(size, net, x, now);
    if back[0].kind.Ack? {
      AckTaken(me, peer, out, back);
    } else {
      EditTaken(me, TakeEdit(me, back[0], now), peer, out, back, now);
    }
  }

  lemma SidesStep(size: FrameSize, net: Net, a: Action)
    requires Enabled(net, a) && BothSides(net, a.x)
    ensures BothSides(Step(size, net, a), a.x)
  {
    if a.Receive? {
      ReceiveStep(size, net, a.x, a.now);
    } else if a.Update? || a.ClearNote? || a.CreateNote? {
      LocalStep(size, net, a);
    } else {
      MoveStep(size, net, a);
    }
  }

  /** The two sides of a net, seen from either end. */
  lemma EitherEnd(net: Net, x: nat)
    requires net.Valid() && x < 2
    ensures Inv(net) <==> BothSides(net, x)
  {
    assert x == 0 || x == 1;
  }

  lemma StepKeepsInv(size: FrameSize, net: Net, a: Action)
    requires Inv(net) && Enabled(net, a)
    ensures Inv(Step(size, net, a))
  {
    EitherEnd(net, a.x);
    SidesStep(size, net, a);
    EitherEnd(Step(size, net, a), a.x);
  }

  lemma InitialInv(writer0: string, writer1: string)
    ensures Inv(InitialNet(writer0, writer1))
  {
    StampTotal(INITIAL_STAMP, INITIAL_STAMP);
  }

  lemma {:induction false} RunKeepsInv(size: FrameSize, net: Net, actions: seq<Action>)
    requires Inv(net) && CanRun(size, net, actions)
    ensures Inv(RunAll(size, net, actions))
    decreases |actions|
  {
    if actions != [] {
      StepKeepsInv(size, net, actions[0]);
      RunKeepsInv(size, Step(size, net, actions[0]), actions[1..]);
    }
  }

  /** Nothing waiting anywhere, and neither session has stopped. */
  ghost predicate Quiet(net: Net)
    requires net.Valid()
  {
    forall x :: 0 <= x < 2 ==>
      && net.replicas[x].hand == multiset{} && net.replicas[x].box.frames == [] && !net.replicas[x].box.stopped
      && net.wires[x] == []
  }

  lemma QuietSidesAgree(a: Replica, b: Replica, pad: string)
    requires Side(a, b, []) && Side(b, a, [])
    requires a.hand == b.hand == multiset{} && a.box.frames == b.box.frames == []
    requires !a.box.stopped && !b.box.stopped
    ensures PadStamp(a.ws, pad) == PadStamp(b.ws, pad)
  {
    StampAntisymmetric(PadStamp(a.ws, pad), PadStamp(b.ws, pad));
  }

  /**
   Convergence. However edits, sends and receives interleave and whatever coalescing dropped: once
   nothing is in transit both sides hold the same version of every pad, it is at or above every
   edit ever made to that pad, and it is one of them (or the untouched pad).
   */
  lemma Convergence(size: FrameSize, writer0: string, writer1: string, actions: seq<Action>, pad: string)
    requires CanRun(size, InitialNet(writer0, writer1), actions)
    ensures var net := RunAll(size, InitialNet(writer0, writer1), actions);
      net.Valid() && (Quiet(net) ==>
        var stamp := PadStamp(net.replicas[0].ws, pad);
        var edits := net.replicas[0].made + net.replicas[1].made;
        && PadStamp(net.replicas[1].ws, pad) == stamp
        && (forall e :: e in edits && e.pad == pad ==> StampLeq(EditStamp(e), stamp))
        && (stamp == INITIAL_STAMP || exists e :: e in edits && e.pad == pad && EditStamp(e) == stamp))
  {
    InitialInv(writer0, writer1);
    RunKeepsInv(size, InitialNet(writer0, writer1), actions);
    var net := RunAll(size, InitialNet(writer0, writer1), actions);
    if Quiet(net) {
      QuietSidesAgree(net.replicas[0], net.replicas[1], pad);
    }
  }

  /** Every local edit, on pads whose revision counter has not wrapped, is contained in the peer. */
  ghost predicate Delivered(me: Replica, peer: Replica) {
    forall e :: e in me.made && e.pad in me.ws.local && me.ws.local[e.pad] > 0 ==>
      StampLeq(EditStamp(e), PadStamp(peer.ws, e.pad))
  }

  lemma SyncedSide(me: Replica, peer: Replica)
    requires OwnRevisions(me) && AcksTrue(me, peer) && Synced(me.ws)
    ensures Delivered(me, peer)
  {
    forall e | e in me.made && e.pad in me.ws.local && me.ws.local[e.pad] > 0
      ensures StampLeq(EditStamp(e), PadStamp(peer.ws, e.pad))
    {
      AckedMeansContained(me, peer, e);
    }
  }

  /**
   What the synced indicator means. While no local edit was made on an exhausted revision counter,
   `synced` implies that the peer's version of each locally edited pad is at or above every local
   edit, in every reachable state, with frames and acknowledgements still under way.
   */
  lemma SyncedMeansDelivered(size: FrameSize, writer0: string, writer1: string, actions: seq<Action>, x: nat)
    requires x < 2 && CanRun(size, InitialNet(writer0, writer1), actions)
    ensures var net := RunAll(size, InitialNet(writer0, writer1), actions);
      net.Valid() && (Synced(net.replicas[x].ws) ==> Delivered(net.replicas[x], Peer(net, x)))
  {
    InitialInv(writer0, writer1);
    RunKeepsInv(size, InitialNet(writer0, writer1), actions);
    var net := RunAll(size, InitialNet(writer0, writer1), actions);
    EitherEnd(net, x);
    if Synced(net.replicas[x].ws) {
      SyncedSide(net.replicas[x], Peer(net, x));
    }
  }

  lemma AckedMeansContained(me: Replica, peer: Replica, e: NoteFrame)
    requires OwnRevisions(me) && AcksTrue(me, peer) && e in me.made
    requires e.pad in me.ws.acked && 0 < me.ws.local[e.pad] <= me.ws.acked[e.pad]
    ensures StampLeq(EditStamp(e), PadStamp(peer.ws, e.pad))
  {
    var r := me.ws.acked[e.pad];
    var f :| f in me.made && f.pad == e.pad && f.revision == r && StampLeq(EditStamp(f), PadStamp(peer.ws, e.pad));
    assert e.revision <= me.ws.local[e.pad] <= f.revision;
    assert e.revision == f.revision ==> e == f;
    StampTotal(EditStamp(e), EditStamp(e));
    StampTransitive(EditStamp(e), EditStamp(f), PadStamp(peer.ws, e.pad));
  }
}
