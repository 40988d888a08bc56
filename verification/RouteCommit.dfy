/**
 Route commit between two peers and the relay that pairs them. Each peer runs
 race_transfer_route / select_transfer_route, the relay runs the decision part of handle_client;
 the four directions are FIFO queues that may close, and timeouts may strike at any moment.
 */
module RouteCommit {
  import opened Prelude
  import opened RelayRouteState

  datatype Path = DirectPath | RelayPath

  datatype Phase =
    | Init
    | Probing
    | Probed(direct: bool)
    | AwaitDirect
    | AwaitRelay
    | Selected(path: Path)
    | Failed

  /**
   One peer and its two queues at the relay. `said` is every control frame it sent; the relay has
   read `seen` of them, and then perhaps found the connection `broken`: it reads nothing more
   from there. `told`: the relay has sent
   its verdict; `answered`: the peer has read it.
   */
  datatype End = End(phase: Phase, said: seq<Message>, up: seq<Message>, closed: bool, down: seq<Message>,
                     seen: nat, broken: bool, choice: Choice, told: bool, answered: bool)

  datatype Relay =
    | ReadFirst
    | ReadSecond
    | Deciding
    | Telling(decision: Decision)
    | Bridging(decision: Decision)
    | Over(decision: Decision)

  datatype System = System(ends: seq<End>, relay: Relay)

  function InitialSystem(): System {
    var end := End(Init, [], [], false, [], 0, false, Waiting, false, false);
    System([end, end], ReadFirst)
  }

  datatype Action =
    // a peer
    | SkipDirect(x: nat)
    | StartProbe(x: nat)
    | EndProbe(x: nat, direct: bool)
    | Confirm(x: nat)
    | ReadVerdict(x: nat)
    | Stream(x: nat)
    | Fail(x: nat)
    // the relay
    | PollNothing
    | PollMessage
    | PollClosed
    | Decide
    | Deadline
    | Cancel
    | Tell(x: nat)
    | TellFails
    | Forward(x: nat)

  /** The connection the relay polls in a reading phase. */
  function Polled(relay: Relay): nat {
    if relay.ReadFirst? then 0 else 1
  }

  predicate IsFinal(phase: Phase) {
    phase.Selected? || phase.Failed?
  }

  predicate Enabled(s: System, a: Action) {
    && |s.ends| == 2
    && match a
       case SkipDirect(x) => x < 2 && s.ends[x].phase.Init?
       case StartProbe(x) => x < 2 && s.ends[x].phase.Init?
       case EndProbe(x, _) => x < 2 && s.ends[x].phase.Probing?
       case Confirm(x) => x < 2 && s.ends[x].phase.Probed?
       case ReadVerdict(x) =>
         x < 2 && s.ends[x].down != [] && !IsFinal(s.ends[x].phase) && !s.ends[x].phase.Init?
       case Stream(x) => x < 2 && s.ends[x].phase == Selected(RelayPath)
       case Fail(x) => x < 2 && !IsFinal(s.ends[x].phase)
       case PollNothing => s.relay.ReadFirst? || s.relay.ReadSecond?
       case PollMessage =>
         && (s.relay.ReadFirst? || s.relay.ReadSecond?)
         && s.ends[Polled(s.relay)].up != [] && !s.ends[Polled(s.relay)].broken
       case PollClosed => s.relay.ReadFirst? || s.relay.ReadSecond?
       case Decide => s.relay.Deciding?
       case Deadline => s.relay.ReadFirst?
       case Cancel => s.relay.ReadFirst?
       case Tell(x) =>
         && s.relay.Telling? && x < 2 && !s.ends[x].told
         && (x == 1 ==> s.ends[0].told || PathOf(s.relay.decision).None?)
       case TellFails => s.relay.Telling?
       case Forward(x) => s.relay.Bridging? && x < 2 && s.ends[x].up != []
  }

  /** What the relay sends once it has decided; an undecided deadline ends like a rejection. */
  function Verdict(decision: Decision): Message {
    match decision
    case GoDirect => DirectStart
    case GoRelay(reason) => RelayStart(reason)
    case _ => DoneMessage
  }

  /** The path a decision stands for. */
  function PathOf(decision: Decision): Option<Path> {
    match decision
    case GoDirect => Some(DirectPath)
    case GoRelay(_) => Some(RelayPath)
    case _ => None
  }

  /** How a peer takes a frame from the relay. */
  function PhaseAfter(phase: Phase, message: Message): Phase {
    match message
    case RelayStart(_) => Selected(RelayPath)
    case DirectStart => if phase.AwaitDirect? then Selected(DirectPath) else Failed
    case _ => Failed
  }

  function Say(end: End, message: Message, phase: Phase): End {
    end.(said := end.said + [message], up := end.up + [message], phase := phase)
  }

  function PeerStep(end: End, a: Action): End
    requires a.ReadVerdict? ==> end.down != []
  {
    match a
    case SkipDirect(_) => Say(end, RelayReady, AwaitRelay)
    case StartProbe(_) => Say(end, RelayStandby, Probing)
    case EndProbe(_, direct) => end.(phase := Probed(direct))
    case Confirm(_) =>
      if end.phase == Probed(true) then Say(end, DirectOk, AwaitDirect) else Say(end, RelayReady, AwaitRelay)
    case ReadVerdict(_) =>
      end.(phase := PhaseAfter(end.phase, end.down[0]), down := end.down[1..], answered := true)
    case Stream(_) => end.(up := end.up + [Payload])
    case _ => end.(phase := Failed, closed := true)
  }

  function ReadOne(end: End): End
    requires end.up != []
  {
    end.(up := end.up[1..], seen := end.seen + 1, choice := Merge(end.choice, ChoiceFrom(end.up[0])))
  }

  function ReadClosed(end: End): End {
    end.(broken := true, choice := Merge(end.choice, Invalid))
  }

  function TellEnd(end: End, decision: Decision): End {
    end.(down := end.down + [Verdict(decision)], told := true)
  }

  function Poll(s: System, end: End): System
    requires |s.ends| == 2
  {
    System(s.ends[Polled(s.relay) := end], if s.relay.ReadFirst? then ReadSecond else Deciding)
  }

  function Step(s: System, a: Action): System
    requires Enabled(s, a)
  {
    match a
    case PollNothing => Poll(s, s.ends[Polled(s.relay)])
    case PollMessage => Poll(s, ReadOne(s.ends[Polled(s.relay)]))
    case PollClosed => Poll(s, ReadClosed(s.ends[Polled(s.relay)]))
    case Decide =>
      var decision := DecisionFor(s.ends[0].choice, s.ends[1].choice, false);
      s.(relay := if decision == Pending then ReadFirst else Telling(decision))
    case Deadline => s.(relay := Telling(DecisionFor(s.ends[0].choice, s.ends[1].choice, true)))
    case Cancel => s.(relay := Telling(Reject))
    case Tell(x) =>
      var end := s.ends[x];
      System(s.ends[x := TellEnd(end, s.relay.decision)],
             if x == 0 then s.relay
             else if s.relay.decision.GoRelay? then Bridging(s.relay.decision)
             else Over(s.relay.decision))
    case TellFails => s.(relay := Over(s.relay.decision))
    case Forward(x) =>
      var from, to := s.ends[x], s.ends[1 - x];
      s.(ends := s.ends[x := from.(up := from.up[1..])][1 - x := to.(down := to.down + [from.up[0]])])
    case _ => s.(ends := s.ends[a.x := PeerStep(s.ends[a.x], a)])
  }

  predicate CanRun(s: System, actions: seq<Action>)
    decreases |actions|
  {
    actions != [] ==> Enabled(s, actions[0]) && CanRun(Step(s, actions[0]), actions[1..])
  }

  function RunAll(s: System, actions: seq<Action>): System
    requires CanRun(s, actions)
    decreases |actions|
  {
    if actions == [] then s else RunAll(Step(s, actions[0]), actions[1..])
  }

  // ---------------------------------------------------------------- the invariant

  predicate Started(relay: Relay) {
    relay.Telling? || relay.Bridging? || relay.Over?
  }

  /** Every list of control frames a peer ever sends. */
  predicate Sayable(said: seq<Message>) {
    || said == [] || said == [RelayStandby] || said == [RelayReady]
    || said == [RelayStandby, DirectOk] || said == [RelayStandby, RelayReady]
  }

  /** The control frames a peer can have sent, by where it is. */
  predicate SaidFits(phase: Phase, said: seq<Message>) {
    match phase
    case Init => said == []
    case Probing => said == [RelayStandby]
    case Probed(_) => said == [RelayStandby]
    case AwaitDirect => said == [RelayStandby, DirectOk]
    case AwaitRelay => said == [RelayReady] || said == [RelayStandby, RelayReady]
    case Selected(DirectPath) => said == [RelayStandby, DirectOk]
    case _ => Sayable(said)
  }

  /** What the relay has read from this peer, as events. */
  function Events(end: End): (events: seq<Choice>)
    requires end.seen <= |end.said|
    ensures Waiting !in events
  {
    seq(end.seen, i requires 0 <= i < end.seen => ChoiceFrom(end.said[i])) + if end.broken then [Invalid] else []
  }

  /** Until the streams are bridged, a queue holds the unread control frames and then only payload. */
  predicate UpFits(end: End) {
    && end.seen <= |end.said|
    && |end.said| - end.seen <= |end.up|
    && end.up[..|end.said| - end.seen] == end.said[end.seen..]
    && (end.phase != Selected(RelayPath) ==> |end.up| == |end.said| - end.seen)
  }

  /** A verdict stays at the head of the queue until it is read, and a selection obeys it. */
  predicate DownFits(end: End, relay: Relay) {
    && (end.told ==> Started(relay))
    && (!end.told ==> end.down == [] && !end.answered)
    && (end.told && !end.answered ==> end.down != [] && end.down[0] == Verdict(relay.decision))
    && (end.answered ==> IsFinal(end.phase))
    && (end.phase.Selected? ==> end.answered && PathOf(relay.decision) == Some(end.phase.path))
  }

  ghost predicate EndInv(end: End, relay: Relay) {
    && SaidFits(end.phase, end.said)
    && end.seen <= |end.said|
    && (!relay.Bridging? && !relay.Over? ==> UpFits(end))
    && end.choice == MergeAll(Events(end))
    && DownFits(end, relay)
  }

  /** The decision the relay announces is one its two choices justify. */
  predicate DecisionFits(first: Choice, second: Choice, decision: Decision) {
    && (decision == GoDirect ==> first == ChoseDirect && second == ChoseDirect)
    && (decision.GoRelay? ==>
          && HasPresence(first) && HasPresence(second)
          && !(first == ChoseDirect && second == ChoseDirect))
  }

  ghost predicate Inv(s: System) {
    && |s.ends| == 2
    && EndInv(s.ends[0], s.relay) && EndInv(s.ends[1], s.relay)
    && (Started(s.relay) ==> DecisionFits(s.ends[0].choice, s.ends[1].choice, s.relay.decision))
    && (s.relay.Bridging? ==> s.ends[0].told && s.ends[1].told && s.relay.decision.GoRelay?)
  }

  lemma InitialInv()
    ensures Inv(InitialSystem())
  {
  }

  // ---------------------------------------------------------------- one peer's step

  predicate IsPeerAction(a: Action) {
    a.SkipDirect? || a.StartProbe? || a.EndProbe? || a.Confirm? || a.ReadVerdict? || a.Stream? || a.Fail?
  }

  lemma EventsSame(end: End, next: End)
    requires end.seen <= |end.said| && end.said <= next.said && next.seen == end.seen && next.broken == end.broken
    ensures Events(next) == Events(end)
  {
  }

  lemma UpSay(end: End, message: Message, phase: Phase)
    requires UpFits(end) && end.phase != Selected(RelayPath)
    ensures UpFits(Say(end, message, phase))
  {
    var next := Say(end, message, phase);
    assert end.up == end.said[end.seen..];
    assert next.up == next.said[next.seen..];
  }

  lemma SayKeeps(end: End, message: Message, phase: Phase, relay: Relay)
    requires EndInv(end, relay) && !IsFinal(end.phase) && !IsFinal(phase)
    requires SaidFits(phase, end.said + [message])
    ensures EndInv(Say(end, message, phase), relay)
  {
    EventsSame(end, Say(end, message, phase));
    if !relay.Bridging? && !relay.Over? {
      UpSay(end, message, phase);
    }
  }

  lemma QuietKeeps(end: End, next: End, relay: Relay)
    requires EndInv(end, relay)
    requires next.said == end.said && next.seen == end.seen && next.broken == end.broken && next.choice == end.choice
    requires SaidFits(next.phase, next.said) && DownFits(next, relay)
    requires next.up == end.up || (end.phase == Selected(RelayPath) && next.up == end.up + [Payload])
    requires end.phase == Selected(RelayPath) ==> next.phase == Selected(RelayPath)
    ensures EndInv(next, relay)
  {
    EventsSame(end, next);
  }

  /** Reading the verdict selects the path it stands for, or gives up. */
  lemma VerdictKeeps(end: End, relay: Relay)
    requires EndInv(end, relay) && end.down != [] && !IsFinal(end.phase) && !end.phase.Init?
    ensures EndInv(end.(phase := PhaseAfter(end.phase, end.down[0]), down := end.down[1..], answered := true), relay)
  {
    QuietKeeps(end, end.(phase := PhaseAfter(end.phase, end.down[0]), down := end.down[1..], answered := true), relay);
  }

  lemma PeerKeeps(end: End, a: Action, x: nat, s: System)
    requires IsPeerAction(a) && Enabled(s, a) && a.x == x && end == s.ends[x]
    requires EndInv(end, s.relay)
    ensures EndInv(PeerStep(end, a), s.relay)
  {
    match a
    case SkipDirect(_) => SayKeeps(end, RelayReady, AwaitRelay, s.relay);
    case StartProbe(_) => SayKeeps(end, RelayStandby, Probing, s.relay);
    case Confirm(_) =>
      if end.phase == Probed(true) {
        SayKeeps(end, DirectOk, AwaitDirect, s.relay);
      } else {
        SayKeeps(end, RelayReady, AwaitRelay, s.relay);
      }
    case ReadVerdict(_) => VerdictKeeps(end, s.relay);
    case _ => QuietKeeps(end, PeerStep(end, a), s.relay);
  }

  // ---------------------------------------------------------------- one relay step

  lemma ReadOneKeeps(end: End, relay: Relay)
    requires EndInv(end, relay) && !Started(relay) && end.up != [] && !end.broken
    ensures EndInv(ReadOne(end), relay)
  {
    var next := ReadOne(end);
    assert end.up == end.said[end.seen..];
    assert next.up == next.said[next.seen..];
    var event := ChoiceFrom(end.said[end.seen]);
    assert Events(next) == Events(end) + [event];
    MergeAllAppend(Events(end), Got(end.said[end.seen]));
  }

  lemma ReadClosedKeeps(end: End, relay: Relay)
    requires EndInv(end, relay) && !Started(relay)
    ensures EndInv(ReadClosed(end), relay)
  {
    var next := ReadClosed(end);
    if end.broken {
      assert Events(next) == Events(end);
      assert Events(end)[|Events(end)| - 1] == Invalid;
    } else {
      assert Events(next) == Events(end) + [Invalid];
      MergeAllAppend(Events(end), Closed);
    }
  }

  lemma RelayMoves(end: End, relay: Relay, next: Relay)
    requires EndInv(end, relay)
    requires relay.Bridging? || relay.Over? ==> next.Bridging? || next.Over?
    requires Started(relay) ==> Started(next) && next.decision == relay.decision
    ensures EndInv(end, next)
  {
  }

  lemma TellKeeps(end: End, relay: Relay)
    requires EndInv(end, relay) && relay.Telling? && !end.told
    ensures EndInv(TellEnd(end, relay.decision), relay)
  {
    assert Events(TellEnd(end, relay.decision)) == Events(end);
  }

  lemma ForwardKeeps(end: End, next: End, relay: Relay)
    requires EndInv(end, relay) && relay.Bridging? && end.told
    requires exists up, more :: next == end.(up := up, down := end.down + more)
    ensures EndInv(next, relay)
  {
    assert Events(next) == Events(end);
  }

  /** While nothing is decided the invariant is a matter of each end alone. */
  lemma TwoEnds(first: End, second: End, relay: Relay)
    requires EndInv(first, relay) && EndInv(second, relay) && !Started(relay)
    ensures Inv(System([first, second], relay))
  {
  }

  lemma PollFirst(s: System, end: End)
    requires |s.ends| == 2 && s.relay == ReadFirst && EndInv(end, ReadFirst) && EndInv(s.ends[1], ReadFirst)
    ensures Inv(Poll(s, end))
  {
    RelayMoves(end, ReadFirst, ReadSecond);
    RelayMoves(s.ends[1], ReadFirst, ReadSecond);
    TwoEnds(end, s.ends[1], ReadSecond);
    assert s.ends[0 := end] == [end, s.ends[1]];
  }

  lemma PollSecond(s: System, end: End)
    requires |s.ends| == 2 && s.relay == ReadSecond && EndInv(end, ReadSecond) && EndInv(s.ends[0], ReadSecond)
    ensures Inv(Poll(s, end))
  {
    RelayMoves(end, ReadSecond, Deciding);
    RelayMoves(s.ends[0], ReadSecond, Deciding);
    TwoEnds(s.ends[0], end, Deciding);
    assert s.ends[1 := end] == [s.ends[0], end];
  }

  lemma PollKeeps(s: System, end: End)
    requires Inv(s) && !Started(s.relay) && !s.relay.Deciding? && EndInv(end, s.relay)
    ensures Inv(Poll(s, end))
  {
    if s.relay.ReadFirst? {
      PollFirst(s, end);
    } else {
      PollSecond(s, end);
    }
  }

  lemma SettleKeeps(s: System, next: Relay)
    requires Inv(s) && !Started(s.relay)
    requires Started(next) ==> next.Telling? && DecisionFits(s.ends[0].choice, s.ends[1].choice, next.decision)
    ensures Inv(s.(relay := next))
  {
    RelayMoves(s.ends[0], s.relay, next);
    RelayMoves(s.ends[1], s.relay, next);
  }

  lemma TellStepKeeps(s: System, x: nat)
    requires Inv(s) && Enabled(s, Tell(x))
    ensures Inv(Step(s, Tell(x)))
  {
    var next := Step(s, Tell(x));
    TellKeeps(s.ends[x], s.relay);
    RelayMoves(next.ends[x], s.relay, next.relay);
    RelayMoves(s.ends[1 - x], s.relay, next.relay);
  }

  lemma ForwardStepKeeps(s: System, x: nat)
    requires Inv(s) && Enabled(s, Forward(x))
    ensures Inv(Step(s, Forward(x)))
  {
    var next := Step(s, Forward(x));
    var from, to := s.ends[x], s.ends[1 - x];
    assert next.ends[x] == from.(up := from.up[1..], down := from.down + []);
    assert next.ends[1 - x] == to.(up := to.up, down := to.down + [from.up[0]]);
    ForwardKeeps(from, next.ends[x], s.relay);
    ForwardKeeps(to, next.ends[1 - x], s.relay);
  }

  lemma ReplaceKeeps(s: System, x: nat, end: End)
    requires Inv(s) && x < 2 && EndInv(end, s.relay)
    requires end.choice == s.ends[x].choice && end.told == s.ends[x].told
    ensures Inv(s.(ends := s.ends[x := end]))
  {
  }

  lemma PeerStepReplaces(s: System, a: Action)
    requires IsPeerAction(a) && Enabled(s, a)
    ensures var end := PeerStep(s.ends[a.x], a);
      && end.choice == s.ends[a.x].choice && end.told == s.ends[a.x].told
      && Step(s, a) == s.(ends := s.ends[a.x := end])
  {
  }

  lemma PeerStepKeeps(s: System, a: Action)
    requires Inv(s) && IsPeerAction(a) && Enabled(s, a)
    ensures Inv(Step(s, a))
  {
    PeerKeeps(s.ends[a.x], a, a.x, s);
    PeerStepReplaces(s, a);
    ReplaceKeeps(s, a.x, PeerStep(s.ends[a.x], a));
  }

  lemma PollStepKeeps(s: System, a: Action)
    requires Inv(s) && (a.PollNothing? || a.PollMessage? || a.PollClosed?) && Enabled(s, a)
    ensures Inv(Step(s, a))
  {
    var end := s.ends[Polled(s.relay)];
    match a
    case PollNothing => PollKeeps(s, end);
    case PollMessage =>
      ReadOneKeeps(end, s.relay);
      PollKeeps(s, ReadOne(end));
    case PollClosed =>
      ReadClosedKeeps(end, s.relay);
      PollKeeps(s, ReadClosed(end));
  }

  lemma SettleStepKeeps(s: System, a: Action)
    requires Inv(s) && (a.Decide? || a.Deadline? || a.Cancel?) && Enabled(s, a)
    ensures Inv(Step(s, a))
  {
    DecisionTable(s.ends[0].choice, s.ends[1].choice, a.Deadline?);
    SettleKeeps(s, Step(s, a).relay);
  }

  /** Every step of either peer or of the relay keeps the invariant. */
  lemma StepKeepsInv(s: System, a: Action)
    requires Inv(s) && Enabled(s, a)
    ensures Inv(Step(s, a))
  {
    if IsPeerAction(a) {
      PeerStepKeeps(s, a);
    } else if a.PollNothing? || a.PollMessage? || a.PollClosed? {
      PollStepKeeps(s, a);
    } else if a.Decide? || a.Deadline? || a.Cancel? {
      SettleStepKeeps(s, a);
    } else if a.Tell? {
      TellStepKeeps(s, a.x);
    } else if a.Forward? {
      ForwardStepKeeps(s, a.x);
    } else {
      RelayMoves(s.ends[0], s.relay, Step(s, a).relay);
      RelayMoves(s.ends[1], s.relay, Step(s, a).relay);
    }
  }

  lemma {:induction false} RunKeepsInv(s: System, actions: seq<Action>)
    requires Inv(s) && CanRun(s, actions)
    ensures Inv(RunAll(s, actions))
    decreases |actions|
  {
    if actions != [] {
      StepKeepsInv(s, actions[0]);
      RunKeepsInv(Step(s, actions[0]), actions[1..]);
    }
  }

  ghost predicate Reachable(s: System) {
    exists actions :: CanRun(InitialSystem(), actions) && RunAll(InitialSystem(), actions) == s
  }

  lemma ReachableInv(s: System)
    requires Reachable(s)
    ensures Inv(s)
  {
    InitialInv();
    var actions :| CanRun(InitialSystem(), actions) && RunAll(InitialSystem(), actions) == s;
    RunKeepsInv(InitialSystem(), actions);
  }

  // ---------------------------------------------------------------- what every run keeps

  /** The merged choice was read, and Standby means nothing decisive was. */
  lemma {:induction false} MergedIsRead(events: seq<Choice>)
    requires Waiting !in events
    ensures MergeAll(events) in events || (events == [] && MergeAll(events) == Waiting)
    ensures MergeAll(events) == Standby ==> forall e :: e in events ==> !Decisive(e)
    decreases |events|
  {
    if events != [] {
      var init, last := events[..|events| - 1], events[|events| - 1];
      MergedIsRead(init);
      assert events == init + [last];
    }
  }

  lemma SaidIsSayable(phase: Phase, said: seq<Message>)
    requires SaidFits(phase, said)
    ensures Sayable(said)
  {
  }

  /** What a choice tells about the peer, since it never sends more than two control frames. */
  lemma ChoiceMeans(end: End)
    requires end.seen <= |end.said| && Sayable(end.said) && end.choice == MergeAll(Events(end))
    ensures end.choice == ChoseDirect ==> end.said == [RelayStandby, DirectOk] && end.seen == 2
    ensures end.choice == ChoseRelay ==> RelayReady in end.said && end.seen == |end.said|
    ensures end.choice == Standby ==> end.seen == 1 && end.said[0] == RelayStandby
    ensures end.choice == Waiting ==> end.seen == 0
  {
    var events := Events(end);
    MergedIsRead(events);
    assert forall i :: 0 <= i < end.seen ==> events[i] == ChoiceFrom(end.said[i]);
    assert end.seen > 0 ==> events[0] in events;
    assert end.seen > 1 ==> events[1] in events;
    assert |events| == end.seen + if end.broken then 1 else 0;
    assert end.broken ==> events[end.seen] == Invalid && events[end.seen] in events;
    assert end.choice == Waiting || end.choice in events;
  }

  /** The two control frames at most, and what was read of them, at one end of a reachable system. */
  lemma EndOfReachable(s: System, x: nat)
    requires Reachable(s) && x < 2
    ensures |s.ends| == 2 && s.ends[x].seen <= |s.ends[x].said| && Sayable(s.ends[x].said)
    ensures s.ends[x].choice == MergeAll(Events(s.ends[x]))
    ensures DownFits(s.ends[x], s.relay) && SaidFits(s.ends[x].phase, s.ends[x].said)
  {
    ReachableInv(s);
    SaidIsSayable(s.ends[x].phase, s.ends[x].said);
  }

  lemma DecisionOfReachable(s: System)
    requires Reachable(s)
    ensures |s.ends| == 2
    ensures Started(s.relay) ==> DecisionFits(s.ends[0].choice, s.ends[1].choice, s.relay.decision)
  {
    ReachableInv(s);
  }

  lemma SelectionObeys(s: System, x: nat)
    requires Reachable(s) && x < 2
    ensures |s.ends| == 2
    ensures s.ends[x].phase.Selected? ==>
      Started(s.relay) && s.ends[x].told && PathOf(s.relay.decision) == Some(s.ends[x].phase.path)
  {
    EndOfReachable(s, x);
  }

  /**
   Agreement: in every reachable state a peer that selected a route was told so and selected the
   one the relay committed to, so two selections are the same path.
   */
  lemma SelectionsAgree(s: System, x: nat)
    requires Reachable(s) && x < 2
    ensures |s.ends| == 2
    ensures s.ends[x].phase.Selected? ==>
      Started(s.relay) && s.ends[x].told && PathOf(s.relay.decision) == Some(s.ends[x].phase.path)
    ensures s.ends[x].phase.Selected? && s.ends[1 - x].phase.Selected? ==> s.ends[0].phase == s.ends[1].phase
  {
    SelectionObeys(s, x);
    SelectionObeys(s, 1 - x);
  }

  /** Direct is committed, hence selected, only after both peers sent direct_ok and the relay read both. */
  lemma DirectNeedsBoth(s: System)
    requires Reachable(s)
    ensures |s.ends| == 2
    ensures (s.ends[0].phase == Selected(DirectPath) || s.ends[1].phase == Selected(DirectPath)) ==>
      Started(s.relay) && s.relay.decision == GoDirect
    ensures Started(s.relay) && s.relay.decision == GoDirect ==>
      forall x :: 0 <= x < 2 ==> s.ends[x].said == [RelayStandby, DirectOk] && s.ends[x].seen == 2
  {
    DecisionOfReachable(s);
    EndOfReachable(s, 0);
    EndOfReachable(s, 1);
    ChoiceMeans(s.ends[0]);
    ChoiceMeans(s.ends[1]);
  }

  /** direct_start never goes to a peer that is still probing or that sent relay_ready. */
  lemma NoDirectStartToAProber(s: System, x: nat)
    requires Reachable(s) && Enabled(s, Tell(x)) && s.relay.decision == GoDirect
    ensures Step(s, Tell(x)).ends[x].down == [DirectStart]
    ensures s.ends[x].phase.AwaitDirect? || s.ends[x].phase.Failed?
    ensures RelayReady !in s.ends[x].said
  {
    EndOfReachable(s, x);
    DirectNeedsBoth(s);
    assert s.ends[x].said == [RelayStandby, DirectOk];
  }

  /** The relay's choice is the first decisive event it read, else Standby, else Waiting. */
  lemma ChoiceIsFirstDecisive(s: System, x: nat)
    requires Reachable(s) && x < 2
    ensures |s.ends| == 2 && s.ends[x].seen <= |s.ends[x].said|
    ensures var events := Events(s.ends[x]);
      && (forall k :: FirstDecisive(events, k) ==> s.ends[x].choice == events[k])
      && ((forall j :: 0 <= j < |events| ==> !Decisive(events[j])) ==>
            s.ends[x].choice == if events == [] then Waiting else Standby)
  {
    EndOfReachable(s, x);
    MergedChoice(Events(s.ends[x]));
  }

  /**
   When the relay commits to relaying, at most one control frame per peer is still unread, and
   only from a peer whose recorded choice is Standby.
   */
  lemma UnreadAtRelayCommit(s: System, x: nat)
    requires Reachable(s) && x < 2
    requires Started(s.relay) && s.relay.decision.GoRelay?
    ensures |s.ends| == 2 && s.ends[x].seen <= |s.ends[x].said| <= s.ends[x].seen + 1
    ensures |s.ends[x].said| == s.ends[x].seen + 1 ==> s.ends[x].choice == Standby
  {
    DecisionOfReachable(s);
    EndOfReachable(s, x);
    ChoiceMeans(s.ends[x]);
  }

  /** No commit is lost: a peer that is told of a path and has not given up selects it when it next reads. */
  lemma CommitIsObeyed(s: System, x: nat)
    requires Reachable(s) && Enabled(s, ReadVerdict(x))
    requires Started(s.relay)
    ensures PathOf(s.relay.decision).Some? ==>
      Step(s, ReadVerdict(x)).ends[x].phase == Selected(PathOf(s.relay.decision).value)
    ensures PathOf(s.relay.decision).None? ==> Step(s, ReadVerdict(x)).ends[x].phase == Failed
  {
    EndOfReachable(s, x);
    DirectNeedsBoth(s);
  }

  // ---------------------------------------------------------------- where the peers' answers come from

  /** Nothing at this end speaks for a direct connection. */
  predicate WithoutDirect(end: End) {
    && DirectOk !in end.said
    && end.phase != Probed(true) && end.phase != AwaitDirect && end.phase != Selected(DirectPath)
  }

  /** Nothing at this end speaks for the relay. */
  predicate WithoutRelayReady(end: End) {
    RelayReady !in end.said && end.phase != Probed(false) && end.phase != AwaitRelay
  }

  /** A step by the relay or by the other peer changes neither what a peer said nor its phase. */
  lemma OthersKeepPeer(s: System, a: Action, x: nat)
    requires Enabled(s, a) && x < 2 && !(IsPeerAction(a) && a.x == x)
    ensures |Step(s, a).ends| == 2
    ensures Step(s, a).ends[x].said == s.ends[x].said && Step(s, a).ends[x].phase == s.ends[x].phase
  {
  }

  lemma PeerStaysWithoutDirect(end: End, a: Action)
    requires IsPeerAction(a) && WithoutDirect(end) && a != EndProbe(a.x, true)
    requires a.ReadVerdict? ==> end.down != []
    requires a.Confirm? ==> end.phase.Probed?
    ensures WithoutDirect(PeerStep(end, a))
  {
  }

  lemma PeerStaysWithoutRelayReady(end: End, a: Action)
    requires IsPeerAction(a) && WithoutRelayReady(end) && !a.SkipDirect? && a != EndProbe(a.x, false)
    requires a.ReadVerdict? ==> end.down != []
    requires a.Confirm? ==> end.phase.Probed?
    ensures WithoutRelayReady(PeerStep(end, a))
  {
  }

  lemma {:induction false} RunWithoutDirect(s: System, actions: seq<Action>, x: nat)
    requires x < 2 && |s.ends| == 2 && CanRun(s, actions) && WithoutDirect(s.ends[x])
    requires EndProbe(x, true) !in actions
    ensures |RunAll(s, actions).ends| == 2 && WithoutDirect(RunAll(s, actions).ends[x])
    decreases |actions|
  {
    if actions != [] {
      var a := actions[0];
      if IsPeerAction(a) && a.x == x {
        PeerStepReplaces(s, a);
        PeerStaysWithoutDirect(s.ends[x], a);
      } else {
        OthersKeepPeer(s, a, x);
      }
      RunWithoutDirect(Step(s, a), actions[1..], x);
    }
  }

  lemma {:induction false} RunWithoutRelayReady(s: System, actions: seq<Action>, x: nat)
    requires x < 2 && |s.ends| == 2 && CanRun(s, actions) && WithoutRelayReady(s.ends[x])
    requires EndProbe(x, false) !in actions && SkipDirect(x) !in actions
    ensures |RunAll(s, actions).ends| == 2 && WithoutRelayReady(RunAll(s, actions).ends[x])
    decreases |actions|
  {
    if actions != [] {
      var a := actions[0];
      if IsPeerAction(a) && a.x == x {
        PeerStepReplaces(s, a);
        PeerStaysWithoutRelayReady(s.ends[x], a);
      } else {
        OthersKeepPeer(s, a, x);
      }
      RunWithoutRelayReady(Step(s, a), actions[1..], x);
    }
  }

  /**
   Over every run: a peer sends direct_ok, waits for the direct verdict or selects the direct path
   only if its own probe ended with a direct connection.
   */
  lemma DirectNeedsConnection(actions: seq<Action>, x: nat)
    requires x < 2 && CanRun(InitialSystem(), actions) && EndProbe(x, true) !in actions
    ensures var s := RunAll(InitialSystem(), actions);
      && |s.ends| == 2 && DirectOk !in s.ends[x].said
      && s.ends[x].phase != AwaitDirect && s.ends[x].phase != Selected(DirectPath)
  {
    RunWithoutDirect(InitialSystem(), actions, x);
  }

  /** Over every run: a peer sends relay_ready only if it skipped the probe or its probe failed. */
  lemma RelayReadyNeedsFailure(actions: seq<Action>, x: nat)
    requires x < 2 && CanRun(InitialSystem(), actions)
    requires EndProbe(x, false) !in actions && SkipDirect(x) !in actions
    ensures var s := RunAll(InitialSystem(), actions);
      && |s.ends| == 2 && RelayReady !in s.ends[x].said && s.ends[x].phase != AwaitRelay
  {
    RunWithoutRelayReady(InitialSystem(), actions, x);
  }

  /** Hence a direct selection by anyone means that both probes ended with a connection. */
  lemma DirectNeedsBothConnections(actions: seq<Action>, x: nat)
    requires x < 2 && CanRun(InitialSystem(), actions)
    requires var s := RunAll(InitialSystem(), actions); |s.ends| == 2 && s.ends[x].phase == Selected(DirectPath)
    ensures EndProbe(0, true) in actions && EndProbe(1, true) in actions
  {
    var s := RunAll(InitialSystem(), actions);
    assert Reachable(s);
    DirectNeedsBoth(s);
    assert s.ends[0].said[1] == DirectOk && s.ends[1].said[1] == DirectOk;
    if EndProbe(0, true) !in actions {
      DirectNeedsConnection(actions, 0);
    } else if EndProbe(1, true) !in actions {
      DirectNeedsConnection(actions, 1);
    }
  }
}
