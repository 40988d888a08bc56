/**
 What the relay's commit leads to: it is final, it is taken exactly when what was read allows it,
 and two peers that wait for it can always be brought to the same path.
 */
module RouteSettles {
  import opened Prelude
  import opened RelayRouteState
  import opened RouteCommit

  // ---------------------------------------------------------------- the decision is final

  lemma StepKeepsDecision(s: System, a: Action)
    requires Enabled(s, a) && Started(s.relay)
    ensures Started(Step(s, a).relay) && Step(s, a).relay.decision == s.relay.decision
  {
  }

  /** Once taken, a decision is never changed. */
  lemma {:induction false} RunKeepsDecision(s: System, actions: seq<Action>)
    requires CanRun(s, actions) && Started(s.relay)
    ensures Started(RunAll(s, actions).relay) && RunAll(s, actions).relay.decision == s.relay.decision
    decreases |actions|
  {
    if actions != [] {
      StepKeepsDecision(s, actions[0]);
      RunKeepsDecision(Step(s, actions[0]), actions[1..]);
    }
  }

  /** After the relay cancels, no peer ever selects a path, whatever was read before. */
  lemma CancelIsFinal(s: System, actions: seq<Action>, x: nat)
    requires Inv(s) && Enabled(s, Cancel) && CanRun(Step(s, Cancel), actions) && x < 2
    ensures var end := RunAll(Step(s, Cancel), actions); |end.ends| == 2 && !end.ends[x].phase.Selected?
  {
    StepKeepsInv(s, Cancel);
    RunKeepsInv(Step(s, Cancel), actions);
    RunKeepsDecision(Step(s, Cancel), actions);
    DecidedPath(RunAll(Step(s, Cancel), actions), x);
  }

  lemma DecidedPath(s: System, x: nat)
    requires Inv(s) && x < 2 && Started(s.relay) && PathOf(s.relay.decision).None?
    ensures !s.ends[x].phase.Selected?
  {
    assert x == 0 || x == 1;
  }

  predicate Present(choice: Choice) {
    choice in {Standby, ChoseDirect, ChoseRelay}
  }

  /**
   Exactly when each decision is taken: between polls only if both peers are there and one of them
   asked for the relay or both are connected directly, otherwise the relay reads on; at the deadline
   Standby is enough for relaying. A peer that broke off ends it.
   */
  lemma DecidesExactly(s: System, a: Action)
    requires Enabled(s, a) && (a.Decide? || a.Deadline?)
    ensures var first, second, next := s.ends[0].choice, s.ends[1].choice, Step(s, a).relay;
      && (next == Telling(Reject) <==> first == Invalid || second == Invalid)
      && (next == Telling(GoDirect) <==> first == ChoseDirect && second == ChoseDirect)
      && (next.Telling? && next.decision.GoRelay? <==>
            && Present(first) && Present(second) && !(first == ChoseDirect && second == ChoseDirect)
            && (first == ChoseRelay || second == ChoseRelay || a.Deadline?))
      && (next == ReadFirst ==> a.Decide?)
      && (next == ReadFirst || next.Telling?)
  {
  }

  // ---------------------------------------------------------------- two waiting peers settle

  /** A peer that said its last word and waits for the verdict; the relay has perhaps read some of it. */
  predicate Talked(end: End) {
    && ((end.phase == AwaitDirect && end.said == [RelayStandby, DirectOk])
        || (end.phase == AwaitRelay && (end.said == [RelayReady] || end.said == [RelayStandby, RelayReady])))
    && !end.broken && !end.told && !end.answered && end.down == []
    && end.seen <= |end.said| && end.up == end.said[end.seen..]
    && end.choice == MergeAll(Events(end))
  }

  lemma TalkedChoice(end: End)
    requires Talked(end)
    ensures end.choice == Waiting || end.choice == Standby
            || end.choice == if end.phase == AwaitDirect then ChoseDirect else ChoseRelay
    ensures end.up == [] ==> end.choice == ChoseDirect || end.choice == ChoseRelay
  {
    var events := Events(end);
    MergedIsRead(events);
    ChoiceMeans(end);
    assert forall i :: 0 <= i < |events| ==> events[i] == ChoiceFrom(end.said[i]);
    if end.up == [] {
      assert end.seen == |end.said|;
      assert events[|events| - 1] in events && Decisive(events[|events| - 1]);
    }
  }

  lemma ReadTalked(end: End)
    requires Talked(end) && end.up != []
    ensures Talked(ReadOne(end)) && |ReadOne(end).up| == |end.up| - 1
  {
    var next := ReadOne(end);
    assert next.up == next.said[next.seen..];
    assert Events(next) == Events(end) + [ChoiceFrom(end.said[end.seen])];
    MergeAllAppend(Events(end), Got(end.said[end.seen]));
  }

  /** What the relay decides about two such peers. */
  lemma DecisionOfTalked(a: End, b: End)
    requires Talked(a) && Talked(b)
    ensures var decision := DecisionFor(a.choice, b.choice, false);
      && (decision == Pending ==> a.up != [] || b.up != [])
      && (decision != Pending ==>
            PathOf(decision) == Some(if a.phase == AwaitDirect && b.phase == AwaitDirect then DirectPath else RelayPath))
  {
    TalkedChoice(a);
    TalkedChoice(b);
  }

  function PollOf(end: End): Action {
    if end.up == [] then PollNothing else PollMessage
  }

  function Polled1(end: End): End {
    if end.up == [] then end else ReadOne(end)
  }

  predicate Settling(s: System) {
    |s.ends| == 2 && s.relay == ReadFirst && Talked(s.ends[0]) && Talked(s.ends[1])
  }

  function Unread(s: System): nat
    requires |s.ends| == 2
  {
    |s.ends[0].up| + |s.ends[1].up|
  }

  function PathFor(s: System): Path
    requires |s.ends| == 2
  {
    if s.ends[0].phase == AwaitDirect && s.ends[1].phase == AwaitDirect then DirectPath else RelayPath
  }

  lemma PollStep(s: System, end: End)
    requires |s.ends| == 2 && (s.relay == ReadFirst || s.relay == ReadSecond)
    requires end == s.ends[Polled(s.relay)] && !end.broken
    ensures Enabled(s, PollOf(end)) && Step(s, PollOf(end)) == Poll(s, Polled1(end))
  {
  }

  lemma {:induction false} RunSplit(s: System, first: seq<Action>, rest: seq<Action>)
    requires CanRun(s, first) && CanRun(RunAll(s, first), rest)
    ensures CanRun(s, first + rest) && RunAll(s, first + rest) == RunAll(RunAll(s, first), rest)
    decreases |first|
  {
    if first == [] {
      assert first + rest == rest;
    } else {
      assert (first + rest)[0] == first[0] && (first + rest)[1..] == first[1..] + rest;
      RunSplit(Step(s, first[0]), first[1..], rest);
    }
  }

  lemma RunMore(s: System, actions: seq<Action>, a: Action)
    requires CanRun(s, actions) && Enabled(RunAll(s, actions), a)
    ensures CanRun(s, actions + [a]) && RunAll(s, actions + [a]) == Step(RunAll(s, actions), a)
  {
    assert [a][1..] == [];
    RunSplit(s, actions, [a]);
  }

  lemma RunThree(s: System, a: Action, b: Action, c: Action)
    requires Enabled(s, a) && Enabled(Step(s, a), b) && Enabled(Step(Step(s, a), b), c)
    ensures CanRun(s, [a] + [b] + [c]) && RunAll(s, [a] + [b] + [c]) == Step(Step(Step(s, a), b), c)
  {
    RunMore(s, [], a);
    assert [] + [a] == [a];
    RunMore(s, [a], b);
    RunMore(s, [a] + [b], c);
  }

  function AfterRound(s: System): System
    requires |s.ends| == 2
  {
    var first, second := Polled1(s.ends[0]), Polled1(s.ends[1]);
    var decision := DecisionFor(first.choice, second.choice, false);
    System([first, second], if decision == Pending then ReadFirst else Telling(decision))
  }

  /** One round: both connections are polled, then the relay decides. */
  lemma RoundRuns(s: System) returns (actions: seq<Action>)
    requires Settling(s)
    ensures CanRun(s, actions) && RunAll(s, actions) == AfterRound(s)
  {
    var a, b := PollOf(s.ends[0]), PollOf(s.ends[1]);
    PollStep(s, s.ends[0]);
    var t := System([Polled1(s.ends[0]), s.ends[1]], ReadSecond);
    assert Poll(s, Polled1(s.ends[0])) == t;
    PollStep(t, s.ends[1]);
    assert Poll(t, Polled1(s.ends[1])) == System([Polled1(s.ends[0]), Polled1(s.ends[1])], Deciding);
    RunThree(s, a, b, Decide);
    actions := [a] + [b] + [Decide];
  }

  lemma PolledTalked(end: End)
    requires Talked(end)
    ensures Talked(Polled1(end)) && Polled1(end).phase == end.phase
    ensures |Polled1(end).up| == if end.up == [] then 0 else |end.up| - 1
  {
    if end.up != [] {
      ReadTalked(end);
    }
  }

  lemma RoundSettles(s: System)
    requires Settling(s)
    ensures var t := AfterRound(s);
      && Talked(t.ends[0]) && Talked(t.ends[1]) && PathFor(t) == PathFor(s)
      && ((Settling(t) && Unread(t) < Unread(s)) || (t.relay.Telling? && PathOf(t.relay.decision) == Some(PathFor(s))))
  {
    PolledTalked(s.ends[0]);
    PolledTalked(s.ends[1]);
    DecisionOfTalked(Polled1(s.ends[0]), Polled1(s.ends[1]));
  }

  /** Both peers are told and read it. */
  predicate BothSelected(s: System, path: Path) {
    && |s.ends| == 2 && s.ends[0].phase == Selected(path) && s.ends[1].phase == Selected(path)
    && (path == RelayPath ==> s.relay.Bridging?) && (path == DirectPath ==> s.relay.Over?)
  }

  lemma ToldSelects(end: End, decision: Decision)
    requires Talked(end) && PathOf(decision).Some? && (decision == GoDirect ==> end.phase == AwaitDirect)
    ensures PeerStep(TellEnd(end, decision), ReadVerdict(0)).phase == Selected(PathOf(decision).value)
  {
    assert ([] + [Verdict(decision)])[0] == Verdict(decision);
  }

  lemma TellBoth(s: System, decision: Decision)
    requires |s.ends| == 2 && s.relay == Telling(decision) && PathOf(decision).Some?
    requires Talked(s.ends[0]) && Talked(s.ends[1])
    ensures var told := System([TellEnd(s.ends[0], decision), TellEnd(s.ends[1], decision)],
                               if decision.GoRelay? then Bridging(decision) else Over(decision));
      Enabled(s, Tell(0)) && Enabled(Step(s, Tell(0)), Tell(1)) && Step(Step(s, Tell(0)), Tell(1)) == told
  {
    var t := System([TellEnd(s.ends[0], decision), s.ends[1]], s.relay);
    assert Step(s, Tell(0)) == t;
  }

  /** The last four steps: tell both, read both. */
  lemma DecidedRuns(s: System) returns (actions: seq<Action>)
    requires |s.ends| == 2 && Talked(s.ends[0]) && Talked(s.ends[1])
    requires s.relay.Telling? && PathOf(s.relay.decision) == Some(PathFor(s))
    ensures CanRun(s, actions) && BothSelected(RunAll(s, actions), PathFor(s))
  {
    var decision := s.relay.decision;
    TellBoth(s, decision);
    var told := Step(Step(s, Tell(0)), Tell(1));
    ToldSelects(s.ends[0], decision);
    ToldSelects(s.ends[1], decision);
    var read := System([PeerStep(told.ends[0], ReadVerdict(0)), told.ends[1]], told.relay);
    assert Step(told, ReadVerdict(0)) == read;
    RunThree(s, Tell(0), Tell(1), ReadVerdict(0));
    RunMore(s, [Tell(0)] + [Tell(1)] + [ReadVerdict(0)], ReadVerdict(1));
    actions := [Tell(0)] + [Tell(1)] + [ReadVerdict(0)] + [ReadVerdict(1)];
  }

  lemma {:induction false} SettlingSettles(s: System) returns (actions: seq<Action>)
    requires Settling(s)
    ensures CanRun(s, actions) && BothSelected(RunAll(s, actions), PathFor(s))
    decreases Unread(s)
  {
    var round := RoundRuns(s);
    RoundSettles(s);
    var t := AfterRound(s);
    var rest;
    if t.relay.Telling? {
      rest := DecidedRuns(t);
    } else {
      rest := SettlingSettles(t);
    }
    RunSplit(s, round, rest);
    actions := round + rest;
  }

  /** In a reachable system a peer that waits, on a connection that is not broken, has talked. */
  lemma WaitingHasTalked(s: System, x: nat)
    requires Inv(s) && x < 2 && s.relay == ReadFirst && !s.ends[x].broken
    requires s.ends[x].phase == AwaitDirect || s.ends[x].phase == AwaitRelay
    ensures Talked(s.ends[x])
  {
    var end := s.ends[x];
    assert EndInv(end, s.relay);
    assert end.up == end.up[..|end.said| - end.seen];
  }

  /**
   No deadlock: from every reachable state between two rounds of polling in which both peers wait and
   neither connection is broken there is a run that leads both to a selection, the direct path exactly when both reported a direct
   connection and otherwise the relay, which then bridges them.
   */
  lemma WaitingPeersSettle(s: System) returns (actions: seq<Action>)
    requires Reachable(s) && |s.ends| == 2 && s.relay == ReadFirst && !s.ends[0].broken && !s.ends[1].broken
    requires forall x :: 0 <= x < 2 ==> s.ends[x].phase == AwaitDirect || s.ends[x].phase == AwaitRelay
    ensures CanRun(s, actions)
    ensures BothSelected(RunAll(s, actions),
                         if s.ends[0].phase == AwaitDirect && s.ends[1].phase == AwaitDirect then DirectPath else RelayPath)
  {
    ReachableInv(s);
    WaitingHasTalked(s, 0);
    WaitingHasTalked(s, 1);
    actions := SettlingSettles(s);
  }

  /** The bridge loses, repeats and reorders nothing. */
  lemma BridgeConserves(s: System, x: nat)
    requires Enabled(s, Forward(x))
    ensures var t := Step(s, Forward(x));
      && t.ends[1 - x].down + t.ends[x].up == s.ends[1 - x].down + s.ends[x].up
      && t.ends[x].down == s.ends[x].down && t.ends[1 - x].up == s.ends[1 - x].up
  {
    var from := s.ends[x];
    assert from.up == [from.up[0]] + from.up[1..];
  }
}
