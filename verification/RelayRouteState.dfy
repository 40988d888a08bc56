/** The relay's view of each peer's route messages, and the decision it takes from two of them. */
module RelayRouteState {
  import opened Prelude

  /** Control frames on a room's relay connections. */
  datatype Message =
    | RelayStandby
    | DirectOk
    | RelayReady
    | DirectStart
    | RelayStart(reason: string)
    | DoneMessage
    | Payload

  datatype Choice = Waiting | Standby | ChoseDirect | ChoseRelay | Invalid

  datatype Decision = Pending | GoDirect | GoRelay(reason: string) | Reject

  /** relay_route_choice_from */
  function ChoiceFrom(message: Message): Choice {
    match message
    case RelayStandby => Standby
    case DirectOk => ChoseDirect
    case RelayReady => ChoseRelay
    case _ => Invalid
  }

  predicate HasPresence(choice: Choice) {
    choice != Waiting && choice != Invalid
  }

  /** relay_route_choice_final */
  predicate Decisive(choice: Choice) {
    choice == ChoseDirect || choice == ChoseRelay || choice == Invalid
  }

  /** merge_relay_route_choice */
  function Merge(state: Choice, next: Choice): Choice {
    if state == Invalid || Decisive(state) then state
    else if next == Invalid || Decisive(next) || state == Waiting then next
    else state
  }

  /** relay_route_decision_for */
  function DecisionFor(first: Choice, second: Choice, deadlineExpired: bool): Decision {
    if first == Invalid || second == Invalid then Reject
    else if first == ChoseDirect && second == ChoseDirect then GoDirect
    else
      var firstRelay, secondRelay := first == ChoseRelay, second == ChoseRelay;
      if (firstRelay && HasPresence(second)) || (secondRelay && HasPresence(first)) then
        if firstRelay && secondRelay then GoRelay("relay")
        else if first == ChoseDirect || second == ChoseDirect then GoRelay("mismatch")
        else GoRelay("standby")
      else if deadlineExpired && HasPresence(first) && HasPresence(second) then GoRelay("timeout")
      else Pending
  }

  /** What the relay has read from one peer so far; a closed connection reads as Invalid. */
  function MergeAll(events: seq<Choice>): Choice {
    if events == [] then Waiting else Merge(MergeAll(events[..|events| - 1]), events[|events| - 1])
  }

  /** `k` is the position of the first decisive event. */
  ghost predicate FirstDecisive(events: seq<Choice>, k: int) {
    0 <= k < |events| && Decisive(events[k]) && forall j :: 0 <= j < k ==> !Decisive(events[j])
  }

  /**
   The merged choice, without merging: the first decisive event if there is one, otherwise Standby
   once anything has been read, otherwise Waiting. Later events change nothing.
   */
  lemma {:induction false} MergedChoice(events: seq<Choice>)
    requires Waiting !in events
    ensures forall k :: FirstDecisive(events, k) ==> MergeAll(events) == events[k]
    ensures (forall j :: 0 <= j < |events| ==> !Decisive(events[j])) ==>
      MergeAll(events) == if events == [] then Waiting else Standby
    decreases |events|
  {
    if events != [] {
      var init, last := events[..|events| - 1], events[|events| - 1];
      MergedChoice(init);
      forall k | FirstDecisive(events, k) ensures MergeAll(events) == events[k] {
        if k < |init| {
          assert FirstDecisive(init, k);
        }
      }
      assert forall j :: 0 <= j < |init| ==> init[j] == events[j];
      assert last in events;
    }
  }

  /** One poll of a connection in wait_route_decision. */
  datatype Read = Nothing | Got(message: Message) | Closed

  function ReadEvents(read: Read): seq<Choice> {
    match read
    case Nothing => []
    case Got(message) => [ChoiceFrom(message)]
    case Closed => [Invalid]
  }

  datatype Round = Round(cancelled: bool, first: Read, second: Read)

  /** Everything read from one peer in the first `n` rounds. */
  function EventsOf(rounds: seq<Round>, n: nat, second: bool): (events: seq<Choice>)
    requires n <= |rounds|
    ensures Waiting !in events
  {
    if n == 0 then []
    else EventsOf(rounds, n - 1, second) + ReadEvents(if second then rounds[n - 1].second else rounds[n - 1].first)
  }

  function MergeRead(choice: Choice, read: Read): Choice {
    match read
    case Nothing => choice
    case Got(message) => Merge(choice, ChoiceFrom(message))
    case Closed => Merge(choice, Invalid)
  }

  function ChoiceAfter(rounds: seq<Round>, n: nat, second: bool): Choice
    requires n <= |rounds|
  {
    if n == 0 then Waiting
    else MergeRead(ChoiceAfter(rounds, n - 1, second), if second then rounds[n - 1].second else rounds[n - 1].first)
  }

  lemma MergeAllAppend(events: seq<Choice>, read: Read)
    ensures MergeAll(events + ReadEvents(read)) == MergeRead(MergeAll(events), read)
  {
    if read.Nothing? {
      assert events + [] == events;
    } else {
      var event := ReadEvents(read)[0];
      assert (events + [event])[..|events|] == events;
    }
  }

  /** The running choices of the loop are the merge of everything read, hence MergedChoice describes them. */
  lemma {:induction false} ChoiceAfterMerges(rounds: seq<Round>, n: nat, second: bool)
    requires n <= |rounds|
    ensures ChoiceAfter(rounds, n, second) == MergeAll(EventsOf(rounds, n, second))
    decreases n
  {
    if n > 0 {
      ChoiceAfterMerges(rounds, n - 1, second);
      MergeAllAppend(EventsOf(rounds, n - 1, second), if second then rounds[n - 1].second else rounds[n - 1].first);
    }
  }

  function DecisionAfter(rounds: seq<Round>, n: nat, deadlineExpired: bool): Decision
    requires n <= |rounds|
  {
    DecisionFor(ChoiceAfter(rounds, n, false), ChoiceAfter(rounds, n, true), deadlineExpired)
  }

  /** No round up to `n` settled the matter. */
  ghost predicate Undecided(rounds: seq<Round>, n: nat)
    requires n <= |rounds|
  {
    forall m :: 0 < m <= n ==> DecisionAfter(rounds, m, false) == Pending
  }

  /**
   wait_route_decision over the polls that fit before the deadline. It decides once: it is
   cancelled, or settled by the last round used and by none before it, or left to the deadline rule.
   */
  method WaitRouteDecision(rounds: seq<Round>) returns (decision: Decision, used: nat)
    ensures used <= |rounds|
    ensures
      || (used < |rounds| && rounds[used].cancelled && decision == Reject && Undecided(rounds, used))
      || (used > 0 && decision == DecisionAfter(rounds, used, false) != Pending && Undecided(rounds, used - 1))
      || (used == |rounds| && decision == DecisionAfter(rounds, used, true) && Undecided(rounds, used))
  {
    var firstChoice, secondChoice := Waiting, Waiting;
    used := 0;
    while used < |rounds|
      invariant used <= |rounds|
      invariant firstChoice == ChoiceAfter(rounds, used, false)
      invariant secondChoice == ChoiceAfter(rounds, used, true)
      invariant Undecided(rounds, used)
    {
      if rounds[used].cancelled {
        return Reject, used;
      }
      firstChoice := MergeRead(firstChoice, rounds[used].first);
      secondChoice := MergeRead(secondChoice, rounds[used].second);
      used := used + 1;
      decision := DecisionFor(firstChoice, secondChoice, false);
      if decision != Pending {
        return;
      }
    }
    decision := DecisionFor(firstChoice, secondChoice, true);
  }

  /** Exactly when each decision is taken; the two peers play the same part in it. */
  lemma DecisionTable(first: Choice, second: Choice, deadline: bool)
    ensures var d := DecisionFor(first, second, deadline);
      && (d == Reject <==> first == Invalid || second == Invalid)
      && (d == GoDirect <==> first == ChoseDirect && second == ChoseDirect)
      && (d.GoRelay? <==>
            && HasPresence(first) && HasPresence(second) && !(first == ChoseDirect && second == ChoseDirect)
            && (first == ChoseRelay || second == ChoseRelay || deadline))
      && (d == GoRelay("relay") <==> first == ChoseRelay && second == ChoseRelay)
      && (d == GoRelay("mismatch") <==>
            (first == ChoseRelay && second == ChoseDirect) || (first == ChoseDirect && second == ChoseRelay))
      && (d == GoRelay("standby") <==>
            (first == ChoseRelay && second == Standby) || (first == Standby && second == ChoseRelay))
      && (d.GoRelay? ==> d.reason in ["relay", "mismatch", "standby", "timeout"])
      && d == DecisionFor(second, first, deadline)
  {
  }
}
