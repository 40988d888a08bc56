/** Every run of the relay's rendezvous table: registrations, purges, releases and shutdowns in any order. */
module RelayRoomRuns {
  import opened Prelude
  import opened RelayRooms

  datatype Joined = Joined(key: string, first: Peer, second: Peer, claimed: bool)

  /**
   `pairs` lists the matches handed back so far; the ones in `live` still hold their claim on a
   room. `refused` and `closed` are the peers sent away at registration and dropped while waiting.
   */
  datatype Server = Server(rooms: Rooms, limit: nat, ttl: nat, next: nat,
                           pairs: seq<Joined>, live: set<nat>, refused: set<nat>, closed: set<nat>)

  datatype Action =
    | Register(hello: Hello, now: nat)
    | Purge(sight: Sight)
    | Release(k: nat)
    | Shutdown

  function Initial(limit: nat, ttl: nat): Server {
    Server(Rooms(map[], {}), limit, ttl, 0, [], {}, {}, {})
  }

  /** What decode_relay_hello lets through: a named room, and every extra channel is auxiliary. */
  predicate ValidHello(hello: Hello) {
    hello.room != "" && (hello.index > 0 ==> hello.auxiliary)
  }

  predicate Enabled(s: Server, a: Action) {
    match a
    case Register(hello, _) => ValidHello(hello)
    case Purge(sight) => sight.ttl == s.ttl
    case Release(k) => k in s.live && k < |s.pairs|
    case Shutdown => true
  }

  function Ids(peers: set<Peer>): set<nat> {
    set peer | peer in peers :: peer.id
  }

  function Registered(s: Server, hello: Hello, now: nat): Server {
    var key := MatchKey(hello);
    var outcome := PairOrWait(s.rooms, s.limit, key, RoomBase(key), Peer(s.next, hello, now));
    var t := s.(rooms := outcome.rooms, next := s.next + 1);
    match outcome.pairing
    case NowWaiting => t
    case Matched(peer, self, claimed) =>
      t.(pairs := s.pairs + [Joined(key, peer, self, claimed)],
         live := s.live + if claimed then {|s.pairs|} else {})
    case RoomFull(self) => t.(refused := s.refused + {self.id})
    case CapacityFull(self) => t.(refused := s.refused + {self.id})
  }

  function Step(s: Server, a: Action): Server
    requires Enabled(s, a)
  {
    match a
    case Register(hello, now) => Registered(s, hello, now)
    case Purge(sight) =>
      s.(rooms := s.rooms.(waiting := Kept(s.rooms.waiting, sight)),
         closed := s.closed + Ids(Purged(s.rooms.waiting, sight)))
    case Release(k) =>
      s.(rooms := s.rooms.(active := s.rooms.active - {RoomBase(s.pairs[k].key)}), live := s.live - {k})
    case Shutdown =>
      s.(rooms := s.rooms.(waiting := map[]), closed := s.closed + Ids(s.rooms.waiting.Values))
  }

  predicate CanRun(s: Server, actions: seq<Action>)
    decreases |actions|
  {
    actions != [] ==> Enabled(s, actions[0]) && CanRun(Step(s, actions[0]), actions[1..])
  }

  function RunAll(s: Server, actions: seq<Action>): Server
    requires CanRun(s, actions)
    decreases |actions|
  {
    if actions == [] then s else RunAll(Step(s, actions[0]), actions[1..])
  }

  // ---------------------------------------------------------------- the table

  predicate TableFits(s: Server) {
    && |s.rooms.waiting| <= s.limit
    && forall key :: key in s.rooms.waiting ==>
         ValidHello(s.rooms.waiting[key].hello) && MatchKey(s.rooms.waiting[key].hello) == key
  }

  lemma FewerKeys(small: map<string, Peer>, large: map<string, Peer>)
    requires small.Keys <= large.Keys
    ensures |small| <= |large|
  {
    assert |large.Keys| == |small.Keys| + |large.Keys - small.Keys| by {
      assert large.Keys == small.Keys + (large.Keys - small.Keys);
    }
    assert |small| == |small.Keys| && |large| == |large.Keys|;
  }

  lemma TableStep(s: Server, a: Action)
    requires TableFits(s) && Enabled(s, a)
    ensures TableFits(Step(s, a))
  {
    var waiting := s.rooms.waiting;
    if a.Register? && MatchKey(a.hello) !in waiting {
      assert |waiting[MatchKey(a.hello) := Peer(s.next, a.hello, a.now)]| == |waiting| + 1;
    } else {
      FewerKeys(Step(s, a).rooms.waiting, waiting);
    }
  }

  // ---------------------------------------------------------------- the matches

  /** Two peers of opposite roles on the same channel of the same room; only primary channels claim it. */
  predicate PairFits(pair: Joined) {
    && pair.first.hello.role != pair.second.hello.role
    && MatchKey(pair.first.hello) == MatchKey(pair.second.hello) == pair.key
    && pair.claimed == !pair.second.hello.auxiliary
  }

  predicate PairsFit(s: Server) {
    forall k :: 0 <= k < |s.pairs| ==> PairFits(s.pairs[k])
  }

  lemma PairsStep(s: Server, a: Action)
    requires TableFits(s) && PairsFit(s) && Enabled(s, a)
    ensures PairsFit(Step(s, a))
  {
  }

  // ---------------------------------------------------------------- the claims

  function Base(s: Server, k: nat): string {
    if k < |s.pairs| then RoomBase(s.pairs[k].key) else ""
  }

  /** The active rooms are exactly those claimed by a live pair, one pair each. */
  predicate ClaimsFit(s: Server) {
    && (forall k :: k in s.live ==> k < |s.pairs| && s.pairs[k].claimed && Base(s, k) in s.rooms.active)
    && (forall k, l :: k in s.live && l in s.live && Base(s, k) == Base(s, l) ==> k == l)
    && (forall room :: room in s.rooms.active ==> exists k :: k in s.live && Base(s, k) == room)
  }

  lemma ClaimStep(s: Server, pair: Joined, t: Server)
    requires ClaimsFit(s) && pair.claimed && RoomBase(pair.key) !in s.rooms.active
    requires t.pairs == s.pairs + [pair] && t.live == s.live + {|s.pairs|}
    requires t.rooms.active == s.rooms.active + {RoomBase(pair.key)}
    ensures ClaimsFit(t)
  {
    var added := |s.pairs|;
    assert Base(t, added) == RoomBase(pair.key);
    forall k | k in s.live ensures Base(t, k) == Base(s, k) && Base(t, k) != Base(t, added) {
      assert t.pairs[k] == s.pairs[k];
    }
    assert added in t.live;
    forall room | room in s.rooms.active ensures exists k :: k in t.live && Base(t, k) == room {
      var k :| k in s.live && Base(s, k) == room;
      assert k in t.live && Base(t, k) == room;
    }
  }

  lemma KeptClaims(s: Server, t: Server)
    requires ClaimsFit(s)
    requires s.pairs <= t.pairs && t.live == s.live && t.rooms.active == s.rooms.active
    ensures ClaimsFit(t)
  {
    assert forall k :: k in s.live ==> Base(t, k) == Base(s, k);
  }

  lemma ReleaseStep(s: Server, k: nat)
    requires ClaimsFit(s) && Enabled(s, Release(k))
    ensures ClaimsFit(Step(s, Release(k)))
  {
    var t := Step(s, Release(k));
    assert forall l :: Base(t, l) == Base(s, l);
    forall room | room in t.rooms.active ensures exists l :: l in t.live && Base(t, l) == room {
      var l :| l in s.live && Base(s, l) == room;
      assert l in t.live;
    }
  }

  /** What a registration can do to the pairs and the claims: add one match, claimed or not, or nothing. */
  lemma RegisterPairs(s: Server, hello: Hello, now: nat)
    ensures var t := Registered(s, hello, now);
      || (s.pairs <= t.pairs && t.live == s.live && t.rooms.active == s.rooms.active)
      || (&& |t.pairs| == |s.pairs| + 1 && t.pairs == s.pairs + [t.pairs[|s.pairs|]]
          && t.live == s.live + {|s.pairs|} && t.pairs[|s.pairs|].claimed
          && RoomBase(t.pairs[|s.pairs|].key) !in s.rooms.active
          && t.rooms.active == s.rooms.active + {RoomBase(t.pairs[|s.pairs|].key)})
  {
  }

  lemma ClaimsStep(s: Server, a: Action)
    requires ClaimsFit(s) && Enabled(s, a)
    ensures ClaimsFit(Step(s, a))
  {
    var t := Step(s, a);
    if a.Release? {
      ReleaseStep(s, a.k);
    } else if a.Register? {
      RegisterPairs(s, a.hello, a.now);
      if s.pairs <= t.pairs && t.live == s.live && t.rooms.active == s.rooms.active {
        KeptClaims(s, t);
      } else {
        ClaimStep(s, t.pairs[|s.pairs|], t);
      }
    } else {
      KeptClaims(s, t);
    }
  }

  // ---------------------------------------------------------------- where every peer is

  datatype Place = AtKey(key: string) | First(k: nat) | Second(k: nat) | WasRefused | WasClosed

  predicate Sits(s: Server, id: nat, place: Place) {
    match place
    case AtKey(key) => key in s.rooms.waiting && s.rooms.waiting[key].id == id
    case First(k) => k < |s.pairs| && s.pairs[k].first.id == id
    case Second(k) => k < |s.pairs| && s.pairs[k].second.id == id
    case WasRefused => id in s.refused
    case WasClosed => id in s.closed
  }

  ghost predicate OnePlace(s: Server, id: nat) {
    && (exists place :: Sits(s, id, place))
    && (forall p, q :: Sits(s, id, p) && Sits(s, id, q) ==> p == q)
  }

  ghost predicate PlacesFit(s: Server) {
    && (forall id :: 0 <= id < s.next ==> OnePlace(s, id))
    && (forall id, place :: id >= s.next ==> !Sits(s, id, place))
  }

  /** Where a peer that sits at `place` is after the step; the others stay. */
  function Moved(s: Server, a: Action, id: nat, place: Place): Place
    requires Enabled(s, a) && Sits(s, id, place)
  {
    if !place.AtKey? then place
    else
      match a
      case Register(hello, now) =>
        if place.key !in Step(s, a).rooms.waiting then First(|s.pairs|) else place
      case Purge(sight) => if Stale(s.rooms.waiting[place.key], sight) then WasClosed else place
      case Release(_) => place
      case Shutdown => WasClosed
  }

  lemma MovedSits(s: Server, a: Action, id: nat, place: Place)
    requires Enabled(s, a) && Sits(s, id, place)
    ensures Sits(Step(s, a), id, Moved(s, a, id, place))
  {
    if place.AtKey? {
      var peer := s.rooms.waiting[place.key];
      if a.Purge? {
        assert Stale(peer, a.sight) ==> peer in Purged(s.rooms.waiting, a.sight);
      } else if a.Shutdown? {
        assert peer in s.rooms.waiting.Values;
      }
    }
  }

  /** Conversely nobody but the newcomer sits anywhere without having sat somewhere before. */
  lemma CameFrom(s: Server, a: Action, id: nat, place: Place) returns (before: Place)
    requires Enabled(s, a) && Sits(Step(s, a), id, place)
    requires id != s.next || !a.Register?
    ensures Sits(s, id, before) && Moved(s, a, id, before) == place
  {
    before := place;
    if Sits(s, id, place) {
      if place.AtKey? && a.Register? {
        assert place.key in Step(s, a).rooms.waiting;
      }
    } else if place.First? {
      before := AtKey(MatchKey(a.hello));
    } else {
      var key :| key in s.rooms.waiting && s.rooms.waiting[key].id == id && (a.Purge? ==> Stale(s.rooms.waiting[key], a.sight));
      before := AtKey(key);
    }
  }

  function NewPlace(s: Server, hello: Hello, now: nat): Place {
    var key := MatchKey(hello);
    match PairOrWait(s.rooms, s.limit, key, RoomBase(key), Peer(s.next, hello, now)).pairing
    case NowWaiting => AtKey(key)
    case Matched(_, _, _) => Second(|s.pairs|)
    case _ => WasRefused
  }

  lemma NewcomerSits(s: Server, a: Action, place: Place)
    requires PlacesFit(s) && a.Register? && Enabled(s, a)
    ensures Sits(Step(s, a), s.next, place) <==> place == NewPlace(s, a.hello, a.now)
  {
    assert !Sits(s, s.next, place);
    NoSeatYet(s, a.hello);
    RegisteredSits(s, a.hello, a.now, place);
  }

  lemma NoSeatYet(s: Server, hello: Hello)
    requires PlacesFit(s)
    ensures !Sits(s, s.next, AtKey(MatchKey(hello)))
  {
  }

  lemma RegisteredSits(s: Server, hello: Hello, now: nat, place: Place)
    requires !Sits(s, s.next, place) && !Sits(s, s.next, AtKey(MatchKey(hello)))
    ensures Sits(Registered(s, hello, now), s.next, place) <==> place == NewPlace(s, hello, now)
  {
  }

  lemma PlacesStep(s: Server, a: Action)
    requires PlacesFit(s) && Enabled(s, a)
    ensures PlacesFit(Step(s, a))
  {
    var t := Step(s, a);
    forall id: nat, place | Sits(t, id, place) ensures id < t.next {
      if !(a.Register? && id == s.next) {
        var before := CameFrom(s, a, id, place);
      }
    }
    forall id: nat | id < t.next ensures OnePlace(t, id) {
      if a.Register? && id == s.next {
        NewcomerSits(s, a, NewPlace(s, a.hello, a.now));
        forall p | Sits(t, id, p) ensures p == NewPlace(s, a.hello, a.now) {
          NewcomerSits(s, a, p);
        }
      } else {
        assert OnePlace(s, id);
        var place :| Sits(s, id, place);
        MovedSits(s, a, id, place);
        forall p | Sits(t, id, p) ensures p == Moved(s, a, id, place) {
          var before := CameFrom(s, a, id, p);
        }
      }
    }
  }

  // ---------------------------------------------------------------- every run

  ghost predicate Inv(s: Server) {
    TableFits(s) && PairsFit(s) && ClaimsFit(s) && PlacesFit(s)
  }

  lemma {:induction false} RunKeepsInv(s: Server, actions: seq<Action>)
    requires Inv(s) && CanRun(s, actions)
    ensures Inv(RunAll(s, actions))
    ensures RunAll(s, actions).limit == s.limit
    decreases |actions|
  {
    if actions != [] {
      TableStep(s, actions[0]);
      PairsStep(s, actions[0]);
      ClaimsStep(s, actions[0]);
      PlacesStep(s, actions[0]);
      RunKeepsInv(Step(s, actions[0]), actions[1..]);
    }
  }

  /**
   Over every run: no more peers wait than the limit; every match joins opposite roles on the same
   channel of the same room; every registered peer is in exactly one place; and a room is claimed
   by at most one primary pair.
   */
  lemma PairingOverEveryRun(limit: nat, ttl: nat, actions: seq<Action>)
    requires CanRun(Initial(limit, ttl), actions)
    ensures var s := RunAll(Initial(limit, ttl), actions);
      && |s.rooms.waiting| <= limit
      && (forall k :: 0 <= k < |s.pairs| ==>
            var first, second := s.pairs[k].first.hello, s.pairs[k].second.hello;
            first.role != second.role && first.room == second.room && first.index == second.index)
      && (forall id :: 0 <= id < s.next ==> OnePlace(s, id))
      && (forall k, l :: k in s.live && l in s.live && Base(s, k) == Base(s, l) ==> k == l)
  {
    RunKeepsInv(Initial(limit, ttl), actions);
    var s := RunAll(Initial(limit, ttl), actions);
    forall k | 0 <= k < |s.pairs|
      ensures s.pairs[k].first.hello.room == s.pairs[k].second.hello.room
      ensures s.pairs[k].first.hello.index == s.pairs[k].second.hello.index
    {
      assert PairFits(s.pairs[k]);
      MatchKeyInjective(s.pairs[k].first.hello, s.pairs[k].second.hello);
    }
  }

  // ---------------------------------------------------------------- a transfer gets its channels

  function Opposite(role: Role): Role {
    if role == Sender then Receiver else Sender
  }

  /** The two ends of a channel register one after the other, in either order. */
  function BothEnds(room: string, index: nat, auxiliary: bool, role: Role, now: nat, later: nat): seq<Action> {
    [Register(Hello(room, index, auxiliary, role), now)] + [Register(Hello(room, index, auxiliary, Opposite(role)), later)]
  }

  function ChannelPair(s: Server, room: string, index: nat, auxiliary: bool, role: Role, now: nat, later: nat): Joined {
    var first, second := Hello(room, index, auxiliary, role), Hello(room, index, auxiliary, Opposite(role));
    Joined(MatchKey(first), Peer(s.next, first, now), Peer(s.next + 1, second, later), !auxiliary)
  }

  lemma RunFirst(s: Server, a: Action, rest: seq<Action>)
    requires Enabled(s, a) && CanRun(Step(s, a), rest)
    ensures CanRun(s, [a] + rest) && RunAll(s, [a] + rest) == RunAll(Step(s, a), rest)
  {
    assert ([a] + rest)[1..] == rest;
  }

  lemma RunTwo(s: Server, a: Action, b: Action)
    requires Enabled(s, a) && Enabled(Step(s, a), b)
    ensures CanRun(s, [a] + [b]) && RunAll(s, [a] + [b]) == Step(Step(s, a), b)
  {
    RunFirst(Step(s, a), b, []);
    assert [b] + [] == [b];
    RunFirst(s, a, [b]);
  }

  /** The end that comes first waits. */
  lemma FirstEndWaits(s: Server, hello: Hello, now: nat)
    requires MatchKey(hello) !in s.rooms.waiting && |s.rooms.waiting| < s.limit
    requires hello.auxiliary || RoomBase(hello.room) !in s.rooms.active
    ensures Registered(s, hello, now) == AfterFirstEnd(s, hello, now)
  {
    BaseOfKey(hello);
  }

  /** The end that comes second meets it. */
  lemma SecondEndMeets(s: Server, hello: Hello, now: nat)
    requires MatchKey(hello) in s.rooms.waiting && s.rooms.waiting[MatchKey(hello)].hello.role != hello.role
    requires hello.auxiliary || RoomBase(hello.room) !in s.rooms.active
    ensures Registered(s, hello, now) ==
      s.(next := s.next + 1,
         rooms := Rooms(s.rooms.waiting - {MatchKey(hello)},
                        s.rooms.active + if hello.auxiliary then {} else {RoomBase(hello.room)}),
         pairs := s.pairs + [Joined(MatchKey(hello), s.rooms.waiting[MatchKey(hello)], Peer(s.next, hello, now), !hello.auxiliary)],
         live := s.live + if hello.auxiliary then {} else {|s.pairs|})
  {
    BaseOfKey(hello);
  }

  function AfterEnds(s: Server, room: string, index: nat, auxiliary: bool, role: Role, now: nat, later: nat): Server {
    s.(next := s.next + 2, pairs := s.pairs + [ChannelPair(s, room, index, auxiliary, role, now, later)],
       live := s.live + (if auxiliary then {} else {|s.pairs|}),
       rooms := s.rooms.(active := s.rooms.active + if auxiliary then {} else {RoomBase(room)}))
  }

  lemma PutAndTake(table: map<string, Peer>, key: string, peer: Peer)
    requires key !in table
    ensures table[key := peer] - {key} == table
  {
  }

  /** The server in between: the first end waits. */
  function AfterFirstEnd(s: Server, hello: Hello, now: nat): Server {
    s.(next := s.next + 1, rooms := s.rooms.(waiting := s.rooms.waiting[MatchKey(hello) := Peer(s.next, hello, now)]))
  }

  lemma SecondEndStep(s: Server, room: string, index: nat, auxiliary: bool, role: Role, now: nat, later: nat)
    requires MatchKey(Hello(room, index, auxiliary, role)) !in s.rooms.waiting
    requires auxiliary || RoomBase(room) !in s.rooms.active
    ensures Registered(AfterFirstEnd(s, Hello(room, index, auxiliary, role), now), Hello(room, index, auxiliary, Opposite(role)), later)
         == AfterEnds(s, room, index, auxiliary, role, now, later)
  {
    var first, second := Hello(room, index, auxiliary, role), Hello(room, index, auxiliary, Opposite(role));
    PutAndTake(s.rooms.waiting, MatchKey(first), Peer(s.next, first, now));
    assert MatchKey(second) == MatchKey(first);
    SecondEndMeets(AfterFirstEnd(s, first, now), second, later);
  }

  /** A free key, a free place in the table and an inactive room or an auxiliary channel: the ends wait and meet. */
  lemma EndsMeet(s: Server, room: string, index: nat, auxiliary: bool, role: Role, now: nat, later: nat)
    requires room != "" && (index > 0 ==> auxiliary)
    requires MatchKey(Hello(room, index, auxiliary, role)) !in s.rooms.waiting && |s.rooms.waiting| < s.limit
    requires auxiliary || RoomBase(room) !in s.rooms.active
    ensures CanRun(s, BothEnds(room, index, auxiliary, role, now, later))
    ensures RunAll(s, BothEnds(room, index, auxiliary, role, now, later))
         == AfterEnds(s, room, index, auxiliary, role, now, later)
  {
    FirstEndWaits(s, Hello(room, index, auxiliary, role), now);
    SecondEndStep(s, room, index, auxiliary, role, now, later);
    RunTwo(s, Register(Hello(room, index, auxiliary, role), now), Register(Hello(room, index, auxiliary, Opposite(role)), later));
  }

  /** Channels from `index` to below `end`, both ends of one after both ends of the other. */
  function AuxiliaryEnds(room: string, index: nat, end: nat, role: Role, now: nat): seq<Action>
    decreases end - index
  {
    if index >= end then [] else BothEnds(room, index, true, role, now, now) + AuxiliaryEnds(room, index + 1, end, role, now)
  }

  lemma {:induction false} RunSplit(s: Server, first: seq<Action>, rest: seq<Action>)
    requires CanRun(s, first) && CanRun(RunAll(s, first), rest)
    ensures CanRun(s, first + rest) && RunAll(s, first + rest) == RunAll(RunAll(s, first), rest)
    decreases |first|
  {
    if first == [] {
      assert first + rest == rest;
    } else {
      assert (first + rest)[0] == first[0] && (first + rest)[1..] == first[1..] + rest;
      RunSplit(Step(s, first[0]), first[1..], rest);
    }
  }

  /** The pairs that were added are the channels, one each, none of them claiming a room. */
  ghost predicate JoinsChannels(s: Server, t: Server, room: string, index: nat, end: nat)
    requires index <= end
  {
    && t.rooms == s.rooms && t.live == s.live && t.refused == s.refused && t.closed == s.closed
    && t.limit == s.limit && |t.pairs| == |s.pairs| + (end - index) && s.pairs <= t.pairs
    && forall k :: |s.pairs| <= k < |t.pairs| ==>
         t.pairs[k].key == MatchKey(Hello(room, index + (k - |s.pairs|), true, Sender)) && !t.pairs[k].claimed
  }

  lemma JoinsMore(s: Server, mid: Server, t: Server, room: string, index: nat, end: nat)
    requires index < end && JoinsChannels(s, mid, room, index, index + 1) && JoinsChannels(mid, t, room, index + 1, end)
    ensures JoinsChannels(s, t, room, index, end)
  {
    assert t.pairs[|s.pairs|] == mid.pairs[|s.pairs|];
  }

  lemma OneJoined(s: Server, room: string, index: nat, role: Role, now: nat)
    ensures JoinsChannels(s, AfterEnds(s, room, index, true, role, now, now), room, index, index + 1)
  {
    assert s.live + {} == s.live && s.rooms.active + {} == s.rooms.active;
  }

  lemma OneChannel(s: Server, room: string, index: nat, role: Role, now: nat) returns (mid: Server)
    requires room != "" && |s.rooms.waiting| < s.limit && MatchKey(Hello(room, index, true, role)) !in s.rooms.waiting
    ensures CanRun(s, BothEnds(room, index, true, role, now, now))
    ensures mid == RunAll(s, BothEnds(room, index, true, role, now, now)) && JoinsChannels(s, mid, room, index, index + 1)
  {
    EndsMeet(s, room, index, true, role, now, now);
    mid := AfterEnds(s, room, index, true, role, now, now);
    OneJoined(s, room, index, role, now);
  }

  /**
   Every auxiliary channel of a room connects, however many there are and whatever rooms are active,
   as long as its key is free and the table has room for the end that comes first.
   */
  lemma {:induction false} AuxiliaryChannelsJoin(s: Server, room: string, index: nat, end: nat, role: Role, now: nat)
    requires room != "" && index <= end && |s.rooms.waiting| < s.limit
    requires forall i :: index <= i < end ==> MatchKey(Hello(room, i, true, role)) !in s.rooms.waiting
    ensures CanRun(s, AuxiliaryEnds(room, index, end, role, now))
    ensures JoinsChannels(s, RunAll(s, AuxiliaryEnds(room, index, end, role, now)), room, index, end)
    decreases end - index
  {
    if index < end {
      var mid := OneChannel(s, room, index, role, now);
      AuxiliaryChannelsJoin(mid, room, index + 1, end, role, now);
      RunSplit(s, BothEnds(room, index, true, role, now, now), AuxiliaryEnds(room, index + 1, end, role, now));
      JoinsMore(s, mid, RunAll(mid, AuxiliaryEnds(room, index + 1, end, role, now)), room, index, end);
    }
  }

  /**
   A parallel transfer gets all its channels: in any server whose table has room, where the room is
   not taken and its keys are free, the primary ends meet and claim the room, and then every
   auxiliary channel of the now active room connects; nobody is refused.
   */
  lemma TransferConnects(s: Server, room: string, channels: nat, role: Role, now: nat) returns (t: Server)
    requires room != "" && channels > 0 && |s.rooms.waiting| < s.limit && RoomBase(room) !in s.rooms.active
    requires forall i :: 0 <= i < channels ==> MatchKey(Hello(room, i, true, role)) !in s.rooms.waiting
    ensures var actions := BothEnds(room, 0, false, role, now, now) + AuxiliaryEnds(room, 1, channels, role, now);
      CanRun(s, actions) && t == RunAll(s, actions)
    ensures RoomBase(room) in t.rooms.active && t.refused == s.refused && t.rooms.waiting == s.rooms.waiting
    ensures |t.pairs| == |s.pairs| + channels
    ensures forall i :: 0 <= i < channels ==>
      t.pairs[|s.pairs| + i].key == MatchKey(Hello(room, i, true, role)) && (t.pairs[|s.pairs| + i].claimed <==> i == 0)
  {
    assert MatchKey(Hello(room, 0, false, role)) == MatchKey(Hello(room, 0, true, role));
    EndsMeet(s, room, 0, false, role, now, now);
    var mid := RunAll(s, BothEnds(room, 0, false, role, now, now));
    AuxiliaryChannelsJoin(mid, room, 1, channels, role, now);
    RunSplit(s, BothEnds(room, 0, false, role, now, now), AuxiliaryEnds(room, 1, channels, role, now));
    t := RunAll(mid, AuxiliaryEnds(room, 1, channels, role, now));
    assert t.pairs[|s.pairs|] == mid.pairs[|s.pairs|];
    forall i | 1 <= i < channels
      ensures t.pairs[|s.pairs| + i].key == MatchKey(Hello(room, i, true, role)) && !t.pairs[|s.pairs| + i].claimed
    {
      assert |s.pairs| + i == |mid.pairs| + (i - 1);
    }
  }

  // ---------------------------------------------------------------- nobody waits in an active room

  /** No primary peer waits for a room that is already taken. */
  predicate Clear(s: Server) {
    forall key :: key in s.rooms.waiting && !s.rooms.waiting[key].hello.auxiliary ==> RoomBase(key) !in s.rooms.active
  }

  predicate Confined(actions: seq<Action>, names: set<string>) {
    forall i :: 0 <= i < |actions| && actions[i].Register? ==> actions[i].hello.room in names
  }

  predicate WaitingIn(s: Server, names: set<string>) {
    forall key :: key in s.rooms.waiting ==> s.rooms.waiting[key].hello.room in names
  }

  /** No two of the room names have the same text before their first '#'. */
  predicate BasesDiffer(names: set<string>) {
    forall a, b :: a in names && b in names && a != "" && b != "" && RoomBase(a) == RoomBase(b) ==> a == b
  }

  lemma ClearStep(s: Server, a: Action, names: set<string>)
    requires TableFits(s) && Clear(s) && WaitingIn(s, names) && Enabled(s, a)
    requires a.Register? ==> a.hello.room in names
    requires s.limit < 2 || BasesDiffer(names)
    ensures Clear(Step(s, a)) && WaitingIn(Step(s, a), names)
  {
    var t := Step(s, a);
    if a.Register? {
      BaseOfKey(a.hello);
      forall key | key in t.rooms.waiting && !t.rooms.waiting[key].hello.auxiliary
        ensures RoomBase(key) !in t.rooms.active
      {
        if |t.pairs| > |s.pairs| {
          OtherKey(s, a.hello, key, names);
        }
      }
    }
  }

  lemma TwoKeys(table: map<string, Peer>, a: string, b: string)
    requires a in table && b in table && a != b
    ensures |table| >= 2
  {
    FewerKeys(map[a := table[a], b := table[b]], table);
    assert map[a := table[a], b := table[b]].Keys == {a, b};
  }

  /** A second primary key in the table belongs to another base, when bases tell rooms apart. */
  lemma OtherKey(s: Server, hello: Hello, key: string, names: set<string>)
    requires TableFits(s) && WaitingIn(s, names) && ValidHello(hello) && hello.room in names
    requires MatchKey(hello) in s.rooms.waiting && key in s.rooms.waiting && key != MatchKey(hello)
    requires s.limit < 2 || BasesDiffer(names)
    ensures s.rooms.waiting[key].hello.auxiliary || hello.auxiliary || RoomBase(key) != RoomBase(MatchKey(hello))
  {
    BaseOfKey(hello);
    BaseOfKey(s.rooms.waiting[key].hello);
    TwoKeys(s.rooms.waiting, key, MatchKey(hello));
    var other := s.rooms.waiting[key].hello;
    assert MatchKey(other) == key && other.room in names;
    if !other.auxiliary && !hello.auxiliary && BasesDiffer(names) {
      assert other.room == hello.room ==> MatchKey(other) == MatchKey(hello);
    }
  }

  lemma {:induction false} RunStaysClear(s: Server, actions: seq<Action>, names: set<string>)
    requires TableFits(s) && Clear(s) && WaitingIn(s, names) && CanRun(s, actions) && Confined(actions, names)
    requires s.limit < 2 || BasesDiffer(names)
    ensures Clear(RunAll(s, actions))
    decreases |actions|
  {
    if actions != [] {
      TableStep(s, actions[0]);
      ClearStep(s, actions[0], names);
      RunStaysClear(Step(s, actions[0]), actions[1..], names);
    }
  }

  lemma RunThree(s: Server, a: Action, b: Action, c: Action)
    requires Enabled(s, a) && Enabled(Step(s, a), b) && Enabled(Step(Step(s, a), b), c)
    ensures CanRun(s, [a, b, c]) && RunAll(s, [a, b, c]) == Step(Step(Step(s, a), b), c)
  {
    RunFirst(Step(Step(s, a), b), c, []);
    RunFirst(Step(s, a), b, [c] + []);
    RunFirst(s, a, [b] + ([c] + []));
    assert [a] + ([b] + ([c] + [])) == [a, b, c];
  }

  /** Two rooms that differ only after a '#': the second one keeps waiting while the first is active. */
  lemma SharedBaseBlocks(limit: nat, ttl: nat, a: string, b: string) returns (actions: seq<Action>)
    requires limit >= 2 && a != "" && b != "" && a != b && RoomBase(a) == RoomBase(b)
    ensures CanRun(Initial(limit, ttl), actions) && Confined(actions, {a, b})
    ensures !Clear(RunAll(Initial(limit, ttl), actions))
  {
    var first, second, third := Hello(a, 0, false, Sender), Hello(b, 0, false, Sender), Hello(a, 0, false, Receiver);
    actions := [Register(first, 0), Register(second, 0), Register(third, 0)];
    if MatchKey(first) == MatchKey(second) {
      MatchKeyInjective(first, second);
    }
    BaseOfKey(first);
    BaseOfKey(second);
    var s0 := Initial(limit, ttl);
    assert |s0.rooms.waiting| == 0;
    var s1 := Step(s0, actions[0]);
    assert s1.rooms == Rooms(map[MatchKey(first) := Peer(0, first, 0)], {});
    var s2 := Step(s1, actions[1]);
    assert s2.rooms == Rooms(map[MatchKey(first) := Peer(0, first, 0), MatchKey(second) := Peer(1, second, 0)], {});
    var s3 := Step(s2, actions[2]);
    assert MatchKey(second) in s3.rooms.waiting && RoomBase(MatchKey(first)) in s3.rooms.active;
    RunThree(s0, actions[0], actions[1], actions[2]);
  }

  /** No primary peer ever waits for an active room exactly when room names are told apart by their bases. */
  lemma ActiveRoomsAreClear(limit: nat, ttl: nat, names: set<string>)
    ensures (forall actions :: CanRun(Initial(limit, ttl), actions) && Confined(actions, names) ==>
                                 Clear(RunAll(Initial(limit, ttl), actions)))
            <==> (limit < 2 || BasesDiffer(names))
  {
    if limit < 2 || BasesDiffer(names) {
      forall actions | CanRun(Initial(limit, ttl), actions) && Confined(actions, names)
        ensures Clear(RunAll(Initial(limit, ttl), actions))
      {
        RunStaysClear(Initial(limit, ttl), actions, names);
      }
    } else {
      var a, b :| a in names && b in names && a != "" && b != "" && RoomBase(a) == RoomBase(b) && a != b;
      var actions := SharedBaseBlocks(limit, ttl, a, b);
      assert Confined(actions, names);
    }
  }

  /** Room names without a '#' are always told apart. */
  lemma PlainNamesDiffer(names: set<string>)
    requires forall name :: name in names ==> '#' !in name
    ensures BasesDiffer(names)
  {
    forall name | name in names ensures RoomBase(name) == name {
      RoomBaseIsFirstCut(name, name);
    }
  }
}
