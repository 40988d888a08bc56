/**
 The relay's rendezvous table. Peers register under a room and a channel index; two peers of
 opposite roles under one key are joined, everyone else waits, is refused, or is purged.
 */
module RelayRooms {
  import opened Prelude
  import Decimal

  datatype Role = Sender | Receiver

  /** The part of a decoded hello that decides pairing. */
  datatype Hello = Hello(room: string, index: nat, auxiliary: bool, role: Role)

  datatype Peer = Peer(id: nat, hello: Hello, registeredAt: nat)

  datatype Rooms = Rooms(waiting: map<string, Peer>, active: set<string>)

  datatype Pairing =
    | NowWaiting
    | Matched(peer: Peer, self: Peer, claimed: bool)
    | RoomFull(self: Peer)
    | CapacityFull(self: Peer)

  datatype Outcome = Outcome(rooms: Rooms, pairing: Pairing)

  /** relay_room_base: the key up to its first '#'. */
  function RoomBase(key: string): (base: string)
    ensures base <= key && '#' !in base
    ensures base == key || (|base| < |key| && key[|base|] == '#')
  {
    if key == "" || key[0] == '#' then "" else [key[0]] + RoomBase(key[1..])
  }

  function MatchKey(hello: Hello): string {
    hello.room + "#" + Decimal.ToDecimal(hello.index)
  }

  lemma RoomBaseIsFirstCut(key: string, base: string)
    requires base <= key && '#' !in base
    requires base == key || (|base| < |key| && key[|base|] == '#')
    ensures RoomBase(key) == base
  {
    var other := RoomBase(key);
    assert forall i :: 0 <= i < |base| ==> key[i] != '#';
    assert forall i :: 0 <= i < |other| ==> key[i] != '#';
    assert |base| == |other|;
  }

  /** The claim a registration competes for depends on its room name only. */
  lemma BaseOfKey(hello: Hello)
    ensures RoomBase(MatchKey(hello)) == RoomBase(hello.room)
  {
    RoomBaseIsFirstCut(MatchKey(hello), RoomBase(hello.room));
  }

  /** Equal keys mean the same room and the same channel, whatever characters the room name has. */
  lemma MatchKeyInjective(a: Hello, b: Hello)
    requires MatchKey(a) == MatchKey(b)
    ensures a.room == b.room && a.index == b.index
  {
    var key, x, y := MatchKey(a), Decimal.ToDecimal(a.index), Decimal.ToDecimal(b.index);
    assert key[|a.room|] == '#' && key[|b.room|] == '#';
    assert forall i :: |a.room| < i < |key| ==> key[i] == x[i - |a.room| - 1] && Decimal.IsDigit(key[i]);
    assert forall i :: |b.room| < i < |key| ==> key[i] == y[i - |b.room| - 1] && Decimal.IsDigit(key[i]);
    assert |a.room| == |b.room|;
    assert a.room == key[..|a.room|] && b.room == key[..|b.room|];
    assert x == key[|a.room| + 1..] && y == key[|b.room| + 1..];
    Decimal.DecimalInjective(a.index, b.index);
  }

  /** pair_or_wait, as a function of the table. */
  function PairOrWait(rooms: Rooms, limit: nat, key: string, room: string, self: Peer): Outcome {
    if !self.hello.auxiliary && room in rooms.active then Outcome(rooms, RoomFull(self))
    else if key !in rooms.waiting then
      if |rooms.waiting| >= limit then Outcome(rooms, CapacityFull(self))
      else Outcome(rooms.(waiting := rooms.waiting[key := self]), NowWaiting)
    else if rooms.waiting[key].hello.role == self.hello.role then Outcome(rooms, RoomFull(self))
    else
      Outcome(Rooms(rooms.waiting - {key}, rooms.active + if self.hello.auxiliary then {} else {room}),
              Matched(rooms.waiting[key], self, !self.hello.auxiliary))
  }

  /** What a purge sees: the time, and which connections hung up or are no longer open at all. */
  datatype Sight = Sight(now: nat, ttl: nat, hungUp: set<nat>, invalid: set<nat>)

  predicate Stale(peer: Peer, sight: Sight) {
    || (sight.ttl > 0 && sight.now > peer.registeredAt + sight.ttl)
    || peer.id in sight.hungUp || peer.id in sight.invalid
  }

  function Kept(waiting: map<string, Peer>, sight: Sight): map<string, Peer> {
    map key | key in waiting && !Stale(waiting[key], sight) :: waiting[key]
  }

  /** Who loses the place in the table to a purge. */
  function Purged(waiting: map<string, Peer>, sight: Sight): set<Peer> {
    set key | key in waiting && Stale(waiting[key], sight) :: waiting[key]
  }

  class RelayRoomState {
    const maxWaitingPeers: nat
    const roomTtl: nat
    var waiting: map<string, Peer>
    var activeRooms: set<string>

    function View(): Rooms
      reads this
    {
      Rooms(waiting, activeRooms)
    }

    constructor (maxWaitingPeers: nat, roomTtl: nat)
      ensures this.maxWaitingPeers == maxWaitingPeers && this.roomTtl == roomTtl
      ensures View() == Rooms(map[], {})
    {
      this.maxWaitingPeers, this.roomTtl := maxWaitingPeers, roomTtl;
      waiting, activeRooms := map[], {};
    }

    method Pair(matchKey: string, activeRoom: string, self: Peer, auxiliary: bool) returns (result: Pairing)
      requires auxiliary == self.hello.auxiliary
      modifies this
      ensures Outcome(View(), result) == PairOrWait(old(View()), maxWaitingPeers, matchKey, activeRoom, self)
      ensures result.Matched? <==>
        && matchKey in old(waiting) && old(waiting)[matchKey].hello.role != self.hello.role
        && (auxiliary || activeRoom !in old(activeRooms))
      ensures result.NowWaiting? <==>
        && matchKey !in old(waiting) && |old(waiting)| < maxWaitingPeers
        && (auxiliary || activeRoom !in old(activeRooms))
      ensures result.CapacityFull? <==>
        && matchKey !in old(waiting) && |old(waiting)| >= maxWaitingPeers
        && (auxiliary || activeRoom !in old(activeRooms))
      ensures result.RoomFull? <==>
        || (!auxiliary && activeRoom in old(activeRooms))
        || (matchKey in old(waiting) && old(waiting)[matchKey].hello.role == self.hello.role)
      ensures result.Matched? ==>
        && matchKey in old(waiting) && result.peer == old(waiting)[matchKey] && result.self == self
        && result.peer.hello.role != self.hello.role && result.claimed == !auxiliary
        && matchKey !in waiting
        && activeRooms == old(activeRooms) + (if result.claimed then {activeRoom} else {})
      ensures result.NowWaiting? ==>
        && matchKey !in old(waiting) && matchKey in waiting && waiting[matchKey] == self
        && |waiting| <= maxWaitingPeers && activeRooms == old(activeRooms)
      ensures result.RoomFull? || result.CapacityFull? ==> result.self == self && View() == old(View())
      ensures forall key :: key != matchKey ==>
        (key in waiting <==> key in old(waiting)) && (key in waiting ==> waiting[key] == old(waiting)[key])
      ensures |old(waiting)| <= maxWaitingPeers ==> |waiting| <= maxWaitingPeers
    {
      if !auxiliary && activeRoom in activeRooms {
        return RoomFull(self);
      }
      if matchKey !in waiting {
        if |waiting| >= maxWaitingPeers {
          return CapacityFull(self);
        }
        assert waiting[matchKey := self].Keys == waiting.Keys + {matchKey};
        assert |waiting[matchKey := self]| == |waiting[matchKey := self].Keys| && |waiting| == |waiting.Keys|;
        waiting := waiting[matchKey := self];
        return NowWaiting;
      }
      var peer := waiting[matchKey];
      if peer.hello.role == self.hello.role {
        return RoomFull(self);
      }
      assert |waiting.Keys| == |waiting.Keys - {matchKey}| + 1;
      assert (waiting - {matchKey}).Keys == waiting.Keys - {matchKey};
      assert |waiting - {matchKey}| == |(waiting - {matchKey}).Keys| && |waiting| == |waiting.Keys|;
      waiting := waiting - {matchKey};
      if !auxiliary {
        activeRooms := activeRooms + {activeRoom};
      }
      return Matched(peer, self, !auxiliary);
    }

    method ReleaseActiveRoom(room: string)
      modifies this
      ensures View() == old(View()).(active := old(activeRooms) - {room})
    {
      activeRooms := activeRooms - {room};
    }

    method CloseWaiting() returns (closed: set<Peer>)
      modifies this
      ensures View() == old(View()).(waiting := map[])
      ensures closed == old(waiting).Values
    {
      closed := waiting.Values;
      waiting := map[];
    }

    /** The purge visits every entry once; only connections still open are closed with an error. */
    method PurgeStaleWaiting(now: nat, hungUp: set<nat>, invalid: set<nat>) returns (toClose: set<Peer>)
      modifies this
      ensures var sight := Sight(now, roomTtl, hungUp, invalid);
        && View() == old(View()).(waiting := Kept(old(waiting), sight))
        && toClose == set peer | peer in Purged(old(waiting), sight) && peer.id !in invalid
      ensures activeRooms == old(activeRooms)
      ensures forall key :: key in waiting <==>
        && key in old(waiting)
        && !(roomTtl > 0 && now - old(waiting)[key].registeredAt > roomTtl)
        && old(waiting)[key].id !in hungUp && old(waiting)[key].id !in invalid
      ensures forall key :: key in waiting ==> waiting[key] == old(waiting)[key]
    {
      var sight := Sight(now, roomTtl, hungUp, invalid);
      var entries, left := waiting, waiting.Keys;
      toClose := {};
      while left != {}
        invariant left <= entries.Keys && activeRooms == old(activeRooms) && entries == old(waiting)
        invariant waiting == map key | key in entries && (key in left || !Stale(entries[key], sight)) :: entries[key]
        invariant toClose == set key | key in entries && key !in left && Stale(entries[key], sight)
                                       && entries[key].id !in invalid :: entries[key]
        decreases left
      {
        var key :| key in left;
        var peer := waiting[key];
        if Stale(peer, sight) {
          if peer.id !in invalid {
            toClose := toClose + {peer};
          }
          waiting := waiting - {key};
        }
        left := left - {key};
      }
    }
  }
}
