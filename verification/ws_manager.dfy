/**
  The per-room connection registry behind the live event stream: a map from
  room id to the set of subscribed connections. Accepting and sending are
  network I/O; here a broadcast is told which connections' sends fail.
 */
module WsManager {

  datatype Registry<C> = Registry(rooms: map<int, set<C>>)

  /** `self.rooms = {}`: no room has subscribers yet. */
  function NewRegistry<C>(): (r: Registry<C>)
    ensures NoEmptyRooms(r)
    ensures forall k :: Subscribers(r, k) == {}
  {
    Registry(map[])
  }

  /** The connections subscribed to a room (none when the room has no entry). */
  function Subscribers<C>(reg: Registry<C>, roomId: int): set<C>
  {
    if roomId in reg.rooms then reg.rooms[roomId] else {}
  }

  /** No room key maps to an empty set. */
  predicate NoEmptyRooms<C>(reg: Registry<C>)
  {
    forall k :: k in reg.rooms ==> reg.rooms[k] != {}
  }

  /** Rooms other than `roomId` have the same entry in both registries. */
  predicate OthersUnchanged<C>(reg: Registry<C>, reg': Registry<C>, roomId: int)
  {
    reg'.rooms - {roomId} == reg.rooms - {roomId}
  }

  /** `rooms.setdefault(room_id, set()).add(ws)` */
  function Connect<C>(reg: Registry<C>, roomId: int, c: C): (r: Registry<C>)
    ensures Subscribers(r, roomId) == Subscribers(reg, roomId) + {c}
    ensures roomId in r.rooms
    ensures OthersUnchanged(reg, r, roomId)
    ensures NoEmptyRooms(reg) ==> NoEmptyRooms(r)
  {
    Registry(reg.rooms[roomId := Subscribers(reg, roomId) + {c}])
  }

  /**
    `_discard`: removes the connection and drops the room's entry once it is
    empty. A room without an entry is left alone.
   */
  function Discard<C>(reg: Registry<C>, roomId: int, c: C): (r: Registry<C>)
    ensures Subscribers(r, roomId) == Subscribers(reg, roomId) - {c}
    ensures roomId !in reg.rooms ==> r == reg
    ensures roomId in reg.rooms ==> (roomId in r.rooms <==> reg.rooms[roomId] - {c} != {})
    ensures OthersUnchanged(reg, r, roomId)
    ensures NoEmptyRooms(reg) ==> NoEmptyRooms(r)
    ensures NoEmptyRooms(reg) && c !in Subscribers(reg, roomId) ==> r == reg
  {
    if roomId !in reg.rooms then reg
    else
      var rest := reg.rooms[roomId] - {c};
      assert c !in reg.rooms[roomId] ==> rest == reg.rooms[roomId];
      if rest == {} then Registry(reg.rooms - {roomId}) else Registry(reg.rooms[roomId := rest])
  }

  /** `disconnect`: the connection is no longer subscribed to the room and nothing else changes. */
  function Disconnect<C>(reg: Registry<C>, roomId: int, c: C): (r: Registry<C>)
    ensures c !in Subscribers(r, roomId)
    ensures Subscribers(r, roomId) == Subscribers(reg, roomId) - {c}
    ensures OthersUnchanged(reg, r, roomId)
    ensures NoEmptyRooms(reg) ==> NoEmptyRooms(r)
  {
    Discard(reg, roomId, c)
  }

  /**
    The registry a broadcast should leave behind, stated in one step: when no
    send failed nothing changes; otherwise the failed connections leave the
    room, and the room's entry goes when none remain.
   */
  function Pruned<C>(reg: Registry<C>, roomId: int, failing: set<C>): Registry<C>
  {
    var dead := Subscribers(reg, roomId) * failing;
    var rest := Subscribers(reg, roomId) - failing;
    if dead == {} then reg
    else if rest == {} then Registry(reg.rooms - {roomId})
    else Registry(reg.rooms[roomId := rest])
  }

  /**
    `broadcast`: sends to every connection in a snapshot of the room's set,
    collects those whose send fails (`failing`), then discards them one by one.
    Returns the registry afterwards and the connections a send was attempted on.
   */
  method Broadcast<C>(reg: Registry<C>, roomId: int, failing: set<C>) returns (r: Registry<C>, attempted: set<C>)
    ensures attempted == Subscribers(reg, roomId)
    ensures r == Pruned(reg, roomId, failing)
    ensures Subscribers(r, roomId) == Subscribers(reg, roomId) - failing
    ensures OthersUnchanged(reg, r, roomId)
    ensures NoEmptyRooms(reg) ==> NoEmptyRooms(r)
    ensures Subscribers(reg, roomId) * failing == {} ==> r == reg
  {
    attempted := Subscribers(reg, roomId);
    var dead := attempted * failing;
    r := reg;
    var pending := dead;
    while pending != {}
      invariant pending <= dead
      invariant Subscribers(r, roomId) == attempted - (dead - pending)
      invariant OthersUnchanged(reg, r, roomId)
      invariant pending == dead ==> r == reg
      invariant pending != dead ==> (roomId in r.rooms <==> Subscribers(r, roomId) != {})
      decreases pending
    {
      var c :| c in pending;
      r := Discard(r, roomId, c);
      pending := pending - {c};
    }
    assert attempted - dead == attempted - failing;
    if dead != {} {
      if attempted - failing == {} {
        assert r.rooms == (reg.rooms - {roomId});
      } else {
        assert Subscribers(r, roomId) == attempted - failing;
        assert roomId in r.rooms;
        UpdateFromDifference(r.rooms, reg.rooms, roomId, attempted - failing);
        assert r.rooms == reg.rooms[roomId := attempted - failing];
      }
    }
  }

  /** Two maps that agree away from `k` differ by at most the entry for `k`. */
  lemma UpdateFromDifference<K, V>(m1: map<K, V>, m2: map<K, V>, k: K, v: V)
    requires m1 - {k} == m2 - {k}
    requires k in m1 && m1[k] == v
    ensures m1 == m2[k := v]
  {
    var m3 := m2[k := v];
    forall x | x in m1
      ensures x in m3 && m1[x] == m3[x]
    {
      if x != k {
        assert x in m1 - {k};
      }
    }
    forall x | x in m3
      ensures x in m1
    {
      if x != k {
        assert x in m2 - {k};
      }
    }
  }

  /** Broadcasting to a room with no subscribers changes nothing. */
  lemma BroadcastToEmptyRoom<C>(reg: Registry<C>, roomId: int, failing: set<C>)
    requires Subscribers(reg, roomId) == {}
    ensures Pruned(reg, roomId, failing) == reg
  {
  }

  /** Connecting a new connection and then discarding it restores the registry. */
  lemma ConnectThenDiscard<C>(reg: Registry<C>, roomId: int, c: C)
    requires NoEmptyRooms(reg)
    requires c !in Subscribers(reg, roomId)
    ensures Discard(Connect(reg, roomId, c), roomId, c) == reg
  {
    var r := Discard(Connect(reg, roomId, c), roomId, c);
    if roomId in reg.rooms {
      assert r.rooms == reg.rooms;
    } else {
      assert r.rooms == reg.rooms;
    }
  }
}
