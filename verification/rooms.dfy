/**
  Rooms and memberships: `create_room` with its bounded code search and the
  owner's automatic membership, the lookups by code and by id, the
  idempotent `join_room`, and the `get_room_state` snapshot.
 */
module Rooms {
  import opened Tables
  import opened Store
  import opened Codes
  import Rounds

  predicate AllDraws(draws: seq<seq<int>>)
  {
    forall i :: 0 <= i < |draws| ==> IsDraw(draws[i])
  }

  /** The code of draw `k` is already taken by some room. */
  predicate DrawTaken(s: State, draws: seq<seq<int>>, k: int)
    requires AllDraws(draws) && 0 <= k < |draws|
  {
    CodeInUse(s, Code(draws[k]))
  }

  /** Every draw with index in `[from, to)` is taken. */
  predicate AllTaken(s: State, draws: seq<seq<int>>, from: int, to: int)
    requires AllDraws(draws) && 0 <= from && to <= |draws|
  {
    forall k :: from <= k < to ==> DrawTaken(s, draws, k)
  }

  /** Draw `k` is the first whose code no room uses. */
  predicate IsFirstFreeDraw(s: State, draws: seq<seq<int>>, k: int)
    requires AllDraws(draws)
  {
    && 0 <= k < |draws|
    && !DrawTaken(s, draws, k)
    && AllTaken(s, draws, 0, k)
  }

  /** Index of the first draw at or after `from` whose code no room uses yet (`SELECT id FROM rooms WHERE code=?` finds nothing). */
  function FirstFreeDraw(s: State, draws: seq<seq<int>>, from: nat): (r: Option<nat>)
    requires AllDraws(draws) && from <= |draws|
    ensures r.Some? ==> from <= r.value < |draws| && !DrawTaken(s, draws, r.value) && AllTaken(s, draws, from, r.value)
    ensures r.None? <==> AllTaken(s, draws, from, |draws|)
    decreases |draws| - from
  {
    if from == |draws| then None
    else if !DrawTaken(s, draws, from) then Some(from)
    else
      var r := FirstFreeDraw(s, draws, from + 1);
      AllTakenExtend(s, draws, from, if r.Some? then r.value else |draws|);
      r
  }

  /** A taken draw in front of a taken range extends the range by one. */
  lemma AllTakenExtend(s: State, draws: seq<seq<int>>, from: nat, to: nat)
    requires AllDraws(draws) && from < to <= |draws|
    requires DrawTaken(s, draws, from) && AllTaken(s, draws, from + 1, to)
    ensures AllTaken(s, draws, from, to)
  {
    forall k | from <= k < to
      ensures DrawTaken(s, draws, k)
    {
      if k != from {
        assert from + 1 <= k < to;
      }
    }
  }

  /**
    `INSERT OR IGNORE INTO room_players … VALUES (room, user, 3)`: adds a
    membership with the initial cards unless one exists, and returns the id of
    the membership row.
   */
  function AddMember(s: State, roomId: int, userId: int): (r: (State, int))
    ensures r.1 in r.0.players.rows
    ensures r.0.players.rows[r.1].roomId == roomId && r.0.players.rows[r.1].userId == userId
    ensures r.0 == s.(players := r.0.players)
    ensures Membership(s, roomId, userId).Some? ==> r == (s, Membership(s, roomId, userId).value)
    ensures Membership(s, roomId, userId).None? ==>
              && r.1 !in s.players.rows
              && r.0.players.rows == s.players.rows[r.1 := Player(roomId, userId, InitialSuperCards)]
  {
    match Membership(s, roomId, userId)
    case Some(pid) => (s, pid)
    case None =>
      var (players', pid) := Insert(s.players, Player(roomId, userId, InitialSuperCards));
      (s.(players := players'), pid)
  }

  /**
    Inserts `room` under a fresh id and makes its owner a member: the two
    writes `create_room` performs once it has a free code.
   */
  function OpenRoom(s: State, room: Room): (r: (State, int))
    ensures r.1 !in s.rooms.rows
    ensures r.0.rooms.rows == s.rooms.rows[r.1 := room]
    ensures r.0 == s.(rooms := r.0.rooms, players := r.0.players)
    ensures Membership(r.0, r.1, room.ownerUserId).Some?
    ensures forall pid :: pid in s.players.rows ==> pid in r.0.players.rows && r.0.players.rows[pid] == s.players.rows[pid]
    // in a consistent database the owner's membership is new and holds three cards
    ensures Valid(s) ==>
              exists pid :: pid !in s.players.rows
                && r.0.players.rows == s.players.rows[pid := Player(r.1, room.ownerUserId, InitialSuperCards)]
  {
    var (rooms', id) := Insert(s.rooms, room);
    var s1 := s.(rooms := rooms');
    assert Valid(s) ==> Membership(s1, id, room.ownerUserId).None?;
    var (s', _) := AddMember(s1, id, room.ownerUserId);
    (s', id)
  }

  /**
    Creates an active room owned by `ownerUserId` with the code of the first of
    the twenty draws that no room uses, then makes the owner a member. Fails
    without any change when every draw collides. The owner id is not checked.
   */
  function CreateRoom(s: State, ownerUserId: int, draws: seq<seq<int>>): (r: Result<(State, int, Room)>)
    requires |draws| == CodeAttempts
    requires AllDraws(draws)
    ensures r.Err? <==> AllTaken(s, draws, 0, |draws|)
    ensures r.Err? ==> r.error == ResourceExhausted
    ensures r.Ok? ==>
              var (s', id, room) := r.value;
              && room.status == Active && room.ownerUserId == ownerUserId
              && IsCode(room.code) && !CodeInUse(s, room.code)
              && (exists k :: IsFirstFreeDraw(s, draws, k) && room.code == Code(draws[k]))
              && (s', id) == OpenRoom(s, room)
  {
    match FirstFreeDraw(s, draws, 0)
    case None => Err(ResourceExhausted)
    case Some(k) =>
      var room := Room(Code(draws[k]), ownerUserId, Active);
      assert IsDraw(draws[k]);
      assert IsFirstFreeDraw(s, draws, k);
      var (s', id) := OpenRoom(s, room);
      Ok((s', id, room))
  }

  function GetRoomByCode(s: State, code: string): (r: Option<(int, Room)>)
    ensures r.Some? ==> r.value.0 in s.rooms.rows && s.rooms.rows[r.value.0] == r.value.1 && r.value.1.code == code
    ensures r.None? <==> !CodeInUse(s, code)
  {
    match RoomByCode(s, code)
    case None => None
    case Some(id) => Some((id, s.rooms.rows[id]))
  }

  function GetRoomById(s: State, roomId: int): Option<Room>
  {
    if roomId in s.rooms.rows then Some(s.rooms.rows[roomId]) else None
  }

  /**
    Joins the room with this code. Fails when no room has the code or the room
    is not active; otherwise makes the user a member with three cards, or
    returns the existing membership untouched. Returns the state, the room id
    and row, and the membership id and row.
   */
  function JoinRoom(s: State, code: string, userId: int): (r: Result<(State, int, Room, int, Player)>)
    ensures r == Err(NotFound) <==> !CodeInUse(s, code)
    ensures r == Err(InvalidState) <==>
              CodeInUse(s, code) && s.rooms.rows[RoomByCode(s, code).value].status != Active
    ensures r.Err? ==> r.error == NotFound || r.error == InvalidState
    ensures r.Ok? ==>
              var (s', roomId, room, pid, player) := r.value;
              && RoomByCode(s, code) == Some(roomId) && s.rooms.rows[roomId] == room
              && room.code == code && room.status == Active
              && pid in s'.players.rows && s'.players.rows[pid] == player
              && player.roomId == roomId && player.userId == userId
              && s' == s.(players := s'.players)
    // joining again changes nothing and keeps the card balance
    ensures r.Ok? && Membership(s, r.value.1, userId).Some? ==>
              r.value.0 == s && r.value.3 == Membership(s, r.value.1, userId).value
    ensures r.Ok? && Membership(s, r.value.1, userId).None? ==>
              && r.value.3 !in s.players.rows
              && r.value.4.superCards == InitialSuperCards
              && r.value.0.players.rows == s.players.rows[r.value.3 := r.value.4]
  {
    match RoomByCode(s, code)
    case None => Err(NotFound)
    case Some(roomId) =>
      var room := s.rooms.rows[roomId];
      if room.status != Active then Err(InvalidState)
      else
        var (s', pid) := AddMember(s, roomId, userId);
        Ok((s', roomId, room, pid, s'.players.rows[pid]))
  }

  // ---- get_room_state ----------------------------------------------------

  /** A `players` entry of the room snapshot: membership joined with its user. */
  datatype PlayerView = PlayerView(playerId: int, userId: int, name: string, superCards: int)

  datatype RoomState = RoomState(
    roomId: int,
    roomCode: string,
    status: RoomStatus,
    players: seq<PlayerView>,
    currentRound: Option<(int, Round)>)

  /** The membership row `pid` joined with its user row (`JOIN users u ON u.id = rp.user_id`). */
  predicate ShowsPlayer(s: State, v: PlayerView)
  {
    && v.playerId in s.players.rows
    && var p := s.players.rows[v.playerId];
       && p.userId in s.users.rows
       && v == PlayerView(v.playerId, p.userId, s.users.rows[p.userId].name, p.superCards)
  }

  function PlayerViews(s: State, ids: seq<int>): (vs: seq<PlayerView>)
    requires forall i :: 0 <= i < |ids| ==> ids[i] in s.players.rows && s.players.rows[ids[i]].userId in s.users.rows
    ensures |vs| == |ids|
    ensures forall i :: 0 <= i < |vs| ==> vs[i].playerId == ids[i] && ShowsPlayer(s, vs[i])
  {
    if |ids| == 0 then []
    else
      var p := s.players.rows[ids[0]];
      [PlayerView(ids[0], p.userId, s.users.rows[p.userId].name, p.superCards)] + PlayerViews(s, ids[1..])
  }

  /**
    The room's code and status, its members in joining order (membership ids
    ascend with join time) each with name and cards, and its current round.
    Fails with `NotFound` for an unknown room.
   */
  function GetRoomState(s: State, roomId: int): (r: Result<RoomState>)
    ensures r.Err? <==> roomId !in s.rooms.rows
    ensures r.Err? ==> r.error == NotFound
    ensures r.Ok? ==>
              && r.value.roomId == roomId
              && r.value.roomCode == s.rooms.rows[roomId].code
              && r.value.status == s.rooms.rows[roomId].status
              && r.value.currentRound == Rounds.GetCurrentQuestion(s, roomId)
    ensures r.Ok? ==>
              var ps := r.value.players;
              && (forall i :: 0 <= i < |ps| ==> ShowsPlayer(s, ps[i]) && s.players.rows[ps[i].playerId].roomId == roomId)
              && (forall i, j :: 0 <= i < j < |ps| ==> ps[i].playerId < ps[j].playerId)
              && (forall pid ::
                    (pid in s.players.rows && s.players.rows[pid].roomId == roomId
                     && s.players.rows[pid].userId in s.users.rows) ==>
                    exists i :: 0 <= i < |ps| && ps[i].playerId == pid)
  {
    if roomId !in s.rooms.rows then Err(NotFound)
    else
      var room := s.rooms.rows[roomId];
      var ids := Select(s.players, (p: Player) => p.roomId == roomId && p.userId in s.users.rows);
      var players := PlayerViews(s, ids);
      Ok(RoomState(roomId, room.code, room.status, players, Rounds.GetCurrentQuestion(s, roomId)))
  }

  // ---- Properties --------------------------------------------------------

  /** A room created in a consistent database is found again by its code and by its id. */
  lemma CreatedRoomIsFound(s: State, ownerUserId: int, draws: seq<seq<int>>)
    requires |draws| == CodeAttempts && AllDraws(draws)
    requires CreateRoom(s, ownerUserId, draws).Ok?
    ensures var (s', id, room) := CreateRoom(s, ownerUserId, draws).value;
            && GetRoomByCode(s', room.code) == Some((id, room))
            && GetRoomById(s', id) == Some(room)
  {
    var (s', id, room) := CreateRoom(s, ownerUserId, draws).value;
    assert s'.rooms.rows[id].code == room.code;
  }

  /** Strictly increasing membership ids are at least one apart from each other. */
  lemma {:induction false} IncreasingIdsSpread(ps: seq<PlayerView>)
    requires |ps| > 0
    requires forall i, j :: 0 <= i < j < |ps| ==> ps[i].playerId < ps[j].playerId
    ensures ps[|ps| - 1].playerId >= ps[0].playerId + |ps| - 1
    decreases |ps|
  {
    if |ps| > 1 {
      IncreasingIdsSpread(ps[..|ps| - 1]);
    }
  }

  /** A room whose only membership is `pid` lists exactly that player. */
  lemma SoleMemberListed(s: State, roomId: int, pid: int)
    requires roomId in s.rooms.rows
    requires pid in s.players.rows && s.players.rows[pid].roomId == roomId
    requires s.players.rows[pid].userId in s.users.rows
    requires forall q :: q in s.players.rows && s.players.rows[q].roomId == roomId ==> q == pid
    ensures GetRoomState(s, roomId).Ok?
    ensures var ps := GetRoomState(s, roomId).value.players;
            |ps| == 1 && ps[0].playerId == pid && ShowsPlayer(s, ps[0])
  {
    var ps := GetRoomState(s, roomId).value.players;
    assert forall i :: 0 <= i < |ps| ==> ps[i].playerId == pid;
    var i :| 0 <= i < |ps| && ps[i].playerId == pid;
    IncreasingIdsSpread(ps);
  }

  /**
    In a consistent database the snapshot of a freshly created room carries its
    code and lists exactly one player: the owner, with three cards (provided
    the owner has a user row, which the join with users requires).
   */
  lemma CreatedRoomListsOwner(s: State, ownerUserId: int, draws: seq<seq<int>>)
    requires Valid(s)
    requires |draws| == CodeAttempts && AllDraws(draws)
    requires CreateRoom(s, ownerUserId, draws).Ok?
    requires ownerUserId in s.users.rows
    ensures var (s', id, room) := CreateRoom(s, ownerUserId, draws).value;
            var st := GetRoomState(s', id);
            && st.Ok?
            && st.value.roomCode == room.code
            && |st.value.players| == 1
            && st.value.players[0].userId == ownerUserId
            && st.value.players[0].superCards == InitialSuperCards
  {
    var (s', id, room) := CreateRoom(s, ownerUserId, draws).value;
    var pid :| pid !in s.players.rows
      && s'.players.rows == s.players.rows[pid := Player(id, ownerUserId, InitialSuperCards)];
    assert forall q :: q in s.players.rows ==> s.players.rows[q].roomId != id;
    SoleMemberListed(s', id, pid);
  }

  /** Joining a second time is a no-op that returns the same membership. */
  lemma JoinIdempotent(s: State, code: string, userId: int)
    requires JoinRoom(s, code, userId).Ok?
    ensures var r := JoinRoom(s, code, userId).value;
            JoinRoom(r.0, code, userId) == Ok(r)
  {
    var r := JoinRoom(s, code, userId).value;
    assert RoomByCode(r.0, code) == RoomByCode(s, code);
    assert Membership(r.0, r.1, userId).Some?;
  }

  /** Adding a membership to an existing room keeps the database consistent. */
  lemma AddMemberValid(s: State, roomId: int, userId: int)
    requires Valid(s)
    requires roomId in s.rooms.rows
    ensures Valid(AddMember(s, roomId, userId).0)
  {
  }

  /** Opening a room whose code is unused keeps the database consistent. */
  lemma OpenRoomValid(s: State, room: Room)
    requires Valid(s)
    requires !CodeInUse(s, room.code)
    ensures Valid(OpenRoom(s, room).0)
  {
    var (rooms', id) := Insert(s.rooms, room);
    var s1 := s.(rooms := rooms');
    assert forall i :: i in s.rooms.rows ==> s.rooms.rows[i].code != room.code;
    assert UniqueCodes(s1.rooms.rows);
    assert Valid(s1);
    AddMemberValid(s1, id, room.ownerUserId);
  }

  /** Room creation keeps the database consistent. */
  lemma CreateRoomValid(s: State, ownerUserId: int, draws: seq<seq<int>>)
    requires Valid(s)
    requires |draws| == CodeAttempts && AllDraws(draws)
    ensures CreateRoom(s, ownerUserId, draws).Ok? ==> Valid(CreateRoom(s, ownerUserId, draws).value.0)
  {
    if CreateRoom(s, ownerUserId, draws).Ok? {
      OpenRoomValid(s, CreateRoom(s, ownerUserId, draws).value.2);
    }
  }

  lemma JoinRoomValid(s: State, code: string, userId: int)
    requires Valid(s)
    ensures JoinRoom(s, code, userId).Ok? ==> Valid(JoinRoom(s, code, userId).value.0)
  {
  }
}
