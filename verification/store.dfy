/**
  The game database as an immutable value: the five tables `users`, `rooms`,
  `room_players`, `rounds` and `answers`, the error kinds the database
  functions raise, and the invariants the schema and the functions keep.

  Foreign keys are not enforced (SQLite's default): a row may name a room,
  round or user id that has no row, exactly where the functions do not check.
 */
module Store {
  import opened Tables

  datatype User = User(tgUserId: string, name: string)

  datatype RoomStatus = Active | Closed

  datatype Room = Room(code: string, ownerUserId: int, status: RoomStatus)

  /** A `room_players` row: one membership with its super-card balance. */
  datatype Player = Player(roomId: int, userId: int, superCards: int)

  datatype RoundStatus = Collecting | Discussion

  datatype Round = Round(roomId: int, question: string, status: RoundStatus)

  datatype Answer = Answer(roundId: int, userId: int, text: string, revealed: bool, revealedBy: Option<int>)

  datatype State = State(
    users: Table<User>,
    rooms: Table<Room>,
    players: Table<Player>,
    rounds: Table<Round>,
    answers: Table<Answer>)

  /**
    The source raises `ValueError` (and once `RuntimeError`) with a message per
    failing check; each check is classified here by what it rejects.
   */
  datatype Error =
    | Validation        // empty or over-long text
    | NotFound          // no such room, round or answer
    | InvalidState      // room not active, round not collecting
    | Conflict          // second answer in a round, second reveal
    | Forbidden         // own answer, not a member, no super-cards left
    | ResourceExhausted // no free room code in the allotted attempts

  datatype Result<T> = Ok(value: T) | Err(error: Error)

  /** The state of a freshly initialised database. */
  function Init(): (s: State)
    ensures s.users.rows == map[] && s.rooms.rows == map[] && s.players.rows == map[]
    ensures s.rounds.rows == map[] && s.answers.rows == map[]
  {
    State(Empty(), Empty(), Empty(), Empty(), Empty())
  }

  /** Cards every new membership starts with. */
  const InitialSuperCards: int := 3

  // ---- Invariants --------------------------------------------------------

  // Each invariant takes only the tables it constrains, so an operation that
  // leaves a table alone keeps that table's invariants without further proof.

  /** `users.tg_user_id` is unique. */
  predicate UniqueTelegramIds(users: map<int, User>)
  {
    forall i, j :: (i in users && j in users && users[i].tgUserId == users[j].tgUserId) ==> i == j
  }

  /** `rooms.code` is unique. */
  predicate UniqueCodes(rooms: map<int, Room>)
  {
    forall i, j :: (i in rooms && j in rooms && rooms[i].code == rooms[j].code) ==> i == j
  }

  /** One membership per (room, user). */
  predicate UniqueMemberships(players: map<int, Player>)
  {
    forall i, j ::
      (i in players && j in players
         && players[i].roomId == players[j].roomId && players[i].userId == players[j].userId)
      ==> i == j
  }

  /** Memberships are only created for rooms that exist. */
  predicate MembershipsInRooms(players: map<int, Player>, roomIds: set<int>)
  {
    forall i :: i in players ==> players[i].roomId in roomIds
  }

  predicate CardsNonNegative(players: map<int, Player>)
  {
    forall i :: i in players ==> players[i].superCards >= 0
  }

  /** At most one round of a room is collecting answers. */
  predicate OneCollectingPerRoom(rounds: map<int, Round>)
  {
    forall i, j ::
      (i in rounds && j in rounds && rounds[i].roomId == rounds[j].roomId
         && rounds[i].status == Collecting && rounds[j].status == Collecting)
      ==> i == j
  }

  /** One answer per (round, author). */
  predicate OneAnswerPerAuthor(answers: map<int, Answer>)
  {
    forall i, j ::
      (i in answers && j in answers
         && answers[i].roundId == answers[j].roundId && answers[i].userId == answers[j].userId)
      ==> i == j
  }

  /** Answers are only accepted for rounds that exist. */
  predicate AnswersInRounds(answers: map<int, Answer>, roundIds: set<int>)
  {
    forall i :: i in answers ==> answers[i].roundId in roundIds
  }

  /** An answer records who revealed it exactly when it is revealed. */
  predicate RevealsRecorded(answers: map<int, Answer>)
  {
    forall i :: i in answers ==> (answers[i].revealed <==> answers[i].revealedBy.Some?)
  }

  predicate Valid(s: State)
  {
    && UniqueTelegramIds(s.users.rows)
    && UniqueCodes(s.rooms.rows)
    && UniqueMemberships(s.players.rows)
    && MembershipsInRooms(s.players.rows, s.rooms.rows.Keys)
    && CardsNonNegative(s.players.rows)
    && OneCollectingPerRoom(s.rounds.rows)
    && OneAnswerPerAuthor(s.answers.rows)
    && AnswersInRounds(s.answers.rows, s.rounds.rows.Keys)
    && RevealsRecorded(s.answers.rows)
  }

  lemma InitValid()
    ensures Valid(Init())
  {
  }

  // ---- Lookups shared by the operations ----------------------------------

  function UserByTelegramId(s: State, tg: string): (r: Option<int>)
    ensures r.Some? ==> r.value in s.users.rows && s.users.rows[r.value].tgUserId == tg
    ensures r.None? ==> forall id :: id in s.users.rows ==> s.users.rows[id].tgUserId != tg
  {
    FindFirst(s.users, (u: User) => u.tgUserId == tg)
  }

  /** Some existing room already has this code. */
  predicate CodeInUse(s: State, code: string)
  {
    exists id :: id in s.rooms.rows && s.rooms.rows[id].code == code
  }

  function RoomByCode(s: State, code: string): (r: Option<int>)
    ensures r.Some? ==> r.value in s.rooms.rows && s.rooms.rows[r.value].code == code
    ensures r.None? ==> forall id :: id in s.rooms.rows ==> s.rooms.rows[id].code != code
    ensures r.None? <==> !CodeInUse(s, code)
  {
    FindFirst(s.rooms, (rm: Room) => rm.code == code)
  }

  function Membership(s: State, roomId: int, userId: int): (r: Option<int>)
    ensures r.Some? ==> (r.value in s.players.rows
      && s.players.rows[r.value].roomId == roomId && s.players.rows[r.value].userId == userId)
    ensures r.None? ==> forall id :: id in s.players.rows ==>
      !(s.players.rows[id].roomId == roomId && s.players.rows[id].userId == userId)
  {
    FindFirst(s.players, (p: Player) => p.roomId == roomId && p.userId == userId)
  }

  function AnswerBy(s: State, roundId: int, userId: int): (r: Option<int>)
    ensures r.Some? ==> (r.value in s.answers.rows
      && s.answers.rows[r.value].roundId == roundId && s.answers.rows[r.value].userId == userId)
    ensures r.None? ==> forall id :: id in s.answers.rows ==>
      !(s.answers.rows[id].roundId == roundId && s.answers.rows[id].userId == userId)
  {
    FindFirst(s.answers, (a: Answer) => a.roundId == roundId && a.userId == userId)
  }

  /** Under the uniqueness invariants a lookup finds the only matching row. */
  lemma MembershipUnique(s: State, roomId: int, userId: int, pid: int)
    requires UniqueMemberships(s.players.rows)
    requires pid in s.players.rows && s.players.rows[pid].roomId == roomId && s.players.rows[pid].userId == userId
    ensures Membership(s, roomId, userId) == Some(pid)
  {
  }

  lemma UserByTelegramIdUnique(s: State, tg: string, uid: int)
    requires UniqueTelegramIds(s.users.rows)
    requires uid in s.users.rows && s.users.rows[uid].tgUserId == tg
    ensures UserByTelegramId(s, tg) == Some(uid)
  {
  }

  lemma RoomByCodeUnique(s: State, code: string, rid: int)
    requires UniqueCodes(s.rooms.rows)
    requires rid in s.rooms.rows && s.rooms.rows[rid].code == code
    ensures RoomByCode(s, code) == Some(rid)
  {
  }
}
