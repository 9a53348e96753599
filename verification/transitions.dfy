/**
  The database as a state machine: every writing operation as one atomic
  step. A failing step leaves the state as it was (the transaction is rolled
  back), so a run of operations is a fold over the successful ones.
 */
module Transitions {
  import opened Store
  import Codes
  import Users
  import Rooms
  import Rounds
  import Answers
  import Reveals

  datatype Op =
    | UpsertUser(tg: string, name: string)
    | CreateRoom(owner: int, draws: seq<seq<int>>)
    | JoinRoom(code: string, user: int)
    | SetQuestion(room: int, text: string)
    | CloseRound(room: int)
    | SubmitAnswer(round: int, author: int, text: string)
    | RevealAnswer(round: int, answer: int, actor: int)

  /** The random source always supplies twenty full draws. */
  predicate WellFormed(op: Op)
  {
    op.CreateRoom? ==> |op.draws| == Codes.CodeAttempts && Rooms.AllDraws(op.draws)
  }

  /** One step: the operation's new state, or the old state when it fails. */
  function Apply(s: State, op: Op): State
    requires WellFormed(op)
  {
    match op
    case UpsertUser(tg, name) => Users.GetOrCreateUser(s, tg, name).0
    case CreateRoom(owner, draws) =>
      var r := Rooms.CreateRoom(s, owner, draws);
      if r.Ok? then r.value.0 else s
    case JoinRoom(code, user) =>
      var r := Rooms.JoinRoom(s, code, user);
      if r.Ok? then r.value.0 else s
    case SetQuestion(room, text) =>
      var r := Rounds.SetQuestion(s, room, text);
      if r.Ok? then r.value.0 else s
    case CloseRound(room) => Rounds.CloseRound(s, room)
    case SubmitAnswer(round, author, text) =>
      var r := Answers.SubmitAnswer(s, round, author, text);
      if r.Ok? then r.value.0 else s
    case RevealAnswer(round, answer, actor) =>
      var r := Reveals.RevealAnswer(s, round, answer, actor);
      if r.Ok? then r.value.0 else s
  }

  function Run(s: State, ops: seq<Op>): State
    requires forall i :: 0 <= i < |ops| ==> WellFormed(ops[i])
    decreases |ops|
  {
    if |ops| == 0 then s else Run(Apply(s, ops[0]), ops[1..])
  }

  /** Users are never deleted and keep their Telegram id; only the name may change. */
  predicate UsersEvolve(u: map<int, User>, u': map<int, User>)
  {
    forall id :: id in u ==> id in u' && u'[id].tgUserId == u[id].tgUserId
  }

  /** Rooms are never deleted or changed. */
  predicate RoomsEvolve(r: map<int, Room>, r': map<int, Room>)
  {
    forall id :: id in r ==> id in r' && r'[id] == r[id]
  }

  /** A membership keeps its room and user, and its balance never grows. */
  predicate PlayersEvolve(p: map<int, Player>, p': map<int, Player>)
  {
    forall id :: id in p ==>
      && id in p'
      && p'[id].roomId == p[id].roomId
      && p'[id].userId == p[id].userId
      && p'[id].superCards <= p[id].superCards
  }

  /** A round keeps its room and question and never returns to collecting. */
  predicate RoundsEvolve(r: map<int, Round>, r': map<int, Round>)
  {
    forall id :: id in r ==>
      && id in r'
      && r'[id].roomId == r[id].roomId
      && r'[id].question == r[id].question
      && (r[id].status == Discussion ==> r'[id].status == Discussion)
  }

  /** An answer keeps its round, author and text, and once revealed never changes again. */
  predicate AnswersEvolve(a: map<int, Answer>, a': map<int, Answer>)
  {
    forall id :: id in a ==>
      && id in a'
      && a'[id].roundId == a[id].roundId
      && a'[id].userId == a[id].userId
      && a'[id].text == a[id].text
      && (a[id].revealed ==> a'[id] == a[id])
  }

  /**
    How rows may change between two states: no row disappears, and each table
    changes only in the directions above.
   */
  predicate Evolves(s: State, s': State)
  {
    && UsersEvolve(s.users.rows, s'.users.rows)
    && RoomsEvolve(s.rooms.rows, s'.rooms.rows)
    && PlayersEvolve(s.players.rows, s'.players.rows)
    && RoundsEvolve(s.rounds.rows, s'.rounds.rows)
    && AnswersEvolve(s.answers.rows, s'.answers.rows)
  }

  /** A table left alone evolves trivially; so does a state (a failed step). */
  lemma EvolvesReflexive(s: State)
    ensures UsersEvolve(s.users.rows, s.users.rows)
    ensures RoomsEvolve(s.rooms.rows, s.rooms.rows)
    ensures PlayersEvolve(s.players.rows, s.players.rows)
    ensures RoundsEvolve(s.rounds.rows, s.rounds.rows)
    ensures AnswersEvolve(s.answers.rows, s.answers.rows)
    ensures Evolves(s, s)
  {
  }

  lemma EvolvesTransitive(s1: State, s2: State, s3: State)
    requires Evolves(s1, s2) && Evolves(s2, s3)
    ensures Evolves(s1, s3)
  {
  }

  /** Every step keeps the database consistent. */
  lemma ApplyValid(s: State, op: Op)
    requires Valid(s) && WellFormed(op)
    ensures Valid(Apply(s, op))
  {
    match op
    case UpsertUser(tg, name) => Users.GetOrCreateUserValid(s, tg, name);
    case CreateRoom(owner, draws) => Rooms.CreateRoomValid(s, owner, draws);
    case JoinRoom(code, user) => Rooms.JoinRoomValid(s, code, user);
    case SetQuestion(room, text) => Rounds.SetQuestionValid(s, room, text);
    case CloseRound(room) => Rounds.CloseRoundValid(s, room);
    case SubmitAnswer(round, author, text) => Answers.SubmitAnswerValid(s, round, author, text);
    case RevealAnswer(round, answer, actor) => Reveals.RevealValid(s, round, answer, actor);
  }

  lemma UpsertEvolves(s: State, tg: string, name: string)
    ensures Evolves(s, Apply(s, UpsertUser(tg, name)))
  {
    EvolvesReflexive(s);
  }

  lemma CreateRoomEvolves(s: State, owner: int, draws: seq<seq<int>>)
    requires |draws| == Codes.CodeAttempts && Rooms.AllDraws(draws)
    ensures Evolves(s, Apply(s, CreateRoom(owner, draws)))
  {
    EvolvesReflexive(s);
  }

  lemma JoinRoomEvolves(s: State, code: string, user: int)
    ensures Evolves(s, Apply(s, JoinRoom(code, user)))
  {
    EvolvesReflexive(s);
  }

  lemma SetQuestionEvolves(s: State, room: int, text: string)
    ensures Evolves(s, Apply(s, SetQuestion(room, text)))
  {
    EvolvesReflexive(s);
    var r := Rounds.SetQuestion(s, room, text);
    if r.Ok? {
      var closed := Rounds.CloseRound(s, room);
      assert RoundsEvolve(s.rounds.rows, closed.rounds.rows);
      assert RoundsEvolve(s.rounds.rows, r.value.0.rounds.rows);
    }
  }

  lemma CloseRoundEvolves(s: State, room: int)
    ensures Evolves(s, Apply(s, CloseRound(room)))
  {
    EvolvesReflexive(s);
  }

  lemma SubmitAnswerEvolves(s: State, round: int, author: int, text: string)
    ensures Evolves(s, Apply(s, SubmitAnswer(round, author, text)))
  {
    EvolvesReflexive(s);
  }

  lemma RevealAnswerEvolves(s: State, round: int, answer: int, actor: int)
    ensures Evolves(s, Apply(s, RevealAnswer(round, answer, actor)))
  {
    EvolvesReflexive(s);
    var r := Reveals.RevealAnswer(s, round, answer, actor);
    if r.Ok? {
      var s' := r.value.0;
      assert PlayersEvolve(s.players.rows, s'.players.rows);
      assert AnswersEvolve(s.answers.rows, s'.answers.rows);
    }
  }

  /** Every step only changes rows in the permitted directions. */
  lemma ApplyEvolves(s: State, op: Op)
    requires WellFormed(op)
    ensures Evolves(s, Apply(s, op))
  {
    match op
    case UpsertUser(tg, name) => UpsertEvolves(s, tg, name);
    case CreateRoom(owner, draws) => CreateRoomEvolves(s, owner, draws);
    case JoinRoom(code, user) => JoinRoomEvolves(s, code, user);
    case SetQuestion(room, text) => SetQuestionEvolves(s, room, text);
    case CloseRound(room) => CloseRoundEvolves(s, room);
    case SubmitAnswer(round, author, text) => SubmitAnswerEvolves(s, round, author, text);
    case RevealAnswer(round, answer, actor) => RevealAnswerEvolves(s, round, answer, actor);
  }

  /** Any run of operations from a consistent state keeps it consistent. */
  lemma {:induction false} RunValid(s: State, ops: seq<Op>)
    requires Valid(s)
    requires forall i :: 0 <= i < |ops| ==> WellFormed(ops[i])
    ensures Valid(Run(s, ops))
    decreases |ops|
  {
    if |ops| > 0 {
      ApplyValid(s, ops[0]);
      RunValid(Apply(s, ops[0]), ops[1..]);
    }
  }

  /**
    Over any run, revealed answers stay revealed, balances never grow and
    closed rounds never reopen.
   */
  lemma {:induction false} RunEvolves(s: State, ops: seq<Op>)
    requires forall i :: 0 <= i < |ops| ==> WellFormed(ops[i])
    ensures Evolves(s, Run(s, ops))
    decreases |ops|
  {
    if |ops| > 0 {
      ApplyEvolves(s, ops[0]);
      RunEvolves(Apply(s, ops[0]), ops[1..]);
      EvolvesTransitive(s, Apply(s, ops[0]), Run(Apply(s, ops[0]), ops[1..]));
    }
  }

  /** Every database built from the empty one by the operations is consistent. */
  lemma ReachableValid(s: State, ops: seq<Op>)
    requires s == Init()
    requires forall i :: 0 <= i < |ops| ==> WellFormed(ops[i])
    ensures Valid(Run(s, ops))
  {
    InitValid();
    RunValid(s, ops);
  }
}
