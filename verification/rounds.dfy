/**
  The question lifecycle of a room: `set_question` opens a collecting round,
  `close_round` moves the room's collecting round to discussion, and
  `get_current_question` reads the latest round.
 */
module Rounds {
  import opened Tables
  import opened Store
  import opened Text

  const MaxQuestionLength: nat := 200

  /** The room's latest round (largest id), if it has any: `ORDER BY id DESC LIMIT 1`. */
  function GetCurrentQuestion(s: State, roomId: int): (r: Option<(int, Round)>)
    ensures r.Some? ==> r.value.0 in s.rounds.rows && s.rounds.rows[r.value.0] == r.value.1
    ensures r.Some? ==> r.value.1.roomId == roomId
    ensures r.Some? ==> forall id :: id in s.rounds.rows && id > r.value.0 ==> s.rounds.rows[id].roomId != roomId
    ensures r.None? <==> forall id :: id in s.rounds.rows ==> s.rounds.rows[id].roomId != roomId
  {
    match FindLast(s.rounds, (rd: Round) => rd.roomId == roomId)
    case None => None
    case Some(id) => Some((id, s.rounds.rows[id]))
  }

  /** The row after `close_round`'s UPDATE for room `roomId`. */
  function CloseOne(rd: Round, roomId: int): Round
  {
    if rd.roomId == roomId && rd.status == Collecting then rd.(status := Discussion) else rd
  }

  /**
    `UPDATE rounds SET status='discussion' WHERE room_id=? AND status='collecting'`:
    afterwards no round of the room is collecting; rounds only ever move from
    collecting to discussion, and rounds of other rooms keep their rows.
   */
  function CloseRound(s: State, roomId: int): (s': State)
    ensures s' == s.(rounds := s'.rounds)
    ensures s'.rounds.rows.Keys == s.rounds.rows.Keys && s'.rounds.next == s.rounds.next
    ensures forall id :: id in s'.rounds.rows && s'.rounds.rows[id].roomId == roomId ==>
              s'.rounds.rows[id].status == Discussion
    ensures forall id :: id in s.rounds.rows && s.rounds.rows[id].roomId != roomId ==>
              s'.rounds.rows[id] == s.rounds.rows[id]
    ensures forall id :: id in s.rounds.rows ==>
              || s'.rounds.rows[id] == s.rounds.rows[id]
              || (s.rounds.rows[id].status == Collecting && s'.rounds.rows[id] == s.rounds.rows[id].(status := Discussion))
    ensures (forall id :: id in s.rounds.rows && s.rounds.rows[id].roomId == roomId ==>
               s.rounds.rows[id].status != Collecting) ==> s' == s
  {
    var rows := map id | id in s.rounds.rows :: CloseOne(s.rounds.rows[id], roomId);
    assert (forall id :: id in s.rounds.rows && s.rounds.rows[id].roomId == roomId ==>
              s.rounds.rows[id].status != Collecting) ==> rows == s.rounds.rows;
    s.(rounds := TableData(rows, s.rounds.next))
  }

  /**
    Opens a new collecting round with the stripped question text, after moving
    the room's collecting round to discussion. The room id is not checked.
   */
  function SetQuestion(s: State, roomId: int, text: string): (r: Result<(State, int, Round)>)
    ensures r.Err? <==> OutOfBounds(Strip(text), MaxQuestionLength)
    ensures r.Err? ==> r.error == Validation
    ensures r.Ok? ==>
              var (s', id, rd) := r.value;
              && rd == Round(roomId, Strip(text), Collecting)
              && id !in s.rounds.rows
              && (forall i :: i in s.rounds.rows ==> i < id)
              && s' == s.(rounds := s'.rounds)
              && s'.rounds.rows == CloseRound(s, roomId).rounds.rows[id := rd]
    // the new round is the only collecting round of the room, and the current one
    ensures r.Ok? ==>
              var (s', id, rd) := r.value;
              && (forall i ::
                    (i in s'.rounds.rows && s'.rounds.rows[i].roomId == roomId
                     && s'.rounds.rows[i].status == Collecting) ==> i == id)
              && GetCurrentQuestion(s', roomId) == Some((id, rd))
    ensures r.Ok? ==> forall i :: i in s.rounds.rows && s.rounds.rows[i].roomId != roomId ==>
              r.value.0.rounds.rows[i] == s.rounds.rows[i]
  {
    var q := Strip(text);
    if OutOfBounds(q, MaxQuestionLength) then Err(Validation)
    else
      var closed := CloseRound(s, roomId);
      var rd := Round(roomId, q, Collecting);
      var (rounds', id) := Insert(closed.rounds, rd);
      Ok((closed.(rounds := rounds'), id, rd))
  }

  lemma CloseRoundValid(s: State, roomId: int)
    requires Valid(s)
    ensures Valid(CloseRound(s, roomId))
  {
  }

  lemma SetQuestionValid(s: State, roomId: int, text: string)
    requires Valid(s)
    ensures SetQuestion(s, roomId, text).Ok? ==> Valid(SetQuestion(s, roomId, text).value.0)
  {
  }

  /** Closing twice is the same as closing once. */
  lemma CloseRoundIdempotent(s: State, roomId: int)
    ensures CloseRound(CloseRound(s, roomId), roomId) == CloseRound(s, roomId)
  {
  }
}
