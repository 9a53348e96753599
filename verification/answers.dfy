/**
  Answers: `submit_answer` accepts one answer per (round, author) while the
  round is collecting; `get_answers` lists a round's answers and shows the
  author only for revealed ones.
 */
module Answers {
  import opened Tables
  import opened Store
  import opened Text

  const MaxAnswerLength: nat := 300

  /** The user already has an answer in the round. */
  predicate HasAnswered(s: State, roundId: int, userId: int)
  {
    exists id :: id in s.answers.rows && s.answers.rows[id].roundId == roundId && s.answers.rows[id].userId == userId
  }

  /**
    Stores the stripped text as an unrevealed answer. The checks run in the
    source's order: text bounds, round exists, round collecting, no earlier
    answer by the same user in the round (the `(round_id, user_id)` uniqueness
    constraint). The user is not checked against users or memberships.
   */
  function SubmitAnswer(s: State, roundId: int, userId: int, text: string): (r: Result<(State, int, Answer)>)
    ensures OutOfBounds(Strip(text), MaxAnswerLength) ==> r == Err(Validation)
    ensures !OutOfBounds(Strip(text), MaxAnswerLength) && roundId !in s.rounds.rows ==> r == Err(NotFound)
    ensures (!OutOfBounds(Strip(text), MaxAnswerLength) && roundId in s.rounds.rows
             && s.rounds.rows[roundId].status != Collecting) ==> r == Err(InvalidState)
    ensures (!OutOfBounds(Strip(text), MaxAnswerLength) && roundId in s.rounds.rows
             && s.rounds.rows[roundId].status == Collecting && HasAnswered(s, roundId, userId)) ==> r == Err(Conflict)
    ensures r.Ok? <==>
              && !OutOfBounds(Strip(text), MaxAnswerLength)
              && roundId in s.rounds.rows && s.rounds.rows[roundId].status == Collecting
              && !HasAnswered(s, roundId, userId)
    ensures r.Ok? ==>
              var (s', id, a) := r.value;
              && a == Answer(roundId, userId, Strip(text), false, None)
              && id !in s.answers.rows
              && s'.answers.rows == s.answers.rows[id := a]
              && s' == s.(answers := s'.answers)
  {
    var t := Strip(text);
    if OutOfBounds(t, MaxAnswerLength) then Err(Validation)
    else if roundId !in s.rounds.rows then Err(NotFound)
    else if s.rounds.rows[roundId].status != Collecting then Err(InvalidState)
    else if AnswerBy(s, roundId, userId).Some? then Err(Conflict)
    else
      var a := Answer(roundId, userId, t, false, None);
      var (answers', id) := Insert(s.answers, a);
      Ok((s.(answers := answers'), id, a))
  }

  /** One entry of `get_answers`: the author's name is present only once the answer is revealed. */
  datatype AnswerView = AnswerView(answerId: int, text: string, revealed: bool, authorDisplay: Option<string>)

  /** `v` shows answer row `v.answerId` of round `roundId` joined with its author's user row. */
  predicate ShowsAnswer(s: State, roundId: int, v: AnswerView)
  {
    && v.answerId in s.answers.rows
    && var a := s.answers.rows[v.answerId];
       && a.roundId == roundId
       && a.userId in s.users.rows
       && v.text == a.text
       && v.revealed == a.revealed
       && v.authorDisplay == (if a.revealed then Some(s.users.rows[a.userId].name) else None)
  }

  function AnswerViews(s: State, ids: seq<int>): (vs: seq<AnswerView>)
    requires forall i :: 0 <= i < |ids| ==> ids[i] in s.answers.rows && s.answers.rows[ids[i]].userId in s.users.rows
    ensures |vs| == |ids|
    ensures forall i :: 0 <= i < |vs| ==> vs[i].answerId == ids[i]
    ensures forall i :: 0 <= i < |vs| ==> ShowsAnswer(s, s.answers.rows[ids[i]].roundId, vs[i])
  {
    if |ids| == 0 then []
    else
      var a := s.answers.rows[ids[0]];
      var author := if a.revealed then Some(s.users.rows[a.userId].name) else None;
      [AnswerView(ids[0], a.text, a.revealed, author)] + AnswerViews(s, ids[1..])
  }

  /**
    The round's answers in ascending id order. Answers whose author has no
    user row are dropped by the join with users.
   */
  function GetAnswers(s: State, roundId: int): (vs: seq<AnswerView>)
    ensures forall i :: 0 <= i < |vs| ==> ShowsAnswer(s, roundId, vs[i])
    ensures forall i, j :: 0 <= i < j < |vs| ==> vs[i].answerId < vs[j].answerId
    ensures forall id ::
              (id in s.answers.rows && s.answers.rows[id].roundId == roundId
               && s.answers.rows[id].userId in s.users.rows) ==>
              exists i :: 0 <= i < |vs| && vs[i].answerId == id
    // anonymity: an author is named exactly for revealed answers
    ensures forall i :: 0 <= i < |vs| ==> (vs[i].authorDisplay.Some? <==> vs[i].revealed)
  {
    var ids := Select(s.answers, (a: Answer) => a.roundId == roundId && a.userId in s.users.rows);
    AnswerViews(s, ids)
  }

  lemma SubmitAnswerValid(s: State, roundId: int, userId: int, text: string)
    requires Valid(s)
    ensures SubmitAnswer(s, roundId, userId, text).Ok? ==> Valid(SubmitAnswer(s, roundId, userId, text).value.0)
  {
  }

  /**
    A second submission by the same user to the same round is rejected as a
    conflict, and the first answer stays as it was.
   */
  lemma SecondSubmissionConflicts(s: State, roundId: int, userId: int, text1: string, text2: string)
    requires SubmitAnswer(s, roundId, userId, text1).Ok?
    ensures var (s', id, a) := SubmitAnswer(s, roundId, userId, text1).value;
            var second := SubmitAnswer(s', roundId, userId, text2);
            && (second == Err(Conflict) || second == Err(Validation))
            && (!OutOfBounds(Strip(text2), MaxAnswerLength) ==> second == Err(Conflict))
            && s'.answers.rows[id] == a
  {
    var (s', id, a) := SubmitAnswer(s, roundId, userId, text1).value;
    assert HasAnswered(s', roundId, userId) by {
      assert s'.answers.rows[id].roundId == roundId && s'.answers.rows[id].userId == userId;
    }
  }

  /** A freshly submitted answer is listed unrevealed and without its author. */
  lemma SubmittedAnswerListedAnonymously(s: State, roundId: int, userId: int, text: string)
    requires SubmitAnswer(s, roundId, userId, text).Ok?
    requires userId in s.users.rows
    ensures var (s', id, a) := SubmitAnswer(s, roundId, userId, text).value;
            AnswerView(id, a.text, false, None) in GetAnswers(s', roundId)
  {
    var (s', id, a) := SubmitAnswer(s, roundId, userId, text).value;
    var vs := GetAnswers(s', roundId);
    assert s'.answers.rows[id].roundId == roundId && s'.answers.rows[id].userId in s'.users.rows;
    var i :| 0 <= i < |vs| && vs[i].answerId == id;
    assert vs[i] == AnswerView(id, a.text, false, None);
    assert vs[i] in vs;
  }
}
