/**
  `reveal_answer`: spend one super-card to reveal who wrote an answer. All the
  checks and both updates form one transaction, so a failure leaves the
  database as it was.
 */
module Reveals {
  import opened Tables
  import opened Store
  import Answers

  /** What the reveal returns: the answer id and its author's name (`None` when the author has no user row). */
  datatype Revealed = Revealed(answerId: int, authorDisplay: Option<string>)

  /** The membership of `actor` in the room that owns round `roundId`, if any. */
  function ActorMembership(s: State, roundId: int, actor: int): Option<int>
    requires roundId in s.rounds.rows
  {
    Membership(s, s.rounds.rows[roundId].roomId, actor)
  }

  /**
    Reveals answer `answerId` of round `roundId` for `actor`. The guards run in
    the source's order: the answer is in the round, it is not yet revealed, the
    round exists, the actor did not write it, the actor is a member of the
    round's room, and the actor has a card left. On success exactly two rows
    change: the actor's card balance drops by one and the answer is marked
    revealed by the actor.
   */
  function RevealAnswer(s: State, roundId: int, answerId: int, actor: int): (r: Result<(State, Revealed)>)
    ensures !(answerId in s.answers.rows && s.answers.rows[answerId].roundId == roundId) ==> r == Err(NotFound)
    ensures answerId in s.answers.rows && s.answers.rows[answerId].roundId == roundId ==>
              var a := s.answers.rows[answerId];
              && (a.revealed ==> r == Err(Conflict))
              && (!a.revealed && roundId !in s.rounds.rows ==> r == Err(NotFound))
              && (!a.revealed && roundId in s.rounds.rows && a.userId == actor ==> r == Err(Forbidden))
              && (!a.revealed && roundId in s.rounds.rows && a.userId != actor ==>
                    match ActorMembership(s, roundId, actor)
                    case None => r == Err(Forbidden)
                    case Some(pid) =>
                      && (s.players.rows[pid].superCards <= 0 ==> r == Err(Forbidden))
                      && (s.players.rows[pid].superCards > 0 ==> r.Ok?))
    ensures r.Ok? ==>
              && answerId in s.answers.rows && roundId in s.rounds.rows
              && ActorMembership(s, roundId, actor).Some?
              && var a := s.answers.rows[answerId];
                 var pid := ActorMembership(s, roundId, actor).value;
                 var p := s.players.rows[pid];
                 var s' := r.value.0;
                 && p.superCards > 0
                 && s'.players.rows == s.players.rows[pid := p.(superCards := p.superCards - 1)]
                 && s'.answers.rows == s.answers.rows[answerId := a.(revealed := true, revealedBy := Some(actor))]
                 && s' == s.(players := s'.players, answers := s'.answers)
                 && r.value.1.answerId == answerId
                 && r.value.1.authorDisplay == (if a.userId in s.users.rows then Some(s.users.rows[a.userId].name) else None)
  {
    if answerId !in s.answers.rows || s.answers.rows[answerId].roundId != roundId then Err(NotFound)
    else
      var a := s.answers.rows[answerId];
      if a.revealed then Err(Conflict)
      else if roundId !in s.rounds.rows then Err(NotFound)
      else if a.userId == actor then Err(Forbidden)
      else
        match ActorMembership(s, roundId, actor)
        case None => Err(Forbidden)
        case Some(pid) =>
          var p := s.players.rows[pid];
          if p.superCards <= 0 then Err(Forbidden)
          else
            var players' := Update(s.players, pid, p.(superCards := p.superCards - 1));
            var answers' := Update(s.answers, answerId, a.(revealed := true, revealedBy := Some(actor)));
            var s' := s.(players := players', answers := answers');
            var author := if a.userId in s'.users.rows then Some(s'.users.rows[a.userId].name) else None;
            Ok((s', Revealed(answerId, author)))
  }

  /** Reveal is allowed: stated from the tables directly, without the lookups the operation uses. */
  predicate CanReveal(s: State, roundId: int, answerId: int, actor: int)
  {
    && answerId in s.answers.rows
    && s.answers.rows[answerId].roundId == roundId
    && !s.answers.rows[answerId].revealed
    && roundId in s.rounds.rows
    && s.answers.rows[answerId].userId != actor
    && exists pid :: pid in s.players.rows
         && s.players.rows[pid].roomId == s.rounds.rows[roundId].roomId
         && s.players.rows[pid].userId == actor
         && s.players.rows[pid].superCards > 0
  }

  /** In a consistent database a reveal succeeds exactly when every guard passes. */
  lemma RevealSucceedsIff(s: State, roundId: int, answerId: int, actor: int)
    requires Valid(s)
    ensures RevealAnswer(s, roundId, answerId, actor).Ok? <==> CanReveal(s, roundId, answerId, actor)
  {
    if CanReveal(s, roundId, answerId, actor) {
      var pid :| pid in s.players.rows
         && s.players.rows[pid].roomId == s.rounds.rows[roundId].roomId
         && s.players.rows[pid].userId == actor
         && s.players.rows[pid].superCards > 0;
      MembershipUnique(s, s.rounds.rows[roundId].roomId, actor, pid);
    }
  }

  /** Revealing the same answer again fails with `Conflict`. */
  lemma SecondRevealConflicts(s: State, roundId: int, answerId: int, actor: int, actor2: int)
    requires RevealAnswer(s, roundId, answerId, actor).Ok?
    ensures RevealAnswer(RevealAnswer(s, roundId, answerId, actor).value.0, roundId, answerId, actor2) == Err(Conflict)
  {
  }

  /** Nobody can reveal their own answer, whatever their balance. */
  lemma OwnAnswerForbidden(s: State, roundId: int, answerId: int, actor: int)
    requires answerId in s.answers.rows && s.answers.rows[answerId].roundId == roundId
    requires !s.answers.rows[answerId].revealed && roundId in s.rounds.rows
    requires s.answers.rows[answerId].userId == actor
    ensures RevealAnswer(s, roundId, answerId, actor) == Err(Forbidden)
  {
  }

  /** A reveal keeps the database consistent; in particular no balance drops below zero. */
  lemma RevealValid(s: State, roundId: int, answerId: int, actor: int)
    requires Valid(s)
    ensures RevealAnswer(s, roundId, answerId, actor).Ok? ==> Valid(RevealAnswer(s, roundId, answerId, actor).value.0)
  {
  }

  /** After a successful reveal the listing names the author of that answer. */
  lemma RevealedAnswerListedWithAuthor(s: State, roundId: int, answerId: int, actor: int)
    requires RevealAnswer(s, roundId, answerId, actor).Ok?
    requires s.answers.rows[answerId].userId in s.users.rows
    ensures var s' := RevealAnswer(s, roundId, answerId, actor).value.0;
            var a := s.answers.rows[answerId];
            Answers.AnswerView(answerId, a.text, true, Some(s.users.rows[a.userId].name)) in Answers.GetAnswers(s', roundId)
  {
    var s' := RevealAnswer(s, roundId, answerId, actor).value.0;
    var vs := Answers.GetAnswers(s', roundId);
    assert s'.answers.rows[answerId].roundId == roundId;
    var i :| 0 <= i < |vs| && vs[i].answerId == answerId;
    assert vs[i] in vs;
  }
}
