/**
  Users are keyed by their Telegram id: `get_or_create_user` upserts,
  `get_user_by_id` reads.
 */
module Users {
  import opened Tables
  import opened Store

  /** The name a user gets when none is supplied: `f"User{tg_user_id}"`. */
  function DefaultName(tg: string): string
  {
    "User" + tg
  }

  /**
    Finds the user with this Telegram id, renaming it when a non-empty,
    different name is given, or creates it. Returns the new state, the user
    id and the stored row.
   */
  function GetOrCreateUser(s: State, tg: string, name: string): (r: (State, int, User))
    ensures r.1 in r.0.users.rows && r.0.users.rows[r.1] == r.2
    ensures r.2.tgUserId == tg
    ensures r.0 == s.(users := r.0.users)
    // an existing user keeps its id; only its name can change
    ensures UserByTelegramId(s, tg).Some? ==>
              && r.1 == UserByTelegramId(s, tg).value
              && r.0.users.rows == s.users.rows[r.1 := r.2]
              && r.2.name == (if name == "" then s.users.rows[r.1].name else name)
    ensures UserByTelegramId(s, tg).Some? && (name == "" || name == s.users.rows[r.1].name) ==> r.0 == s
    // otherwise a new row under a fresh id
    ensures UserByTelegramId(s, tg).None? ==>
              && r.1 !in s.users.rows
              && r.0.users.rows == s.users.rows[r.1 := r.2]
              && r.2.name == (if name == "" then DefaultName(tg) else name)
  {
    match UserByTelegramId(s, tg)
    case Some(id) =>
      var row := s.users.rows[id];
      if name != "" && row.name != name then
        var row' := row.(name := name);
        (s.(users := Update(s.users, id, row')), id, row')
      else
        (s, id, row)
    case None =>
      var row := User(tg, if name == "" then DefaultName(tg) else name);
      var (users', id) := Insert(s.users, row);
      (s.(users := users'), id, row)
  }

  function GetUserById(s: State, userId: int): Option<User>
  {
    if userId in s.users.rows then Some(s.users.rows[userId]) else None
  }

  /** The same Telegram id always yields the same user id. */
  lemma UserIdStable(s: State, tg: string, name1: string, name2: string)
    ensures var r1 := GetOrCreateUser(s, tg, name1);
            GetOrCreateUser(r1.0, tg, name2).1 == r1.1
  {
  }

  /** Reading back an upserted user by id gives the stored row. */
  lemma GetUserAfterUpsert(s: State, tg: string, name: string)
    ensures var r := GetOrCreateUser(s, tg, name);
            GetUserById(r.0, r.1) == Some(r.2)
            && r.2.name == (if name != "" then name
                            else if UserByTelegramId(s, tg).Some? then s.users.rows[r.1].name
                            else DefaultName(tg))
  {
  }

  lemma GetOrCreateUserValid(s: State, tg: string, name: string)
    requires Valid(s)
    ensures Valid(GetOrCreateUser(s, tg, name).0)
  {
  }
}
