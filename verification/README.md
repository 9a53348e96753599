# whois- game core in Dafny

A Dafny model of the core of the "whois" party game: a Telegram mini-app where
players join a room by code, the owner asks a question, everyone answers
anonymously, and players spend one of their three super-cards to reveal who
wrote an answer. The model covers:

- the database layer (`database/db.py`). Its five tables (users, rooms, room
  players, rounds, answers) form an immutable `State`, and every database
  function is a pure function on it. A writing function returns the new state
  or an `Error`. Because an error carries no state, a failing call changes
  nothing, which is how the source's transactions behave.
- the per-room connection registry of the live event stream (`api/ws.py`).
- the `escapeHtml` helper of the web client (`webapp/scripts/ui.js`).

Modules, one per file:

- **`Tables`** (tables.dfy) holds id-keyed tables. Ids are allocated in
  increasing order and never reused. Lookups scan ids in ascending order, so
  the row that `fetchone` returns and the order of an `ORDER BY id` listing
  are fixed.
- **`Text`** (text.dfy) defines Python's `str.strip()` with the `str.isspace`
  character set, and the emptiness and length bound on the stripped text.
- **`Codes`** (codes.dfy) defines room codes. The random picks of `_code` are
  an input, called a *draw*.
- **`Store`** (store.dfy) holds the rows, the error kinds, the shared lookups
  and the schema invariants, gathered in `Valid`.
- **`Users`**, **`Rooms`**, **`Rounds`**, **`Answers`** and **`Reveals`**
  hold the database functions, grouped as the source groups them.
- **`Transitions`** (transitions.dfy) treats the writing functions as one
  state machine. It proves that every reachable database is consistent and
  that history is one-way: revealed answers stay revealed, balances never
  grow and closed rounds never reopen.
- **`WsManager`** (ws_manager.dfy) is the connection registry.
- **`HtmlEscape`** (escape_html.dfy) is `escapeHtml`.

Some behaviour of the code is easy to miss. The model follows it:

- **The reveal card check.** A reveal is refused when the balance is `<= 0`,
  not only when it is `== 0` (database/db.py:242).
- **Foreign keys are not checked.** `set_question` does not check that the
  room exists (database/db.py:159-160). `submit_answer` does not check that
  the user exists or is a member (database/db.py:186-193). `create_room` does
  not check the owner (database/db.py:77). None of them fails in those cases.
- **Room players are listed in membership-id order.** The query orders by
  `joined_at` (database/db.py:132), which is not stored here. A membership's
  id grows with its join time, so id order stands in for it.
- **The `JOIN users` listings drop some rows.** In `get_room_state` and
  `get_answers`, memberships and answers whose user row is missing are
  omitted (database/db.py:130, 206).

## Model

| member | source | states |
|---|---|---|
| Codes.AlphabetByRanges | database/db.py:31 | the code alphabet has 36 characters: `A`–`Z` in order, then `0`–`9` |
| Codes.Code | database/db.py:30-32 | joining one alphabet character per pick gives a string as long as the draw, made only of upper-case letters and digits |
| Codes.DrawYieldsCode | database/db.py:30-32 | every six-pick draw yields a well-formed room code (six characters from `A`–`Z0`–`9`) |
| Codes.PicksOfCode | database/db.py:30-32 | a code determines the picks that produced it, so distinct draws give distinct codes |
| Codes.CodeOfPicks | database/db.py:30-32 | every string of code characters is produced by some draw, so any room code can come up |
| Text.Strip | database/db.py:153 | `strip()` returns a slice of the input with no whitespace at either end, and everything cut away is whitespace; the result is empty exactly when the input is all whitespace |
| Text.StripIdempotent | database/db.py:153 | stripping stripped text changes nothing |
| Users.GetOrCreateUser | database/db.py:36-54 | An existing Telegram id keeps its user id and row. Its name is replaced only by a non-empty, different name. Otherwise the state is unchanged. An unknown id gets a new row under a fresh id, named `User<tg id>` when no name is given. Only the users table changes. |
| Users.UserIdStable | database/db.py:40-50 | upserting the same Telegram id twice returns the same user id |
| Users.GetUserAfterUpsert | database/db.py:56-61 | reading the upserted user back by id returns the stored row with the expected name |
| Users.GetOrCreateUserValid | database/db.py:36-54 | upserting keeps Telegram ids unique and all other invariants |
| Store.InitValid | database/db.py:22-28 | the freshly initialised (empty) database satisfies every invariant |
| Store.MembershipUnique | database/db.py:235-239 | with unique memberships, the membership lookup finds the one row for the (room, user) pair |
| Store.UserByTelegramIdUnique | database/db.py:40-41 | with unique Telegram ids, the lookup by Telegram id finds the one user that has it |
| Store.RoomByCodeUnique | database/db.py:92-93 | with unique codes, the lookup by code finds the one room that has it |
| Rooms.FirstFreeDraw | database/db.py:70-76 | returns the first draw whose code no room uses, and every earlier draw collides; it returns nothing exactly when every draw collides |
| Rooms.AddMember | database/db.py:82-85 | `INSERT OR IGNORE` returns an existing membership unchanged, or adds one with 3 cards under a fresh id; only the room-players table changes |
| Rooms.OpenRoom | database/db.py:77-86 | inserts the room under a fresh id and leaves the owner a member. In a consistent database that membership is new and holds 3 cards. Existing memberships are untouched. |
| Rooms.CreateRoom | database/db.py:65-87 | Fails with `ResourceExhausted`, changing nothing, exactly when all 20 codes are taken. Otherwise the room is active, owned by the caller and carries a well-formed code. That code is the first free one and no other room uses it. |
| Rooms.GetRoomByCode | database/db.py:89-94 | finds the room with the code, and nothing exactly when no room uses the code |
| Rooms.CreatedRoomIsFound | database/db.py:89-101 | a created room is found again by its code and by its id |
| Rooms.JoinRoom | database/db.py:103-119 | `NotFound` exactly when no room has the code; `InvalidState` exactly when that room is not active. A repeated join changes nothing and returns the same membership with its balance. A first join adds a membership with 3 cards. |
| Rooms.JoinIdempotent | database/db.py:112-118 | joining a second time returns the same result and leaves the state as the first join left it |
| Rooms.GetRoomState | database/db.py:121-148 | `NotFound` exactly for an unknown room. Otherwise the snapshot gives the room's code and status and the room's latest round. It lists every membership of the room whose user exists, each with that user's name and balance, in ascending membership order. |
| Rooms.SoleMemberListed | database/db.py:128-134 | a room with a single membership lists exactly that player |
| Rooms.CreatedRoomListsOwner | tests/test_rooms.py:14-18 | the snapshot of a new room has its code and lists one player, the owner, with 3 cards |
| Rooms.AddMemberValid | database/db.py:112-115 | adding a membership to an existing room keeps memberships unique and the other invariants |
| Rooms.OpenRoomValid | database/db.py:77-86 | inserting a room with an unused code keeps codes unique and the other invariants |
| Rooms.CreateRoomValid | database/db.py:65-87 | room creation keeps the database consistent |
| Rooms.JoinRoomValid | database/db.py:103-119 | joining keeps the database consistent |
| Rounds.GetCurrentQuestion | database/db.py:165-170 | returns the room's round with the largest id, and nothing exactly when the room has no round |
| Rounds.CloseRound | database/db.py:172-175 | Afterwards no round of the room is collecting. A round changes only from collecting to discussion, and other rooms' rounds keep their rows. The call is a no-op when nothing was collecting. |
| Rounds.CloseRoundIdempotent | database/db.py:172-175 | closing twice is the same as closing once |
| Rounds.SetQuestion | database/db.py:152-163 | Fails with `Validation` exactly when the stripped text is empty or longer than 200. Otherwise it closes the room's rounds and appends a collecting round with the stripped text. That round is the room's only collecting round and its current question, and other rooms' rounds are untouched. |
| Rounds.CloseRoundValid | database/db.py:172-175 | closing keeps at most one collecting round per room |
| Rounds.SetQuestionValid | database/db.py:152-163 | asking a question keeps at most one collecting round per room and the other invariants |
| Answers.SubmitAnswer | database/db.py:179-198 | The checks fail in the source's order with `Validation`, `NotFound`, `InvalidState`, then `Conflict` for a second answer. It succeeds exactly when all pass. The stripped text is then stored unrevealed under a fresh id, and only the answers table changes. |
| Answers.SecondSubmissionConflicts | database/db.py:192-196 | a second submission by the same user to the same round is rejected and the first answer is kept |
| Answers.GetAnswers | database/db.py:200-210 | Lists the round's answers whose author exists, in ascending id order. Each shows its stored text and revealed flag. The author's name is shown exactly for revealed answers. |
| Answers.SubmittedAnswerListedAnonymously | tests/test_answers.py:15-20 | a freshly submitted answer is listed unrevealed and without its author |
| Answers.SubmitAnswerValid | database/db.py:179-198 | submitting keeps one answer per (round, author) and the other invariants |
| Reveals.RevealAnswer | database/db.py:214-256 | The guards fail in the source's order: answer not in round, already revealed, round missing, own answer, not a member, no card left. On success exactly two rows change. The actor's balance drops by one and the answer becomes revealed by the actor. The author's name is returned when the author has a user row. |
| Reveals.RevealSucceedsIff | database/db.py:219-244 | in a consistent database a reveal succeeds exactly when the answer is in the round and unrevealed, the round exists, the actor is not the author and has a membership in the room with a positive balance |
| Reveals.SecondRevealConflicts | database/db.py:223-224 | revealing an answer again fails with `Conflict`, whoever asks |
| Reveals.OwnAnswerForbidden | database/db.py:230-231 | revealing one's own answer fails with `Forbidden` |
| Reveals.RevealValid | database/db.py:242-246 | a reveal keeps every balance non-negative and records who revealed |
| Reveals.RevealedAnswerListedWithAuthor | database/db.py:204-206 | after a reveal the answer listing names the author of that answer |
| Transitions.ApplyValid | database/db.py:36-256 | every database function keeps the database consistent |
| Transitions.ApplyEvolves | database/db.py:36-256 | No step deletes a row, changes a room, moves a membership or raises a balance. No step reopens a round, or alters an answer's round, author or text. A revealed answer never changes. |
| Transitions.RunValid | database/db.py:36-256 | any sequence of calls from a consistent database leaves it consistent |
| Transitions.RunEvolves | database/db.py:36-256 | over any sequence of calls, revealed answers stay revealed, balances never grow and rounds never reopen |
| Transitions.ReachableValid | database/db.py:22-28 | every database built from the empty one by the functions is consistent |
| WsManager.NewRegistry | api/ws.py:8-9 | a new registry has no subscribers in any room and keeps no empty entry |
| WsManager.Connect | api/ws.py:11-13 | adds the connection to the room's set, creating it when needed; other rooms keep their entries |
| WsManager.Discard | api/ws.py:15-21 | removes the connection and drops the room's entry once empty. A room without an entry is left as it was, and so is a connection not in the room (when no room maps to an empty set). Other rooms keep their entries. |
| WsManager.Disconnect | api/ws.py:23-24 | the connection is no longer subscribed to the room and nothing else changes |
| WsManager.Broadcast | api/ws.py:26-34 | Sends to every subscriber of the room. The connections whose send failed are then removed, and the room's entry goes when none remain. The result equals the one-step definition `Pruned`, and nothing changes when no send fails. |
| WsManager.BroadcastToEmptyRoom | api/ws.py:28 | broadcasting to a room with no subscribers changes nothing |
| WsManager.ConnectThenDiscard | api/ws.py:11-21 | connecting a new connection and then discarding it restores the registry |
| HtmlEscape.Escape | webapp/scripts/ui.js:84-86 | the output contains no `<`, `>`, `"` or `'` |
| HtmlEscape.EscapeLength | webapp/scripts/ui.js:84-86 | each `&`, `<`, `>`, `"`, `'` lengthens the text by exactly its entity's extra characters (4, 3, 3, 5, 4) |
| HtmlEscape.EscapePlain | webapp/scripts/ui.js:84 | text without those five characters comes back unchanged |
| HtmlEscape.UnescapeEscape | webapp/scripts/ui.js:84-86 | decoding the five entities gives back the original text, so escaping loses nothing |
| HtmlEscape.EscapeConcat | webapp/scripts/ui.js:84 | escaping works character by character: the escape of a concatenation is the concatenation of the escapes |
| HtmlEscape.SinglePass | webapp/scripts/ui.js:84-86 | inserted entities are not escaped again: `&` gives `&amp;`, not `&amp;amp;` |
| HtmlEscape.EscapeHtml | webapp/scripts/ui.js:83-87 | `null` or `undefined` gives the empty string; a string gives its escape, which decodes back to it |

## Left out

- Storage and I/O are not modelled. That covers the SQLite connection, `set_db_path`, `ensure_initialized`'s schema script, commits and the command-line entry point. The database is a value and each function is one atomic step.
- Concurrency is not modelled: overlapping calls and SQLite's locking. Every call runs alone, so the guarded `super_cards>0` decrement acts exactly like the check before it.
- Randomness: `random.choice` in `_code` becomes a parameter. `CreateRoom` receives the twenty six-pick draws its attempts would make.
- Timestamps (`created_at`, `joined_at`) are not stored. Id order stands in for time order, since ids grow with insertion.
- `(text or "")` treats a missing text as empty. The model takes strings only, so a missing text is the empty string, which fails validation.
- Reveals.RevealAnswer: the final read of `reveal_answer` is not fully modelled. When the answer's author has no user row, the source commits the reveal and then raises `TypeError`. The model reports that case as a success with no author name.
- The `ws_room` receive loop is left out, as are the handshake in `connect` and the JSON encoding of broadcast messages. Network I/O is represented by the set of connections whose send fails.
- Only `escapeHtml` is modelled from the client, and for strings and `null`/`undefined` only. It works on characters, which matches JavaScript's UTF-16 units for the five characters it replaces. A non-string argument is not covered.
- The HTTP routes, the bot handlers, configuration and the rest of the web client are not part of this model.
- The database has no operation that closes a room, so `Closed` rooms arise only from outside the functions modelled.
- Rooms.CreateRoom: the fact that the owner's membership is new and holds 3 cards holds only when the database is consistent (`Valid`). The source promises it unconditionally, but an inconsistent database could already hold a membership for the fresh room id.
- Rooms.GetRoomById and Users.GetUserById are plain lookups with no contract of their own. Their results are pinned down by `Rooms.CreatedRoomIsFound` and `Users.GetUserAfterUpsert`.
