# Four-in-a-row game core, modelled in Dafny

This project models the in-memory game logic of a real-time "4 in a row"
server (a connect-four variant played over sockets) and proves properties
of that model. Four pieces are covered:

- **The board engine and turn machine** (`src/game/gameManager.js`) in
  `board.dfy` and `games.dfy`. The board is a 6 × 7 grid. Row 0 is the top.
  A cell holds 0 when empty and 1 or 2 for a player's mark. The model covers
  the gravity drop, the four-direction win scan, the full-board draw test,
  `handleMove`, `startGame`, the bot's column choice and `handleDisconnect`.
- **The session registry** (`backend/src/game/sessionManager.js`) in
  `sessions.dfy`. It is a map with one entry per username. The clock is an
  explicit `now` argument. The grace timer armed by `markDisconnected` is a
  flag plus a `GraceExpired` event.
- **The single-slot matchmaking queue**, in two versions:
  - `matchmaking.dfy` models `backend/src/matchmaking/matchmaking.js`. It has
    the admission lock and uses the session registry.
  - `bare_matchmaking.dfy` models `src/matchmaking/matchmaking.js`. It starts
    games directly in the modelled game manager.

  In both, the fallback timer and the waiting socket's disconnect are
  explicit events.
- **The analytics reducer** (`processEvent` of both
  `kafka/analyticsService.js` copies) in `analytics.dfy`. It takes an event
  and returns the new metrics and whether a snapshot save starts.

`base.dfy` holds the shared vocabulary. `Option` stands for `null`. Game ids
are non-empty strings (uuids), so "present" and "truthy" mean the same
thing.

Each operation is also tied to an independent statement of what it should do:
- the win scan is proved equal to a declarative "four in a line" definition;
- the draw test is proved equal to "42 occupied cells";
- the bot's candidate columns are proved to be exactly the droppable columns;
- session, queue and metrics invariants are proved over any sequence of events;
- the snapshot rule is proved over a stream: an event starts a snapshot save iff its logging succeeds and the saved games so far reach a multiple of five;
- each fallback timer is proved a no-op once its waiting player has been paired; in `src/matchmaking/matchmaking.js` the bot game the timer starts is also proved open to the human's first move at once.

## Source behaviour worth knowing

The model follows the code in each of these points.

- In `src/matchmaking/matchmaking.js` the player who joins second becomes
  seat 0 and moves first. The waiting player gets seat 1. The backend
  handler does it the other way round.
- The backend handler does not check that the waiting username differs
  from the joiner's, so a user who joins from a second tab is paired with
  themselves (`Matchmaking.SecondTabPairsWithItself`).
- The backend fallback timer tests only the username in the waiting slot.
  A timer armed by an earlier join on one socket still fires when the same
  user waits again on another socket, and it starts the bot game on the
  earlier socket (`Matchmaking.StaleFallbackUsesOldSocket`).
- `reconnect` does not check that the session is logged out. Inside the
  window it rebinds any session, including a live one.
- `setInGame` cancels a pending grace timer without logging the user in. A
  disconnected user who is then put into a game is therefore never purged by
  the grace timer.
  Re-registering from the same socket does not cancel the timer, but the
  timer then finds the user logged in and does nothing.
- `handleDisconnect` in `src/game/gameManager.js` ends the game at once,
  with no grace period or forfeit timer.
- The session windows are asymmetric. `register` and `reconnect` accept a
  user exactly 30000 ms after they were last seen, and the timer purges at
  exactly 30000 ms as well.

## Model

| member | source | states |
|---|---|---|
| Board.ScanUp | src/game/gameManager.js:74-79 | the row found is the lowest empty cell of the column at or above the start row; every row below it is occupied; -1 when there is none |
| Board.DropDisc | src/game/gameManager.js:73-81 | on success the mark lands in the lowest empty cell of the column, which was 0, and every cell below it was occupied; -1 with the board unchanged exactly when the column is full or outside 0..6 |
| Board.DropAddsOneDisc | src/game/gameManager.js:73-80 | a successful drop of a non-zero mark raises the number of occupied cells by exactly one |
| Board.DropChangesOneCell | src/game/gameManager.js:73-80 | a successful drop changes exactly one cell, from 0 to the mark |
| Board.DropKeepsShape | src/game/gameManager.js:73-80 | dropping a mark keeps a stacked board stacked (no empty cell under a disc) and keeps every cell in {0,1,2} |
| Board.CheckWinSpec | src/game/gameManager.js:83-102 | the row/column/direction scan with its run counter returns true iff four in-bounds cells in a line in one of the directions (1,0),(0,1),(1,1),(1,-1) all hold the mark |
| Board.CheckWinSeesOnlyMark | src/game/gameManager.js:83-102 | two boards that agree on which cells hold v give the same `checkWin(b, v)`; cells holding other values never matter |
| Board.FewMarksNoWin | src/game/gameManager.js:83-102 | a board holding fewer than four cells of mark v never wins for v |
| Board.DrawIffFull | src/game/gameManager.js:104-106 | `isDraw` holds iff all 42 cells are occupied, and never more than 42 are |
| Board.ValidColumns | src/game/gameManager.js:111-112 | the candidate columns are exactly the columns whose top cell is empty, in increasing order |
| Board.ValidColumnsAreDroppable | src/game/gameManager.js:108-116 | on a stacked board a column is a bot candidate iff a drop into it succeeds |
| Games.StartGame | src/game/gameManager.js:6-36 | a new game under the fresh id with an empty, valid board, seat 0 to move, exactly two seats with the bot second in a bot game; other games unchanged |
| Games.PlayerIndex | src/game/gameManager.js:42-44 | the first seat whose id equals the socket id, or -1 when no seat has it |
| Games.HandleMove | src/game/gameManager.js:38-71 | a move is taken iff the game exists, the sender's seat holds the turn and the column has room; otherwise nothing changes; win is reported before draw and both delete the game; otherwise the turn flips and stays in {0,1}; no other game changes |
| Games.QuietMove | src/game/gameManager.js:38-71 | while the mover holds fewer than three discs and the board has at least two empty cells, a move on the turn into an open column only places the disc at the lowest empty cell and passes the turn; the game goes on |
| Games.VerticalWinScenario | src/game/gameManager.js:6-71 | from a fresh two-player game, alternating drops into columns 0 and 1 give six continuing moves, then the first player's fourth disc wins, names them as winner and removes the game |
| Games.AcceptedMoveAddsMoversDisc | src/game/gameManager.js:47-66 | a continuing move adds exactly one disc, the mover's mark, to a cell that was empty, flips the turn and keeps the seats |
| Games.MoveKeepsGamesValid | src/game/gameManager.js:38-71 | every move keeps every live game's board a stack of marks with the turn in {0,1} |
| Games.BotMove | src/game/gameManager.js:108-116 | the bot's move, when taken, is the move of some column whose top cell is empty; with none the games are unchanged |
| Games.BotMoveIsTaken | src/game/gameManager.js:108-116 | in a valid game that is not full, where the bot holds the turn, the bot's move is always accepted, whichever candidate it picks |
| Games.HandleDisconnect | src/game/gameManager.js:118-125 | exactly the games with a seat whose id is the socket id are removed; the others stay as they were |
| Games.DisconnectClearsConnection | src/game/gameManager.js:118-125 | after a disconnect no live game seats the connection, and repeating the disconnect changes nothing |
| Sessions.Register | backend/src/game/sessionManager.js:6-86 | the five cases: same socket refreshes login and time and takes the game only if one is passed; a logged-in idle user is rebound and stays idle; a logged-in user in a game on another socket is refused with USERNAME_ACTIVE and nothing changes; a logged-out user within 30000 ms is rebound and keeps the game; otherwise a fresh entry, in game iff a game id is passed |
| Sessions.SetInGame | backend/src/game/sessionManager.js:88-118 | afterwards the user is in the given game and the pending timer is cancelled; an absent user gets a placeholder with no socket that is not logged in |
| Sessions.SetFree | backend/src/game/sessionManager.js:120-136 | an existing entry loses its game; an absent user stays absent; no other entry changes |
| Sessions.MarkDisconnected | backend/src/game/sessionManager.js:138-153 | no-op for an absent user; otherwise logged out as of now with the grace timer armed, other fields kept |
| Sessions.GraceExpired | backend/src/game/sessionManager.js:154-165 | an armed timer deletes the entry iff the user is still logged out and was last seen at least 30000 ms ago; an armed timer that does not purge is spent; a cancelled timer changes nothing; no other entry changes |
| Sessions.Reconnect | backend/src/game/sessionManager.js:168-192 | absent: null; more than 30000 ms since last seen: entry deleted and null; otherwise rebound, logged in, seen now, and the stored game (possibly null) returned |
| Sessions.GetGame | backend/src/game/sessionManager.js:194-198 | the stored game iff the entry exists and is in game, else null |
| Sessions.RunKeepsConsistent | backend/src/game/sessionManager.js:3-198 | over any sequence of registry calls a session is in game iff it names a game, so `getGame` returns every user's stored game |
| Sessions.RegisterTwiceIsIdempotent | backend/src/game/sessionManager.js:11-26 | registering the same socket twice keeps one entry and moves only the last-seen time |
| Sessions.ReconnectWindow | backend/src/game/sessionManager.js:168-191 | a reconnect 29 s after a disconnect restores the stored game; at 31 s it returns null and the session is gone |
| Sessions.ReconnectCancelsPurge | backend/src/game/sessionManager.js:153-191 | a reconnect within the window means the later timer never purges the session |
| Sessions.UnclaimedSessionIsPurged | backend/src/game/sessionManager.js:138-165 | with no reconnect, the timer firing 30 s or more after the disconnect purges the session |
| Sessions.SpentTimerNeverPurges | backend/src/game/sessionManager.js:120-165 | a user freed from a game after disconnecting survives the timer firing within 30 s of being freed, and any later firing of the spent timer changes nothing |
| Matchmaking.Release | backend/src/matchmaking/matchmaking.js:14-29 | a user not rejoining is left with no game in the registry: one holding a game is freed as of now, one without a game is left as is; no entry is dropped, every connection and login is kept, and no other session changes |
| Matchmaking.Join | backend/src/matchmaking/matchmaking.js:7-68 | a locked username has no effect; the lock entry is gone on every exit; a rejoin leaves queue and sessions alone; with an empty slot the joiner is the sole waiting entry and is told to wait, their entry freed from a game as of now if it held one and otherwise untouched; with an occupied slot the slot empties and one game starts, waiting entrant first, both users in that game as of now with their grace timers cancelled, and a user without an entry gets a placeholder with no connection, not logged in; no entry is dropped and every connection and login is kept |
| Matchmaking.Fallback | backend/src/matchmaking/matchmaking.js:43-51 | a bot game starts, the slot clears and the user is marked in that game only if the slot still holds that username, as of now with the grace timer cancelled, on a placeholder with no connection and not logged in when the user had no entry; otherwise nothing changes; no entry is dropped, every connection and login is kept, and no other user's session changes |
| Matchmaking.WaitingDisconnected | backend/src/matchmaking/matchmaking.js:34-39 | the slot clears only if it still holds that username; nothing else changes |
| Matchmaking.RunKeepsWaiterFree | backend/src/matchmaking/matchmaking.js:7-68 | over any run of joins, fallbacks and socket closes the waiting user is never in a game, the lock never grows, and the started games only grow |
| Matchmaking.SecondTabPairsWithItself | backend/src/matchmaking/matchmaking.js:52-61 | a waiting user who joins again is paired with themselves |
| Matchmaking.StaleFallbackUsesOldSocket | backend/src/matchmaking/matchmaking.js:43-51 | a timer armed by an earlier join fires for a user now waiting on another socket, and starts the bot game on the earlier socket |
| Matchmaking.FallbackAfterPairingIsNoOp | backend/src/matchmaking/matchmaking.js:43-54 | once the waiting entry has been paired, its fallback timer changes nothing |
| BareMatchmaking.Join | src/matchmaking/matchmaking.js:5-27 | the socket carries its username first; with an empty slot the joiner waits and is told so; otherwise the slot empties and one human game starts with the joiner in seat 0 and the waiting socket in seat 1 |
| BareMatchmaking.Fallback | src/matchmaking/matchmaking.js:14-20 | a bot game starts and the slot clears only if the slot still holds the same username; otherwise nothing changes; the new game is valid with an empty board, and every other game is kept as it was |
| BareMatchmaking.FallbackAfterPairingIsNoOp | src/matchmaking/matchmaking.js:14-26 | once a second player has drained the slot, the waiting player's fallback timer changes nothing |
| BareMatchmaking.FallbackGameOpensForHuman | src/matchmaking/matchmaking.js:14-20 | in the bot game the fallback starts, the human's first move into any column is taken, the game continues and the bot's reply is scheduled |
| BareMatchmaking.JoinerMovesFirst | src/matchmaking/matchmaking.js:21-26 | in a freshly paired game the waiting socket's move is refused and the joiner's first move is taken |
| Analytics.Bump | backend/src/kafka/analyticsService.js:37 | the counter of the key rises by one and every other key keeps its count |
| Analytics.Fold | backend/src/kafka/analyticsService.js:32-63 | game_saved adds one game, the duration (0 when absent) and one game in its hour, and credits the winner iff present and neither "Draw" nor "Bot", adding no other winner key; leaderboard_update creates a zero entry and adds a win on "win", a loss on "loss", nothing else; every other event changes nothing |
| Analytics.ProcessEvent | backend/src/kafka/analyticsService.js:20-71 | a snapshot save starts iff the event's logging did not throw and the games saved before it, plus one if it is itself a saved game, are a multiple of 5, 0 included |
| Analytics.SnapshotsFollowSavedGames | backend/src/kafka/analyticsService.js:20-71 | over a stream, event i starts a snapshot save iff its logging succeeds and the starting count plus the saved games among events 0..i is a multiple of 5 |
| Analytics.EveryFifthSaveSnapshots | backend/src/kafka/analyticsService.js:32-70 | from the starting metrics, a game_saved event starts a snapshot save iff it is the 5th, 10th, 15th, ... saved game |
| Analytics.CopiesAgree | src/kafka/analyticsService.js:32-77 | both copies compute the same metrics, and the same snapshot decision except for a leaderboard_update without a result |
| Analytics.FoldKeepsBounded | backend/src/kafka/analyticsService.js:32-41 | no hour and no winner ever counts more games than the total |
| Analytics.FoldAllCountsSavedGames | backend/src/kafka/analyticsService.js:114-122 | folding a stream of events counts exactly its game_saved events and keeps the per-hour and per-winner bounds |
| Analytics.SnapshotAtZeroGames | backend/src/kafka/analyticsService.js:68-70 | before the first saved game every event whose logging succeeds starts a snapshot save |

## Left out

- Socket emits and room broadcasts are not modelled. This includes `match_found`, `game_update` and `game_over`, plus the `turn` field of `match_found`. A move's outcome and the matchmaking outbox record what the players are told.
- Timers are not modelled as time passing. The bot's 500 ms pacing delay is the `botScheduled` flag. The matchmaking fallback and the session grace expiry are explicit events that the caller orders.
- `Math.random` in `botMove` is the `pick` argument.
- uuid generation is the fresh-id argument.
- Concurrency and async interleaving are not modelled. Each handler runs to completion, so the matchmaking lock is seen only as its no-op branch.
- All SQL writes of the session registry are left out. `setInGame`, `setFree`, `markDisconnected`, `reconnect` and the grace timer catch and log their failures. `register` awaits its queries without a catch, so a database failure rejects `register` after the in-memory change is made; that failure path is not modelled.
- The backend game manager (`backend/src/game/gameManager.js`) is not part of this model. The live-game test, the result of `handleReconnect` and the id returned by `startGame` are arguments. Anything `handleReconnect` does to the sessions is not modelled.
- Sessions.GraceExpired checks the entry present when the timer fires. The source's callback closes over the entry object it was armed for. The two differ only when that entry was deleted and replaced before the timer fired, e.g. by an expired `reconnect` and a new `register`. The source would then delete the newer entry.
- Games.HandleMove takes integer columns only. A column value that does not name an array index 0..6 finds no cell equal to 0 and is refused. One that does, such as the string "3" or the array [3], acts as that integer.
- Games.HandleMove matches seats only by `p.id`. The alternative `p.socket?.id` is never set by this code base.
- Analytics.Fold takes integer durations only. Fractional durations, string concatenation by `+=`, and object-key quirks of JavaScript maps are left out.
- The Kafka consumer and producer, console output, the average-duration float, and the snapshot write are left out. `getHourKey` uses `Date`, so the hour key is the opaque `hourKey` argument.
- The AI search engine, rematch negotiation and the forfeit timer are not part of this model: neither the board engine nor the turn machine modelled here contains them.
- The React frontend, HTTP routes, socket wiring and persistence repositories are left out.
