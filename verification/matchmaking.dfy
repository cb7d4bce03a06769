/** The matchmaking handler of backend/src/matchmaking/matchmaking.js: a
    per-username admission lock, a single waiting slot, the 10 s fallback
    to a bot game and the waiting socket's disconnect listener, all against
    the session registry.

    The backend game manager is not part of this model. What the handler
    asks of it appears as arguments: `liveGames` for the ids
    `gameManager.games` holds, `rejoined` for the result of
    `handleReconnect`, and `newId` for the id `startGame` returns. Started
    games are recorded in `started`, the `waiting` and `game_started` emits
    in `outbox`. Each handler call runs to completion before the next
    event, so the lock is observed only as the no-op branch. */
module Matchmaking {
  import opened Base
  import Sessions

  datatype Entrant = Entrant(socket: SocketId, username: Username)

  /** A started game: the first entrant is the first argument passed to
      `startGame`; no second entrant is the bot. */
  datatype Match = Match(gameId: GameId, first: Entrant, second: Option<Entrant>)

  datatype Outbound =
    | WaitingAck(to: SocketId)
    | GameStarted(to: SocketId, gameId: GameId, opponent: string)

  datatype Queue = Queue(
    waiting: Option<Entrant>,
    lock: set<Username>,
    sessions: Sessions.Registry,
    started: seq<Match>,
    outbox: seq<Outbound>)

  /** The user's live game can be resumed: `getGame` names a game the game
      manager still holds and `handleReconnect` succeeded. */
  predicate Rejoins(q: Queue, username: Username, liveGames: set<GameId>, rejoined: bool) {
    var g := Sessions.GetGame(q.sessions, username);
    g.Some? && g.value in liveGames && rejoined
  }

  /** Step 1 when the user is not rejoining: a stale game is released. */
  function Release(sessions: Sessions.Registry, username: Username, now: Millis): (r: Sessions.Registry)
    ensures Sessions.GetGame(r, username) == None
    ensures forall u :: u != username ==> (u in r <==> u in sessions) && (u in r ==> r[u] == sessions[u])
    // no entry is dropped, and every connection and login is kept
    ensures forall u :: u in sessions ==>
      u in r && r[u].socketId == sessions[u].socketId && r[u].isLoggedIn == sessions[u].isLoggedIn
    // a user without a game is left as they are; one with a game is freed as of now
    ensures Sessions.GetGame(sessions, username) == None ==> r == sessions
    ensures Sessions.GetGame(sessions, username).Some? ==>
      r[username] == sessions[username].(gameId := None, isInGame := false, lastSeen := now)
  {
    if Sessions.GetGame(sessions, username).Some? then Sessions.SetFree(sessions, username, now) else sessions
  }

  /** `matchmakingHandler(io, socket, username)` at time `now`. */
  function Join(q: Queue, socket: SocketId, username: Username, now: Millis,
                liveGames: set<GameId>, rejoined: bool, newId: GameId): (r: Queue)
    // a join already being processed for this username is dropped
    ensures username in q.lock ==> r == q
    // the lock entry is gone on every way out
    ensures username !in q.lock ==> r.lock == q.lock - {username}
    // a successful rejoin leaves the queue and the sessions alone
    ensures username !in q.lock && Rejoins(q, username, liveGames, rejoined) ==> r == q
    // otherwise, with nobody waiting, the joiner becomes the only waiting entry, free of any game
    ensures username !in q.lock && !Rejoins(q, username, liveGames, rejoined) && q.waiting.None? ==>
      && r.waiting == Some(Entrant(socket, username))
      && Sessions.GetGame(r.sessions, username) == None
      && r.sessions.Keys == q.sessions.Keys
      && (username in q.sessions ==>
            r.sessions[username] == (if Sessions.GetGame(q.sessions, username).Some?
                                     then q.sessions[username].(gameId := None, isInGame := false, lastSeen := now)
                                     else q.sessions[username]))
      && r.started == q.started
      && r.outbox == q.outbox + [WaitingAck(socket)]
    // with somebody waiting, the slot drains into one game, waiting entrant first
    ensures username !in q.lock && !Rejoins(q, username, liveGames, rejoined) && q.waiting.Some? ==>
      var opp := q.waiting.value;
      && r.waiting == None
      && r.started == q.started + [Match(newId, opp, Some(Entrant(socket, username)))]
      && Sessions.GetGame(r.sessions, username) == Some(newId)
      && Sessions.GetGame(r.sessions, opp.username) == Some(newId)
      && r.sessions.Keys == q.sessions.Keys + {username, opp.username}
      && r.sessions[username].lastSeen == now && !r.sessions[username].expiryArmed
      && r.sessions[opp.username].lastSeen == now && !r.sessions[opp.username].expiryArmed
      // a user without an entry gets a placeholder with no connection, not logged in
      && (forall u :: u in {username, opp.username} && u !in q.sessions ==>
            r.sessions[u].socketId == None && !r.sessions[u].isLoggedIn)
      && r.outbox == q.outbox + [GameStarted(opp.socket, newId, username), GameStarted(socket, newId, opp.username)]
    // nobody else's session changes, except the waiting entrant's when paired
    ensures forall u :: u != username && (q.waiting.None? || u != q.waiting.value.username) ==>
      (u in r.sessions <==> u in q.sessions) && (u in r.sessions ==> r.sessions[u] == q.sessions[u])
    // no entry is dropped, and every connection and login is kept
    ensures forall u :: u in q.sessions ==>
      && u in r.sessions
      && r.sessions[u].socketId == q.sessions[u].socketId
      && r.sessions[u].isLoggedIn == q.sessions[u].isLoggedIn
  {
    if username in q.lock then q
    else if Rejoins(q, username, liveGames, rejoined) then q
    else
      var sessions := Release(q.sessions, username, now);
      var me := Entrant(socket, username);
      match q.waiting
      case None =>
        q.(waiting := Some(me), sessions := sessions, outbox := q.outbox + [WaitingAck(socket)])
      case Some(opp) =>
        var s1 := Sessions.SetInGame(sessions, username, newId, now);
        var s2 := Sessions.SetInGame(s1, opp.username, newId, now);
        q.(waiting := None,
           sessions := s2,
           started := q.started + [Match(newId, opp, Some(me))],
           outbox := q.outbox + [GameStarted(opp.socket, newId, username), GameStarted(socket, newId, opp.username)])
  }

  /** The fallback timer armed by a join of `username` on `socket`, firing
      at `now`: a bot game starts only if that username still waits. */
  function Fallback(q: Queue, socket: SocketId, username: Username, now: Millis, newId: GameId): (r: Queue)
    ensures q.waiting.None? || q.waiting.value.username != username ==> r == q
    ensures q.waiting.Some? && q.waiting.value.username == username ==>
      && r.waiting == None
      && r.started == q.started + [Match(newId, Entrant(socket, username), None)]
      && Sessions.GetGame(r.sessions, username) == Some(newId)
      && r.sessions.Keys == q.sessions.Keys + {username}
      && r.sessions[username].lastSeen == now && !r.sessions[username].expiryArmed
      // a user without an entry gets a placeholder with no connection, not logged in
      && (username !in q.sessions ==> r.sessions[username].socketId == None && !r.sessions[username].isLoggedIn)
      && r.outbox == q.outbox + [GameStarted(socket, newId, "Bot")]
      && r.lock == q.lock
    // nobody else's session changes
    ensures forall u :: u != username ==>
      (u in r.sessions <==> u in q.sessions) && (u in r.sessions ==> r.sessions[u] == q.sessions[u])
    // no entry is dropped, and every connection and login is kept
    ensures forall u :: u in q.sessions ==>
      && u in r.sessions
      && r.sessions[u].socketId == q.sessions[u].socketId
      && r.sessions[u].isLoggedIn == q.sessions[u].isLoggedIn
  {
    if q.waiting.Some? && q.waiting.value.username == username then
      q.(waiting := None,
         started := q.started + [Match(newId, Entrant(socket, username), None)],
         sessions := Sessions.SetInGame(q.sessions, username, newId, now),
         outbox := q.outbox + [GameStarted(socket, newId, "Bot")])
    else q
  }

  /** The disconnect listener of a waiting socket joined as `username`. */
  function WaitingDisconnected(q: Queue, username: Username): (r: Queue)
    ensures r == q.(waiting := r.waiting)
    ensures r.waiting.None? <==> q.waiting.None? || q.waiting.value.username == username
    ensures r.waiting.Some? ==> r.waiting == q.waiting
  {
    if q.waiting.Some? && q.waiting.value.username == username then q.(waiting := None) else q
  }

  // ---------------------------------------------------------------------
  // Properties over runs of the handler

  datatype QueueEvent =
    | JoinCall(socket: SocketId, username: Username, now: Millis, liveGames: set<GameId>, rejoined: bool, newId: GameId)
    | FallbackFired(socket: SocketId, username: Username, now: Millis, newId: GameId)
    | SocketClosed(username: Username)

  function Step(q: Queue, e: QueueEvent): Queue {
    match e
    case JoinCall(s, u, now, live, ok, g) => Join(q, s, u, now, live, ok, g)
    case FallbackFired(s, u, now, g) => Fallback(q, s, u, now, g)
    case SocketClosed(u) => WaitingDisconnected(q, u)
  }

  function Run(q: Queue, es: seq<QueueEvent>): Queue
    decreases |es|
  {
    if |es| == 0 then q else Run(Step(q, es[0]), es[1..])
  }

  /** The waiting user is never one the registry reports in a game. */
  ghost predicate WaiterIsFree(q: Queue) {
    q.waiting.Some? ==> Sessions.GetGame(q.sessions, q.waiting.value.username) == None
  }

  lemma StepKeepsWaiterFree(q: Queue, e: QueueEvent)
    requires WaiterIsFree(q)
    ensures WaiterIsFree(Step(q, e))
    ensures Step(q, e).lock <= q.lock
  {
  }

  /** Over any run of joins, fallbacks and socket closes: the waiting user
      is never marked in a game, the lock never gains an entry, and every
      game ever started is kept in order. */
  lemma {:induction false} RunKeepsWaiterFree(q: Queue, es: seq<QueueEvent>)
    requires WaiterIsFree(q)
    ensures WaiterIsFree(Run(q, es))
    ensures Run(q, es).lock <= q.lock
    ensures q.started <= Run(q, es).started
    decreases |es|
  {
    if |es| > 0 {
      StepKeepsWaiterFree(q, es[0]);
      RunKeepsWaiterFree(Step(q, es[0]), es[1..]);
    }
  }

  /** A user already waiting who joins again from another tab is paired
      with themselves: nothing checks that the two usernames differ. */
  lemma SecondTabPairsWithItself(q: Queue, s1: SocketId, s2: SocketId, username: Username, now: Millis,
                                 liveGames: set<GameId>, rejoined: bool, newId: GameId)
    requires q.waiting == Some(Entrant(s1, username)) && username !in q.lock
    requires Sessions.GetGame(q.sessions, username) == None
    ensures Join(q, s2, username, now, liveGames, rejoined, newId).started
      == q.started + [Match(newId, Entrant(s1, username), Some(Entrant(s2, username)))]
  {
  }

  /** Once a waiting user has been paired, their fallback timer is moot. */
  lemma FallbackAfterPairingIsNoOp(q: Queue, socket: SocketId, username: Username, now: Millis,
                                   liveGames: set<GameId>, rejoined: bool, newId: GameId,
                                   waiterSocket: SocketId, waiter: Username, later: Millis, newId': GameId)
    requires q.waiting == Some(Entrant(waiterSocket, waiter)) && username !in q.lock
    requires !Rejoins(q, username, liveGames, rejoined)
    ensures var r := Join(q, socket, username, now, liveGames, rejoined, newId);
      Fallback(r, waiterSocket, waiter, later, newId') == r
  {
  }

  /** A fallback timer from an earlier join still fires for the username,
      not the connection: if the user waits again on another socket, the
      stale timer starts the bot game on the socket of the earlier join. */
  lemma StaleFallbackUsesOldSocket(q: Queue, oldSocket: SocketId, newSocket: SocketId, username: Username,
                                   now: Millis, newId: GameId)
    requires q.waiting == Some(Entrant(newSocket, username)) && oldSocket != newSocket
    ensures var r := Fallback(q, oldSocket, username, now, newId);
      && r.waiting == None
      && r.started == q.started + [Match(newId, Entrant(oldSocket, username), None)]
      && r.outbox == q.outbox + [GameStarted(oldSocket, newId, "Bot")]
  {
  }
}
