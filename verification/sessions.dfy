/** The session registry of backend/src/game/sessionManager.js: one entry per
    username recording the bound connection, the current game, whether the
    user is logged in and when they were last seen. The clock is the `now`
    argument of each operation; the SQL writes that mirror each change are
    not modelled. The one-shot grace timer armed by `markDisconnected` is the
    `expiryArmed` flag together with the `GraceExpired` event. */
module Sessions {
  import opened Base

  /** The grace window, in milliseconds. */
  const Grace: int := 30000

  datatype Session = Session(
    socketId: Option<SocketId>,
    gameId: Option<GameId>,
    isLoggedIn: bool,
    isInGame: bool,
    lastSeen: Millis,
    expiryArmed: bool)

  /** `sessionManager.active`: a map, so at most one entry per username. */
  type Registry = map<Username, Session>

  /** A session names a game exactly when it is marked in game. */
  predicate Consistent(s: Session) {
    s.isInGame <==> s.gameId.Some?
  }

  predicate AllConsistent(reg: Registry) {
    forall u :: u in reg ==> Consistent(reg[u])
  }

  datatype SessionError = UsernameActive

  datatype RegisterResult = Registered(reg: Registry) | Refused(error: SessionError)

  /** The entry `register` creates for a new (or stale) user. */
  function Fresh(socketId: SocketId, gameId: Option<GameId>, now: Millis): (s: Session)
    ensures Consistent(s) && s.isLoggedIn && s.socketId == Some(socketId) && !s.expiryArmed
  {
    Session(Some(socketId), gameId, true, gameId.Some?, now, false)
  }

  /** `register(username, socketId, gameId)` at time `now`. */
  function Register(reg: Registry, username: Username, socketId: SocketId, gameId: Option<GameId>, now: Millis): (r: RegisterResult)
    // only the user's own entry can change
    ensures r.Registered? ==> r.reg.Keys == reg.Keys + {username}
    ensures r.Registered? ==> forall u :: u in reg && u != username ==> r.reg[u] == reg[u]
    // after a successful registration the user is logged in on this connection, seen now
    ensures r.Registered? ==>
      r.reg[username].isLoggedIn && r.reg[username].socketId == Some(socketId) && r.reg[username].lastSeen == now
    // same connection: refresh, and take the game only if one is passed
    ensures username in reg && reg[username].socketId == Some(socketId) ==>
      var s := reg[username];
      r == Registered(reg[username := s.(isLoggedIn := true, lastSeen := now,
                                         gameId := if gameId.Some? then gameId else s.gameId,
                                         isInGame := gameId.Some? || s.isInGame)])
    // another connection of a logged-in idle user: rebind, still idle, game argument ignored
    ensures username in reg && reg[username].socketId != Some(socketId)
            && reg[username].isLoggedIn && !reg[username].isInGame ==>
      r.Registered? && r.reg[username] == reg[username].(socketId := Some(socketId), lastSeen := now)
    // another connection of a user playing a game: refused, nothing changes
    ensures r.Refused? <==>
      username in reg && reg[username].socketId != Some(socketId) && reg[username].isLoggedIn && reg[username].isInGame
    // a disconnected user back within the grace window keeps game and state
    ensures username in reg && reg[username].socketId != Some(socketId)
            && !reg[username].isLoggedIn && now - reg[username].lastSeen <= Grace ==>
      r.Registered? &&
      r.reg[username] == reg[username].(socketId := Some(socketId), isLoggedIn := true, lastSeen := now, expiryArmed := false)
    // no entry, or one stale past the window: a brand-new entry
    ensures (username !in reg || (reg[username].socketId != Some(socketId) && !reg[username].isLoggedIn
                                  && now - reg[username].lastSeen > Grace)) ==>
      r == Registered(reg[username := Fresh(socketId, gameId, now)])
  {
    if username in reg then
      var s := reg[username];
      if s.socketId == Some(socketId) then
        var s' := s.(isLoggedIn := true, lastSeen := now);
        var s'' := if gameId.Some? then s'.(gameId := gameId, isInGame := true) else s';
        Registered(reg[username := s''])
      else if s.isLoggedIn && !s.isInGame then
        Registered(reg[username := s.(socketId := Some(socketId), isLoggedIn := true, lastSeen := now)])
      else if s.isLoggedIn && s.isInGame then
        Refused(UsernameActive)
      else if !s.isLoggedIn && now - s.lastSeen <= Grace then
        Registered(reg[username := s.(expiryArmed := false, socketId := Some(socketId), isLoggedIn := true, lastSeen := now)])
      else
        Registered((reg - {username})[username := Fresh(socketId, gameId, now)])
    else
      Registered(reg[username := Fresh(socketId, gameId, now)])
  }

  /** `setInGame(username, gameId)`: the user is in this game afterwards,
      through a logged-out placeholder when no entry existed; a pending
      grace expiry is cancelled. */
  function SetInGame(reg: Registry, username: Username, gameId: GameId, now: Millis): (r: Registry)
    ensures r.Keys == reg.Keys + {username}
    ensures forall u :: u in reg && u != username ==> r[u] == reg[u]
    ensures r[username].gameId == Some(gameId) && r[username].isInGame
    ensures r[username].lastSeen == now && !r[username].expiryArmed
    ensures username !in reg ==> r[username].socketId == None && !r[username].isLoggedIn
    ensures username in reg ==>
      r[username].socketId == reg[username].socketId && r[username].isLoggedIn == reg[username].isLoggedIn
  {
    if username in reg then
      reg[username := reg[username].(expiryArmed := false, gameId := Some(gameId), isInGame := true, lastSeen := now)]
    else
      reg[username := Session(None, Some(gameId), false, true, now, false)]
  }

  /** `setFree(username)`: an existing entry leaves its game; an absent user
      stays absent. */
  function SetFree(reg: Registry, username: Username, now: Millis): (r: Registry)
    ensures r.Keys == reg.Keys
    ensures forall u :: u in reg && u != username ==> r[u] == reg[u]
    ensures username in reg ==>
      r[username] == reg[username].(gameId := None, isInGame := false, lastSeen := now)
  {
    if username in reg then
      reg[username := reg[username].(isInGame := false, gameId := None, lastSeen := now)]
    else reg
  }

  /** `markDisconnected(username)`: the user is logged out as of `now` and
      the grace timer is (re)armed; an absent user is ignored. */
  function MarkDisconnected(reg: Registry, username: Username, now: Millis): (r: Registry)
    ensures username !in reg ==> r == reg
    ensures r.Keys == reg.Keys
    ensures forall u :: u in reg && u != username ==> r[u] == reg[u]
    ensures username in reg ==>
      r[username] == reg[username].(isLoggedIn := false, lastSeen := now, expiryArmed := true)
  {
    if username !in reg then reg
    else reg[username := reg[username].(isLoggedIn := false, lastSeen := now, expiryArmed := true)]
  }

  /** The grace timer's callback running at `now`: a still-armed timer
      purges the entry if the user is still logged out and was last seen at
      least 30 s ago; a cancelled timer does nothing. */
  function GraceExpired(reg: Registry, username: Username, now: Millis): (r: Registry)
    ensures username !in reg || !reg[username].expiryArmed ==> r == reg
    ensures forall u :: u != username ==> (u in r <==> u in reg) && (u in r ==> r[u] == reg[u])
    ensures username in reg && username !in r <==>
      username in reg && reg[username].expiryArmed && !reg[username].isLoggedIn && now - reg[username].lastSeen >= Grace
    // the timer fires once: an armed timer that does not purge is spent
    ensures username in r && reg[username].expiryArmed ==> r[username] == reg[username].(expiryArmed := false)
  {
    if username !in reg || !reg[username].expiryArmed then reg
    else
      var s := reg[username];
      if !s.isLoggedIn && now - s.lastSeen >= Grace then reg - {username}
      else reg[username := s.(expiryArmed := false)]
  }

  datatype Reconnected = Reconnected(reg: Registry, gameId: Option<GameId>)

  /** `reconnect(username, socketId)`: within the window the connection is
      rebound and the stored game (possibly none) returned; past it the
      entry is deleted. Both failure cases return `null`. */
  function Reconnect(reg: Registry, username: Username, socketId: SocketId, now: Millis): (r: Reconnected)
    ensures username !in reg ==> r == Reconnected(reg, None)
    ensures username in reg && now - reg[username].lastSeen > Grace ==>
      r.gameId == None && r.reg == reg - {username}
    ensures username in reg && now - reg[username].lastSeen <= Grace ==>
      && r.gameId == reg[username].gameId
      && r.reg == reg[username := reg[username].(socketId := Some(socketId), isLoggedIn := true,
                                                 lastSeen := now, expiryArmed := false)]
  {
    if username !in reg then Reconnected(reg, None)
    else
      var s := reg[username];
      if now - s.lastSeen > Grace then Reconnected(reg - {username}, None)
      else Reconnected(reg[username := s.(expiryArmed := false, socketId := Some(socketId), isLoggedIn := true, lastSeen := now)], s.gameId)
  }

  /** `getGame(username)`: the stored game of a user marked in game. */
  function GetGame(reg: Registry, username: Username): (g: Option<GameId>)
    ensures g.Some? <==> username in reg && reg[username].isInGame && reg[username].gameId.Some?
    ensures g.Some? ==> g == reg[username].gameId
  {
    if username !in reg || !reg[username].isInGame then None else reg[username].gameId
  }

  // ---------------------------------------------------------------------
  // Lifecycles

  /** One call into the registry. A refused registration (the thrown
      `USERNAME_ACTIVE`) leaves the registry as it was. */
  datatype SessionEvent =
    | RegisterCall(username: Username, socketId: SocketId, gameId: Option<GameId>, now: Millis)
    | SetInGameCall(username: Username, game: GameId, now: Millis)
    | SetFreeCall(username: Username, now: Millis)
    | Disconnect(username: Username, now: Millis)
    | TimerFired(username: Username, now: Millis)
    | ReconnectCall(username: Username, socketId: SocketId, now: Millis)

  function Step(reg: Registry, e: SessionEvent): Registry {
    match e
    case RegisterCall(u, sid, g, now) =>
      (match Register(reg, u, sid, g, now) case Registered(reg') => reg' case Refused(_) => reg)
    case SetInGameCall(u, g, now) => SetInGame(reg, u, g, now)
    case SetFreeCall(u, now) => SetFree(reg, u, now)
    case Disconnect(u, now) => MarkDisconnected(reg, u, now)
    case TimerFired(u, now) => GraceExpired(reg, u, now)
    case ReconnectCall(u, sid, now) => Reconnect(reg, u, sid, now).reg
  }

  function Run(reg: Registry, es: seq<SessionEvent>): Registry
    decreases |es|
  {
    if |es| == 0 then reg else Run(Step(reg, es[0]), es[1..])
  }

  lemma StepKeepsConsistent(reg: Registry, e: SessionEvent)
    requires AllConsistent(reg)
    ensures AllConsistent(Step(reg, e))
  {
  }

  /** Whatever calls reach the registry, a session is marked in game
      exactly when it names a game, so `getGame` returns the stored game of
      every user who has one. */
  lemma {:induction false} RunKeepsConsistent(reg: Registry, es: seq<SessionEvent>)
    requires AllConsistent(reg)
    ensures AllConsistent(Run(reg, es))
    ensures forall u :: u in Run(reg, es) ==> GetGame(Run(reg, es), u) == Run(reg, es)[u].gameId
    decreases |es|
  {
    if |es| > 0 {
      StepKeepsConsistent(reg, es[0]);
      RunKeepsConsistent(Step(reg, es[0]), es[1..]);
    }
  }

  /** Registering the same connection twice: still one entry, nothing but
      the last-seen time moves. */
  lemma RegisterTwiceIsIdempotent(reg: Registry, username: Username, socketId: SocketId, t1: Millis, t2: Millis)
    requires Register(reg, username, socketId, None, t1).Registered?
    ensures var r1 := Register(reg, username, socketId, None, t1).reg;
      var r2 := Register(r1, username, socketId, None, t2);
      r2.Registered? && r2.reg.Keys == r1.Keys && r2.reg[username] == r1[username].(lastSeen := t2)
  {
  }

  /** Reconnecting 29 s after a disconnect restores the stored game; at
      31 s it fails and the session is gone. */
  lemma ReconnectWindow(reg: Registry, username: Username, socketId: SocketId, t: Millis)
    requires username in reg && reg[username].gameId.Some?
    ensures var d := MarkDisconnected(reg, username, t);
      && Reconnect(d, username, socketId, t + 29000).gameId == reg[username].gameId
      && Reconnect(d, username, socketId, t + 29000).reg[username].isLoggedIn
      && Reconnect(d, username, socketId, t + 31000).gameId == None
      && username !in Reconnect(d, username, socketId, t + 31000).reg
  {
  }

  /** A reconnect inside the window cancels the pending purge: the timer
      firing later leaves the session in place. */
  lemma ReconnectCancelsPurge(reg: Registry, username: Username, socketId: SocketId, t: Millis, t': Millis, t'': Millis)
    requires username in reg && t <= t' <= t + Grace
    ensures var r := Reconnect(MarkDisconnected(reg, username, t), username, socketId, t');
      username in GraceExpired(r.reg, username, t'')
  {
  }

  /** Without a reconnect, the timer firing 30 s after the disconnect purges
      the session. */
  lemma UnclaimedSessionIsPurged(reg: Registry, username: Username, t: Millis, t': Millis)
    requires username in reg && t' >= t + Grace
    ensures username !in GraceExpired(MarkDisconnected(reg, username, t), username, t')
  {
  }

  /** The timer is one-shot: a disconnected user freed from a game before
      the window closes is not purged when the timer fires, and no later
      firing purges them either. */
  lemma SpentTimerNeverPurges(reg: Registry, username: Username, t: Millis, t1: Millis, t2: Millis, t3: Millis)
    requires username in reg && t < t1 && t2 < t1 + Grace
    ensures var r := GraceExpired(SetFree(MarkDisconnected(reg, username, t), username, t1), username, t2);
      && username in r
      && GraceExpired(r, username, t3) == r
  {
  }
}
