/** The matchmaking handler of src/matchmaking/matchmaking.js: the same
    single waiting slot and 10 s bot fallback as the backend handler, but
    without a lock or sessions, and starting games directly in the game
    manager of src/game/gameManager.js. The `waiting` acknowledgements are
    recorded in `acks`; the other emits happen inside `startGame` and are
    not modelled. */
module BareMatchmaking {
  import opened Base
  import opened Board
  import opened Games

  datatype Entrant = Entrant(socket: SocketId, username: Username)

  datatype World = World(waiting: Option<Entrant>, games: Games, names: Names, acks: seq<SocketId>)

  /** `matchmakingHandler(io, socket, username)`, with `newId` the id the
      new game (if any) receives. */
  function Join(w: World, socket: SocketId, username: Username, newId: GameId): (r: World)
    // the socket carries its username before any queue decision
    ensures r.names == w.names[socket := username]
    ensures w.waiting.None? ==>
      r.waiting == Some(Entrant(socket, username)) && r.games == w.games && r.acks == w.acks + [socket]
    // pairing clears the slot and starts one game: the joiner in seat 0, moving first
    ensures w.waiting.Some? ==>
      && r.waiting == None
      && r.acks == w.acks
      && r.games.Keys == w.games.Keys + {newId}
      && (forall id :: id in w.games && id != newId ==> r.games[id] == w.games[id])
      && r.games[newId].players == [Human(socket), Human(w.waiting.value.socket)]
      && r.games[newId].turn == 0 && !r.games[newId].vsBot
      && Valid(r.games[newId]) && Occupied(r.games[newId].board) == 0
  {
    var names := w.names[socket := username];
    match w.waiting
    case None => w.(waiting := Some(Entrant(socket, username)), names := names, acks := w.acks + [socket])
    case Some(opp) =>
      w.(waiting := None, names := names,
         games := StartGame(w.games, newId, Human(socket), Some(Human(opp.socket)), false))
  }

  /** The fallback timer armed by `username`'s join on `socket`. */
  function Fallback(w: World, socket: SocketId, username: Username, newId: GameId): (r: World)
    ensures w.waiting.None? || w.waiting.value.username != username ==> r == w
    ensures w.waiting.Some? && w.waiting.value.username == username ==>
      && r.waiting == None
      && r.games.Keys == w.games.Keys + {newId}
      && r.games[newId].players == [Human(socket), Bot] && r.games[newId].vsBot
      && r.games[newId].turn == 0
      && (forall id :: id in w.games && id != newId ==> r.games[id] == w.games[id])
      && Valid(r.games[newId]) && Occupied(r.games[newId].board) == 0
      && r.names == w.names && r.acks == w.acks
  {
    if w.waiting.Some? && w.waiting.value.username == username then
      w.(games := StartGame(w.games, newId, Human(socket), None, true), waiting := None)
    else w
  }

  /** In a freshly paired game the joiner's connection moves first and the
      waiting one is refused until then. */
  lemma JoinerMovesFirst(w: World, socket: SocketId, username: Username, newId: GameId, column: int)
    requires AllWellShaped(w.games) && w.waiting.Some? && w.waiting.value.socket != socket
    requires 0 <= column < Cols
    ensures var r := Join(w, socket, username, newId);
      && AllWellShaped(r.games)
      && HandleMove(r.games, r.names, newId, w.waiting.value.socket, column).outcome == Ignored
      && HandleMove(r.games, r.names, newId, socket, column).outcome == Continued(false)
  {
    var r := Join(w, socket, username, newId);
    var g := r.games[newId];
    assert PlayerIndex(g.players, socket) == 0;
    assert PlayerIndex(g.players, w.waiting.value.socket) == 1;
    var d := DropDisc(g.board, column, 1);
    assert IsEmptyAt(g.board, Rows - 1, column);
    assert Occupied(d.board) == 1 by {
      DropAddsOneDisc(g.board, column, 1);
    }
    assert !CheckWin(d.board, 1) by {
      CheckWinSpec(d.board, 1);
      OnlyOneDiscNoFour(d.board, 1);
    }
    assert !IsDraw(d.board) by {
      DrawIffFull(d.board);
    }
  }

  /** Once a waiting player has been paired, their fallback timer is moot. */
  lemma FallbackAfterPairingIsNoOp(w: World, socket: SocketId, username: Username, newId: GameId, newId': GameId)
    requires w.waiting.Some?
    ensures var r := Join(w, socket, username, newId);
      Fallback(r, w.waiting.value.socket, w.waiting.value.username, newId') == r
  {
  }

  /** In the bot game the fallback starts, the waiting player's first move
      into any column is taken, the game goes on and the bot's reply is
      scheduled. */
  lemma FallbackGameOpensForHuman(w: World, socket: SocketId, username: Username, newId: GameId, column: int)
    requires AllWellShaped(w.games) && w.waiting == Some(Entrant(socket, username))
    requires 0 <= column < Cols
    ensures var r := Fallback(w, socket, username, newId);
      && AllWellShaped(r.games)
      && HandleMove(r.games, r.names, newId, socket, column).outcome == Continued(true)
  {
    var r := Fallback(w, socket, username, newId);
    var g := r.games[newId];
    assert PlayerIndex(g.players, socket) == 0;
    var d := DropDisc(g.board, column, 1);
    assert IsEmptyAt(g.board, Rows - 1, column);
    assert Occupied(d.board) == 1 by {
      DropAddsOneDisc(g.board, column, 1);
    }
    assert !CheckWin(d.board, 1) by {
      CheckWinSpec(d.board, 1);
      OnlyOneDiscNoFour(d.board, 1);
    }
    assert !IsDraw(d.board) by {
      DrawIffFull(d.board);
    }
  }
}
