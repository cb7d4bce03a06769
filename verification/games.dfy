/** The per-game turn machine of src/game/gameManager.js: the live games
    map, starting a game, applying a move, the bot's move and dropping the
    games of a lost connection. Emits to the players are not modelled; the
    result of a move says what the players are told. */
module Games {
  import opened Base
  import opened Board

  /** A seat in a game: a player's connection, or the bot placeholder
      `{ id: "BOT", username: "Bot" }`. */
  datatype Player = Human(socket: SocketId) | Bot {
    /** `p.id`, the value `handleMove` and `handleDisconnect` compare. */
    function Id(): SocketId {
      match this
      case Human(s) => s
      case Bot => "BOT"
    }
  }

  datatype Game = Game(id: GameId, board: Grid, players: seq<Player>, turn: int, vsBot: bool)

  /** `gameManager.games`. */
  type Games = map<GameId, Game>

  /** `socket.data.username` of every connection that has joined. */
  type Names = map<SocketId, Username>

  /** What every game in the map looks like: `startGame` builds it so and
      `handleMove` keeps it so. */
  predicate WellShaped(g: Game) {
    WellFormed(g.board) && |g.players| == 2 && (g.turn == 0 || g.turn == 1)
  }

  predicate AllWellShaped(games: Games) {
    forall id :: id in games ==> WellShaped(games[id]) && games[id].id == id
  }

  /** The board additionally holds only marks and has no floating disc. */
  ghost predicate Valid(g: Game) {
    WellShaped(g) && MarksOnly(g.board) && Stacked(g.board)
  }

  ghost predicate AllValid(games: Games) {
    AllWellShaped(games) && forall id :: id in games ==> Valid(games[id])
  }

  /** The mark of seat i: `playerIndex + 1`. */
  function Mark(i: int): int {
    i + 1
  }

  // ---------------------------------------------------------------------
  // startGame

  /** `startGame(io, socketA, socketB, vsBot)` under the fresh id `gameId`:
      an empty board, seat 0 to move, and the bot in seat 1 of a bot game.
      The caller of a human game always passes the second connection. */
  function StartGame(games: Games, gameId: GameId, a: Player, opponent: Option<Player>, vsBot: bool): (r: Games)
    requires vsBot || opponent.Some?
    ensures r.Keys == games.Keys + {gameId}
    ensures forall id :: id in games && id != gameId ==> r[id] == games[id]
    ensures WellShaped(r[gameId]) && Valid(r[gameId]) && r[gameId].id == gameId
    ensures r[gameId].turn == 0 && r[gameId].vsBot == vsBot
    ensures Occupied(r[gameId].board) == 0
    ensures r[gameId].players[0] == a
    ensures r[gameId].players[1] == if vsBot then Bot else opponent.value
    ensures AllWellShaped(games) ==> AllWellShaped(r)
    ensures AllValid(games) ==> AllValid(r)
  {
    var second := if vsBot then Bot else opponent.value;
    var b := EmptyBoard();
    assert Occupied(b) == 0 by {
      DrawIffFull(b);
      ZeroBoardIsEmpty(b);
    }
    games[gameId := Game(gameId, b, [a, second], 0, vsBot)]
  }

  // ---------------------------------------------------------------------
  // handleMove

  /** `players.findIndex(p => p.id === socketId)`, searching from seat k. */
  function FindIndexFrom(players: seq<Player>, socketId: SocketId, k: nat): (i: int)
    requires k <= |players|
    ensures i == -1 || k <= i < |players|
    ensures i >= 0 ==> players[i].Id() == socketId
    ensures forall j :: k <= j < |players| && (i == -1 || j < i) ==> players[j].Id() != socketId
    decreases |players| - k
  {
    if k == |players| then -1
    else if players[k].Id() == socketId then k
    else FindIndexFrom(players, socketId, k + 1)
  }

  function PlayerIndex(players: seq<Player>, socketId: SocketId): (i: int)
    ensures -1 <= i < |players|
    ensures i >= 0 ==> players[i].Id() == socketId
    ensures forall j :: 0 <= j < |players| && (i == -1 || j < i) ==> players[j].Id() != socketId
  {
    FindIndexFrom(players, socketId, 0)
  }

  /** `players[i].data?.username || "Bot"`: the bot placeholder has no
      `data`, and an empty name is falsy. */
  function WinnerName(p: Player, names: Names): string {
    match p
    case Human(s) => if s in names && names[s] != "" then names[s] else "Bot"
    case Bot => "Bot"
  }

  /** What the players learn from a move. `Continued` says whether a bot
      move was scheduled (`vsBot` and the bot, seat 1, is to move). */
  datatype MoveOutcome = Ignored | Continued(botScheduled: bool) | Won(winner: string) | Drawn

  datatype MoveResult = MoveResult(games: Games, outcome: MoveOutcome)

  /** `handleMove(io, gameId, socketId, column)`. */
  function HandleMove(games: Games, names: Names, gameId: GameId, socketId: SocketId, column: int): (r: MoveResult)
    requires AllWellShaped(games)
    ensures AllWellShaped(r.games)
    // a move is taken exactly when the game exists, the sender holds the
    // turn and the column has room; otherwise nothing changes at all
    ensures r.outcome != Ignored <==>
      && gameId in games
      && PlayerIndex(games[gameId].players, socketId) == games[gameId].turn
      && DropDisc(games[gameId].board, column, Mark(games[gameId].turn)).row != -1
    ensures r.outcome == Ignored ==> r.games == games
    // only the game moved in can change
    ensures forall id :: id != gameId ==>
      (id in r.games <==> id in games) && (id in r.games ==> r.games[id] == games[id])
    // the connection of no seat is always refused
    ensures gameId in games && PlayerIndex(games[gameId].players, socketId) == -1 ==> r == MoveResult(games, Ignored)
    // a win is reported before a draw, and both end the game
    ensures r.outcome != Ignored ==>
      var g := games[gameId];
      var d := DropDisc(g.board, column, Mark(g.turn));
      && (r.outcome.Won? <==> CheckWin(d.board, Mark(g.turn)))
      && (r.outcome.Drawn? <==> !CheckWin(d.board, Mark(g.turn)) && IsDraw(d.board))
      && (r.outcome.Won? ==> r.outcome.winner == WinnerName(g.players[g.turn], names))
      && (r.outcome.Won? || r.outcome.Drawn? ==> r.games == games - {gameId})
      && (r.outcome.Continued? ==>
            && r.games == games[gameId := g.(board := d.board, turn := 1 - g.turn)]
            && r.outcome.botScheduled == (g.vsBot && g.turn == 0))
  {
    if gameId !in games then MoveResult(games, Ignored)
    else
      var g := games[gameId];
      var idx := PlayerIndex(g.players, socketId);
      if idx != g.turn then MoveResult(games, Ignored)
      else
        var d := DropDisc(g.board, column, Mark(idx));
        if d.row == -1 then MoveResult(games, Ignored)
        else if CheckWin(d.board, Mark(idx)) then
          MoveResult(games - {gameId}, Won(WinnerName(g.players[idx], names)))
        else if IsDraw(d.board) then
          MoveResult(games - {gameId}, Drawn)
        else
          var turn := 1 - g.turn;
          MoveResult(games[gameId := g.(board := d.board, turn := turn)], Continued(g.vsBot && turn == 1))
  }

  /** Every accepted move puts exactly one disc, the mover's, on the board;
      the game either continues with the other seat to move or is removed. */
  lemma AcceptedMoveAddsMoversDisc(games: Games, names: Names, gameId: GameId, socketId: SocketId, column: int)
    requires AllWellShaped(games)
    ensures var r := HandleMove(games, names, gameId, socketId, column);
      r.outcome.Continued? ==>
        var g := games[gameId];
        var g' := r.games[gameId];
        && Occupied(g'.board) == Occupied(g.board) + 1
        && (exists row :: OnBoard(row, column) && g.board[row][column] == 0 && g'.board[row][column] == Mark(g.turn))
        && g'.turn == 1 - g.turn
        && g'.players == g.players && g'.vsBot == g.vsBot
  {
    var r := HandleMove(games, names, gameId, socketId, column);
    if r.outcome.Continued? {
      var g := games[gameId];
      DropAddsOneDisc(g.board, column, Mark(g.turn));
      var d := DropDisc(g.board, column, Mark(g.turn));
      assert OnBoard(d.row, column) && g.board[d.row][column] == 0 && d.board[d.row][column] == Mark(g.turn);
    }
  }

  /** Moves keep every live board a stack of marks with a valid turn. */
  lemma MoveKeepsGamesValid(games: Games, names: Names, gameId: GameId, socketId: SocketId, column: int)
    requires AllValid(games)
    ensures AllValid(HandleMove(games, names, gameId, socketId, column).games)
  {
    if gameId in games {
      var g := games[gameId];
      DropKeepsShape(g.board, column, Mark(g.turn));
    }
  }

  /** A move into a column whose lowest empty cell is `row`, by the seat
      holding the turn, continues the game when the mover holds fewer than
      three discs and the board has room for more than this one. */
  lemma QuietMove(games: Games, names: Names, gameId: GameId, socketId: SocketId, column: int, row: int)
    requires AllWellShaped(games) && gameId in games
    requires PlayerIndex(games[gameId].players, socketId) == games[gameId].turn
    requires OnBoard(row, column) && games[gameId].board[row][column] == 0
    requires forall r :: row < r < Rows ==> games[gameId].board[r][column] != 0
    requires MarkCount(games[gameId].board, Mark(games[gameId].turn)) < 3
    requires Occupied(games[gameId].board) < Rows * Cols - 1
    ensures var g := games[gameId];
      HandleMove(games, names, gameId, socketId, column)
        == MoveResult(games[gameId := g.(board := Put(g.board, row, column, Mark(g.turn)), turn := 1 - g.turn)],
                      Continued(g.vsBot && g.turn == 0))
  {
    var g := games[gameId];
    var v := Mark(g.turn);
    var d := DropDisc(g.board, column, v);
    assert IsEmptyAt(g.board, row, column);
    assert d.row == row;
    MarkCountPut(g.board, row, column, v, v);
    FewMarksNoWin(d.board, v);
    DropAddsOneDisc(g.board, column, v);
    DrawIffFull(d.board);
  }

  /** The board after alice has dropped `na` discs into column 0 and bob
      `nb` into column 1. */
  function Stage(na: int, nb: int): (b: Grid)
    ensures WellFormed(b)
  {
    seq(Rows, r => seq(Cols, c => if c == 0 && Rows - na <= r then 1 else if c == 1 && Rows - nb <= r then 2 else 0))
  }

  /** The example game at that stage: alice on "a" in seat 0, bob on "b". */
  function StageGames(gameId: GameId, na: int, nb: int): (games: Games)
    ensures AllWellShaped(games)
  {
    map[gameId := Game(gameId, Stage(na, nb), [Human("a"), Human("b")], if na == nb then 0 else 1, false)]
  }

  lemma {:induction false} StageCounts(na: int, nb: int)
    requires 0 <= na <= Rows && 0 <= nb <= Rows
    ensures MarkCount(Stage(na, nb), 1) == na && MarkCount(Stage(na, nb), 2) == nb
    ensures Occupied(Stage(na, nb)) == na + nb
    decreases na + nb
  {
    var b := Stage(na, nb);
    if na > 0 {
      var b' := Stage(na - 1, nb);
      SameCells(b, Put(b', Rows - na, 0, 1));
      StageCounts(na - 1, nb);
      MarkCountPut(b', Rows - na, 0, 1, 1);
      MarkCountPut(b', Rows - na, 0, 1, 2);
      OccupiedPut(b', Rows - na, 0, 1);
    } else if nb > 0 {
      var b' := Stage(na, nb - 1);
      SameCells(b, Put(b', Rows - nb, 1, 2));
      StageCounts(na, nb - 1);
      MarkCountPut(b', Rows - nb, 1, 2, 1);
      MarkCountPut(b', Rows - nb, 1, 2, 2);
      OccupiedPut(b', Rows - nb, 1, 2);
    } else {
      MarkCountEmpty(b, 1);
      MarkCountEmpty(b, 2);
      ZeroBoardIsEmpty(b);
    }
  }

  lemma AliceStep(gameId: GameId, names: Names, n: int, n1: int)
    requires 0 <= n < 3 && n1 == n + 1
    ensures HandleMove(StageGames(gameId, n, n), names, gameId, "a", 0)
         == MoveResult(StageGames(gameId, n1, n), Continued(false))
  {
    var games := StageGames(gameId, n, n);
    assert PlayerIndex(games[gameId].players, "a") == 0;
    StageCounts(n, n);
    QuietMove(games, names, gameId, "a", 0, Rows - 1 - n);
    SameCells(Put(Stage(n, n), Rows - 1 - n, 0, 1), Stage(n + 1, n));
  }

  lemma BobStep(gameId: GameId, names: Names, n: int, n1: int)
    requires 0 <= n < 3 && n1 == n + 1
    ensures HandleMove(StageGames(gameId, n1, n), names, gameId, "b", 1)
         == MoveResult(StageGames(gameId, n1, n1), Continued(false))
  {
    var games := StageGames(gameId, n + 1, n);
    assert PlayerIndex(games[gameId].players, "b") == 1;
    StageCounts(n + 1, n);
    QuietMove(games, names, gameId, "b", 1, Rows - 1 - n);
    SameCells(Put(Stage(n + 1, n), Rows - 1 - n, 1, 2), Stage(n + 1, n + 1));
  }

  lemma AliceWins(gameId: GameId, names: Names)
    requires "a" in names && names["a"] != ""
    ensures HandleMove(StageGames(gameId, 3, 3), names, gameId, "a", 0) == MoveResult(map[], Won(names["a"]))
  {
    var games := StageGames(gameId, 3, 3);
    var b := Stage(3, 3);
    assert PlayerIndex(games[gameId].players, "a") == 0;
    var d := DropDisc(b, 0, 1);
    assert IsEmptyAt(b, 2, 0);
    assert d.row == 2;
    assert FourInLine(d.board, 1, 2, 0, Vertical);
    CheckWinSpec(d.board, 1);
  }

  /** A full game: alice (seat 0) drops into column 0
      and bob (seat 1) into column 1, in turn; alice's fourth disc completes
      a vertical line, alice is announced the winner and the game is
      removed. */
  lemma VerticalWinScenario(gameId: GameId)
    ensures var names := map["a" := "alice", "b" := "bob"];
      var m1 := HandleMove(StartGame(map[], gameId, Human("a"), Some(Human("b")), false), names, gameId, "a", 0);
      var m2 := HandleMove(m1.games, names, gameId, "b", 1);
      var m3 := HandleMove(m2.games, names, gameId, "a", 0);
      var m4 := HandleMove(m3.games, names, gameId, "b", 1);
      var m5 := HandleMove(m4.games, names, gameId, "a", 0);
      var m6 := HandleMove(m5.games, names, gameId, "b", 1);
      var m7 := HandleMove(m6.games, names, gameId, "a", 0);
      && m1.outcome == Continued(false) && m2.outcome == Continued(false)
      && m3.outcome == Continued(false) && m4.outcome == Continued(false)
      && m5.outcome == Continued(false) && m6.outcome == Continued(false)
      && m7.outcome == Won("alice") && m7.games == map[]
  {
    var names := map["a" := "alice", "b" := "bob"];
    SameCells(Stage(0, 0), EmptyBoard());
    var g0 := StartGame(map[], gameId, Human("a"), Some(Human("b")), false);
    assert g0 == StageGames(gameId, 0, 0);
    AliceStep(gameId, names, 0, 1);
    var m1 := HandleMove(g0, names, gameId, "a", 0);
    assert m1.games == StageGames(gameId, 1, 0);
    BobStep(gameId, names, 0, 1);
    var m2 := HandleMove(m1.games, names, gameId, "b", 1);
    assert m2.games == StageGames(gameId, 1, 1);
    AliceStep(gameId, names, 1, 2);
    var m3 := HandleMove(m2.games, names, gameId, "a", 0);
    assert m3.games == StageGames(gameId, 2, 1);
    BobStep(gameId, names, 1, 2);
    var m4 := HandleMove(m3.games, names, gameId, "b", 1);
    assert m4.games == StageGames(gameId, 2, 2);
    AliceStep(gameId, names, 2, 3);
    var m5 := HandleMove(m4.games, names, gameId, "a", 0);
    assert m5.games == StageGames(gameId, 3, 2);
    BobStep(gameId, names, 2, 3);
    var m6 := HandleMove(m5.games, names, gameId, "b", 1);
    assert m6.games == StageGames(gameId, 3, 3);
    AliceWins(gameId, names);
  }

  // ---------------------------------------------------------------------
  // botMove

  /** `botMove(io, gameId)`, with `pick` standing for the random draw: the
      bot plays some column whose top cell is empty. With no such column the
      source's move is `undefined`, which no drop accepts. */
  function BotMove(games: Games, names: Names, gameId: GameId, pick: nat): (r: MoveResult)
    requires AllWellShaped(games)
    ensures AllWellShaped(r.games)
    ensures r.outcome == Ignored ==> r.games == games
    ensures r.outcome != Ignored ==>
      gameId in games &&
      exists c :: c in ValidColumns(games[gameId].board) && r == HandleMove(games, names, gameId, "BOT", c)
  {
    if gameId !in games then MoveResult(games, Ignored)
    else
      var cols := ValidColumns(games[gameId].board);
      if |cols| == 0 then MoveResult(games, Ignored)
      else HandleMove(games, names, gameId, "BOT", cols[pick % |cols|])
  }

  /** When the bot holds the turn in a valid game with room left, its move
      is always taken, whichever candidate column it picks. */
  lemma BotMoveIsTaken(games: Games, names: Names, gameId: GameId, pick: nat)
    requires AllValid(games) && gameId in games
    requires games[gameId].turn == 1 && games[gameId].players[1] == Bot
    requires games[gameId].players[0].Id() != "BOT"
    requires !IsDraw(games[gameId].board)
    ensures BotMove(games, names, gameId, pick).outcome != Ignored
  {
    var g := games[gameId];
    var c :| OnBoard(0, c) && g.board[0][c] == 0 by {
      var r, c :| 0 <= r < Rows && 0 <= c < Cols && g.board[r][c] == 0;
      assert g.board[0][c] == 0;
    }
    var cols := ValidColumns(g.board);
    assert c in cols;
    var col := cols[pick % |cols|];
    assert col in cols;
    ValidColumnsAreDroppable(g.board, col, Mark(1));
  }

  // ---------------------------------------------------------------------
  // handleDisconnect

  /** Some seat of the game belongs to the connection. */
  predicate HasPlayer(g: Game, socketId: SocketId) {
    exists i :: 0 <= i < |g.players| && g.players[i].Id() == socketId
  }

  /** `handleDisconnect(io, socketId)`: every game the connection sits in
      is removed; every other game stays as it was. */
  function HandleDisconnect(games: Games, socketId: SocketId): (r: Games)
    ensures forall id :: id in r <==> id in games && !HasPlayer(games[id], socketId)
    ensures forall id :: id in r ==> r[id] == games[id]
    ensures AllWellShaped(games) ==> AllWellShaped(r)
  {
    map id | id in games && !HasPlayer(games[id], socketId) :: games[id]
  }

  /** After a disconnect no live game names the connection, and a second
      disconnect of the same connection changes nothing. */
  lemma DisconnectClearsConnection(games: Games, socketId: SocketId)
    ensures var r := HandleDisconnect(games, socketId);
      (forall id :: id in r ==> !HasPlayer(r[id], socketId)) && HandleDisconnect(r, socketId) == r
  {
  }
}
