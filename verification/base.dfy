/** Small shared vocabulary: the optional value that stands for JavaScript's
    `null`/`undefined`, and the identifiers every component keys its maps by. */
module Base {

  /** `None` is the source's `null` (or an absent property). */
  datatype Option<+T> = None | Some(value: T)

  /** A connection identifier (`socket.id`). */
  type SocketId = string

  /** The opaque, globally unique player name used as every lookup key. */
  type Username = string

  /** Game identifiers are uuids, hence never the empty (falsy) string: a
      present id is exactly a truthy one, as `if (gameId)` tests it. */
  type GameId = s: string | s != "" witness "game"

  /** Milliseconds, the unit of `Date.now()`. */
  type Millis = int
}
