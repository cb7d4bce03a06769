/** The metrics reducer `processEvent` of the analytics consumer. Two copies
    exist, backend/src/kafka/analyticsService.js and
    src/kafka/analyticsService.js; they update the metrics identically and
    differ in one log line only. The Kafka consumer, the console output and
    the snapshot write are not modelled: a step returns the new metrics and
    whether a snapshot save is started. The hour key of a timestamp comes
    from `Date` and is the opaque argument `hourKey`. */
module Analytics {
  import opened Base

  datatype Stats = Stats(wins: nat, losses: nat)

  datatype Metrics = Metrics(
    totalGames: nat,
    totalDuration: int,
    gamesPerHour: map<string, nat>,
    winners: map<string, nat>,
    userStats: map<string, Stats>)

  /** The starting `metrics` object. */
  const Initial: Metrics := Metrics(0, 0, map[], map[], map[])

  /** An event read from the topic, by its `type`. `None` stands for a
      field that is missing (or, for `players`, not an array). */
  datatype Event =
    | GameStarted(players: Option<seq<string>>)
    | MoveMade
    | GameSaved(durationSeconds: Option<int>, timestamp: int, winner: Option<string>)
    | LeaderboardUpdate(username: string, result: Option<string>)
    | GameOver(players: Option<seq<string>>)
    | Unhandled(kind: string)

  /** Which of the two service copies runs the reducer. */
  datatype Copy = BackendCopy | RootCopy

  /** `m[k] || 0`. */
  function CountOf(m: map<string, nat>, k: string): nat {
    if k in m then m[k] else 0
  }

  /** `m[k] = (m[k] || 0) + 1`. */
  function Bump(m: map<string, nat>, k: string): (r: map<string, nat>)
    ensures r.Keys == m.Keys + {k}
    ensures CountOf(r, k) == CountOf(m, k) + 1
    ensures forall j :: j != k ==> CountOf(r, j) == CountOf(m, j)
    ensures forall j :: j in m && j != k ==> r[j] == m[j]
  {
    m[k := CountOf(m, k) + 1]
  }

  /** A winner that is credited: present, truthy, and neither "Draw" nor "Bot". */
  predicate Credited(w: Option<string>) {
    w.Some? && w.value != "" && w.value != "Draw" && w.value != "Bot"
  }

  /** `event.duration_seconds || 0`. */
  function Duration(d: Option<int>): int {
    if d.Some? then d.value else 0
  }

  function StatsOf(m: map<string, Stats>, u: string): Stats {
    if u in m then m[u] else Stats(0, 0)
  }

  /** The metric updates of `processEvent`'s switch. */
  function Fold(m: Metrics, e: Event, hourKey: int -> string): (r: Metrics)
    // a saved game counts once, adds its duration and bumps its hour
    ensures e.GameSaved? ==>
      && r.totalGames == m.totalGames + 1
      && r.totalDuration == m.totalDuration + Duration(e.durationSeconds)
      && r.gamesPerHour.Keys == m.gamesPerHour.Keys + {hourKey(e.timestamp)}
      && CountOf(r.gamesPerHour, hourKey(e.timestamp)) == CountOf(m.gamesPerHour, hourKey(e.timestamp)) + 1
      && (forall k :: k != hourKey(e.timestamp) ==> CountOf(r.gamesPerHour, k) == CountOf(m.gamesPerHour, k))
      && r.userStats == m.userStats
    // its winner is credited exactly when real
    ensures e.GameSaved? && Credited(e.winner) ==>
      && r.winners.Keys == m.winners.Keys + {e.winner.value}
      && CountOf(r.winners, e.winner.value) == CountOf(m.winners, e.winner.value) + 1
      && (forall k :: k != e.winner.value ==> CountOf(r.winners, k) == CountOf(m.winners, k))
    ensures e.GameSaved? && !Credited(e.winner) ==> r.winners == m.winners
    // a standing update touches only that user's win/loss pair
    ensures e.LeaderboardUpdate? ==>
      var before := StatsOf(m.userStats, e.username);
      && r == m.(userStats := r.userStats)
      && r.userStats.Keys == m.userStats.Keys + {e.username}
      && (forall u :: u in m.userStats && u != e.username ==> r.userStats[u] == m.userStats[u])
      && r.userStats[e.username].wins == before.wins + (if e.result == Some("win") then 1 else 0)
      && r.userStats[e.username].losses == before.losses + (if e.result == Some("loss") then 1 else 0)
    // every other event only logs
    ensures !e.GameSaved? && !e.LeaderboardUpdate? ==> r == m
  {
    match e
    case GameSaved(d, ts, w) =>
      m.(totalGames := m.totalGames + 1,
         totalDuration := m.totalDuration + Duration(d),
         gamesPerHour := Bump(m.gamesPerHour, hourKey(ts)),
         winners := if Credited(w) then Bump(m.winners, w.value) else m.winners)
    case LeaderboardUpdate(u, res) =>
      var s := StatsOf(m.userStats, u);
      var s' := if res == Some("win") then s.(wins := s.wins + 1) else s;
      var s'' := if res == Some("loss") then s'.(losses := s'.losses + 1) else s';
      m.(userStats := m.userStats[u := s''])
    case _ => m
  }

  /** The logging of the event throws, which skips the snapshot test: both
      copies join `event.players`, and the root copy also upper-cases
      `event.result`. */
  predicate LogThrows(copy: Copy, e: Event) {
    match e
    case GameStarted(ps) => ps.None?
    case GameOver(ps) => ps.None?
    case LeaderboardUpdate(_, res) => copy == RootCopy && res.None?
    case _ => false
  }

  datatype Step = Step(metrics: Metrics, snapshot: bool)

  /** `processEvent(event)` of the given copy. */
  function ProcessEvent(copy: Copy, m: Metrics, e: Event, hourKey: int -> string): (r: Step)
    ensures r.metrics == Fold(m, e, hourKey)
    // a snapshot save starts whenever the game count, with this event's
    // saved game if any, is a multiple of five, zero included
    ensures r.snapshot <==> !LogThrows(copy, e) && (m.totalGames + (if e.GameSaved? then 1 else 0)) % 5 == 0
  {
    var m' := Fold(m, e, hourKey);
    Step(m', !LogThrows(copy, e) && m'.totalGames % 5 == 0)
  }

  /** The two copies agree on the metrics, and on the snapshot for every
      event but a standing update without a result. */
  lemma CopiesAgree(m: Metrics, e: Event, hourKey: int -> string)
    ensures ProcessEvent(BackendCopy, m, e, hourKey).metrics == ProcessEvent(RootCopy, m, e, hourKey).metrics
    ensures ProcessEvent(BackendCopy, m, e, hourKey).snapshot != ProcessEvent(RootCopy, m, e, hourKey).snapshot
      <==> e.LeaderboardUpdate? && e.result.None? && Fold(m, e, hourKey).totalGames % 5 == 0
  {
  }

  // ---------------------------------------------------------------------
  // Folding a stream of events

  function FoldAll(m: Metrics, es: seq<Event>, hourKey: int -> string): Metrics
    decreases |es|
  {
    if |es| == 0 then m else FoldAll(Fold(m, es[0], hourKey), es[1..], hourKey)
  }

  function SavedCount(es: seq<Event>): nat {
    if |es| == 0 then 0 else (if es[0].GameSaved? then 1 else 0) + SavedCount(es[1..])
  }

  /** No hour and no winner has more games than were saved in all. */
  ghost predicate Bounded(m: Metrics) {
    && (forall k :: k in m.gamesPerHour ==> m.gamesPerHour[k] <= m.totalGames)
    && (forall k :: k in m.winners ==> m.winners[k] <= m.totalGames)
  }

  lemma FoldKeepsBounded(m: Metrics, e: Event, hourKey: int -> string)
    requires Bounded(m)
    ensures Bounded(Fold(m, e, hourKey))
  {
    var r := Fold(m, e, hourKey);
    if e.GameSaved? {
      forall k | k in r.gamesPerHour
        ensures r.gamesPerHour[k] <= r.totalGames
      {
        assert r.gamesPerHour[k] == CountOf(r.gamesPerHour, k);
      }
      forall k | k in r.winners
        ensures r.winners[k] <= r.totalGames
      {
        assert r.winners[k] == CountOf(r.winners, k);
      }
    }
  }

  /** Folding a stream counts exactly its saved games, and every per-hour
      and per-winner count stays within that total. */
  lemma {:induction false} FoldAllCountsSavedGames(m: Metrics, es: seq<Event>, hourKey: int -> string)
    requires Bounded(m)
    ensures FoldAll(m, es, hourKey).totalGames == m.totalGames + SavedCount(es)
    ensures Bounded(FoldAll(m, es, hourKey))
    decreases |es|
  {
    if |es| > 0 {
      FoldKeepsBounded(m, es[0], hourKey);
      FoldAllCountsSavedGames(Fold(m, es[0], hourKey), es[1..], hourKey);
    }
  }

  /** The consumer's run over a stream: the final metrics and, per event,
      whether it started a snapshot save. */
  datatype Trace = Trace(metrics: Metrics, snapshots: seq<bool>)

  function ProcessAll(copy: Copy, m: Metrics, es: seq<Event>, hourKey: int -> string): (t: Trace)
    ensures |t.snapshots| == |es|
    ensures t.metrics == FoldAll(m, es, hourKey)
    decreases |es|
  {
    if |es| == 0 then Trace(m, [])
    else
      var s := ProcessEvent(copy, m, es[0], hourKey);
      var t := ProcessAll(copy, s.metrics, es[1..], hourKey);
      Trace(t.metrics, [s.snapshot] + t.snapshots)
  }

  /** Event i of a stream starts a snapshot save exactly when its logging
      succeeds and the saved games so far, itself included, bring the count
      to a multiple of five. */
  lemma {:induction false} SnapshotsFollowSavedGames(copy: Copy, m: Metrics, es: seq<Event>, hourKey: int -> string)
    ensures forall i :: 0 <= i < |es| ==>
      (ProcessAll(copy, m, es, hourKey).snapshots[i] <==>
         !LogThrows(copy, es[i]) && (m.totalGames + SavedCount(es[..i + 1])) % 5 == 0)
    decreases |es|
  {
    if |es| > 0 {
      var m' := Fold(m, es[0], hourKey);
      var t := ProcessAll(copy, m, es, hourKey);
      SnapshotsFollowSavedGames(copy, m', es[1..], hourKey);
      forall i | 0 <= i < |es|
        ensures t.snapshots[i] <==> !LogThrows(copy, es[i]) && (m.totalGames + SavedCount(es[..i + 1])) % 5 == 0
      {
        if i == 0 {
          assert es[..1][1..] == [];
        } else {
          assert es[..i + 1][1..] == es[1..][..i];
          assert es[..i + 1][0] == es[0];
        }
      }
    }
  }

  /** From the starting metrics, a saved game starts a snapshot save
      exactly when it is the fifth, tenth, fifteenth, ... saved game. */
  lemma EveryFifthSaveSnapshots(copy: Copy, es: seq<Event>, hourKey: int -> string, i: int)
    requires 0 <= i < |es| && es[i].GameSaved?
    ensures ProcessAll(copy, Initial, es, hourKey).snapshots[i] <==> SavedCount(es[..i + 1]) % 5 == 0
  {
    SnapshotsFollowSavedGames(copy, Initial, es, hourKey);
  }

  /** Before the first saved game every event whose logging succeeds
      starts a snapshot save. */
  lemma SnapshotAtZeroGames(copy: Copy, e: Event, hourKey: int -> string)
    requires !e.GameSaved? && !LogThrows(copy, e)
    ensures ProcessEvent(copy, Initial, e, hourKey).snapshot
  {
  }
}
