/**
 * src/stratum-race.js: open races keyed by canonical prevhash, their timers,
 * the ring of recently seen hashes, and the rows they leave behind.
 *
 * The state is a value and each event handler is a function on it; the class in
 * StratumWorker updates its fields in place to exactly that function.
 * Latencies are nanoseconds between two readings of the monotonic clock.
 */
module StratumRace {
  import opened Prevhash

  type PoolId = nat
  type RaceId = nat
  type TimerId = nat

  const MAX_OPEN_RACES := 10
  const RECENT_PREVHASH_LIMIT := 64

  // reported: a JavaScript Set, which keeps its members in insertion order.
  datatype Race = Race(id: RaceId, startHr: int, reported: seq<PoolId>, excused: set<PoolId>, timer: TimerId)

  // A row of stratum_observation; both fields null is a miss.
  datatype Row = Timed(latency: int, rank: nat) | Miss

  datatype State = State(
    open: map<string, Race>,
    timers: map<TimerId, string>,
    nextTimer: TimerId,
    recent: seq<string>,
    active: set<PoolId>,
    races: map<string, RaceId>,            // stratum_race, UNIQUE(prevhash)
    nextRace: RaceId,                      // AUTOINCREMENT
    pools: set<PoolId>,                    // ids in stratum_pool
    rows: map<(RaceId, PoolId), Row>)      // stratum_observation, PRIMARY KEY(race_id, pool_id)

  const START := State(map[], map[], 0, [], {}, map[], 0, {}, map[])

  // ---- The three statements ----------------------------------------------

  // A row for a pool that has been deleted violates the foreign key: the
  // statement throws, the handler logs it and goes on.
  function RecordReport(s: State, race: RaceId, pool: PoolId, latency: int, rank: nat): State {
    if pool !in s.pools then s
    else if (race, pool) in s.rows && s.rows[(race, pool)].Timed? then s
    else s.(rows := s.rows[(race, pool) := Timed(latency, rank)])
  }

  function RecordMiss(s: State, race: RaceId, pool: PoolId): State {
    if pool !in s.pools || (race, pool) in s.rows then s
    else s.(rows := s.rows[(race, pool) := Miss])
  }

  function Remember(recent: seq<string>, hash: string): seq<string> {
    if hash in recent then recent
    else
      var longer := recent + [hash];
      if |longer| > RECENT_PREVHASH_LIMIT then longer[1..] else longer
  }

  // ---- The handlers ------------------------------------------------------

  // Everyone in `pools` gets a miss; the order of the inserts does not show.
  function Misses(s: State, race: RaceId, charged: set<PoolId>): State {
    s.(rows := s.rows + map p | p in charged && p in s.pools && (race, p) !in s.rows :: (race, p) := Miss)
  }

  function Charged(s: State, race: Race): set<PoolId> {
    set p | p in s.active && p !in race.reported && p !in race.excused
  }

  function FinalizeKey(s: State, key: string): State {
    if key !in s.open then s
    else
      var race := s.open[key];
      var closed := s.(open := s.open - {key}, timers := s.timers - {race.timer});
      Misses(closed, race.id, Charged(s, race))
  }

  function Finalize(s: State, hash: string): State { FinalizeKey(s, Canonical(hash)) }

  function Report(s: State, pool: PoolId, key: string, hr: int): State
    requires key in s.open
  {
    var race := s.open[key];
    if pool in race.reported then s
    else
      var joined := race.(reported := race.reported + [pool]);
      RecordReport(s.(open := s.open[key := joined]), race.id, pool, hr - race.startHr, |joined.reported|)
  }

  // INSERT OR IGNORE reported one change: the race is new in the database too.
  function Open(s: State, key: string, hr: int): State {
    s.(races := s.races[key := s.nextRace], nextRace := s.nextRace + 1,
       recent := Remember(s.recent, key),
       timers := s.timers[s.nextTimer := key], nextTimer := s.nextTimer + 1,
       open := s.open[key := Race(s.nextRace, hr, [], {}, s.nextTimer)])
  }

  // A pool that finished connecting in the middle of a race.
  function Excuse(s: State, pool: PoolId, key: string): State
    requires key in s.open
  {
    var race := s.open[key];
    s.(open := s.open[key := race.(excused := race.excused + {pool})])
  }

  datatype Handling = Ignore | RememberOnly | ExcusePool | ReportTo | OpenNew

  function HandlingOf(s: State, key: string, firstAfterConnect: bool): Handling {
    if key !in s.open then
      if firstAfterConnect then RememberOnly
      else if key in s.recent then Ignore
      else if |s.open| >= MAX_OPEN_RACES then Ignore
      else if key in s.races then RememberOnly
      else OpenNew
    else if firstAfterConnect then ExcusePool
    else ReportTo
  }

  function NotifyKey(s: State, pool: PoolId, key: string, hr: int, firstAfterConnect: bool): State {
    match HandlingOf(s, key, firstAfterConnect)
    case Ignore => s
    case RememberOnly => s.(recent := Remember(s.recent, key))
    case ExcusePool => Excuse(s, pool, key)
    case ReportTo => Report(s, pool, key, hr)
    case OpenNew => Report(Open(s, key, hr), pool, key, hr)
  }

  function Notify(s: State, pool: PoolId, hash: string, hr: int, firstAfterConnect: bool): State {
    if hash == "" then s else NotifyKey(s, pool, Canonical(hash), hr, firstAfterConnect)
  }

  function Abandon(s: State): State {
    s.(timers := s.timers - set key | key in s.open :: s.open[key].timer, open := map[])
  }

  function ShutDown(s: State): State {
    Abandon(s).(active := {})
  }

  // A timer that has fired is gone before its callback runs.
  function Fire(s: State, timer: TimerId): State {
    if timer !in s.timers then s
    else Finalize(s.(timers := s.timers - {timer}), s.timers[timer])
  }

  // ---- Runs --------------------------------------------------------------

  // Everything that can happen to the worker while race rows are kept:
  // a job arrives, a timer fires, the switch goes off or the process stops,
  // a refresh changes which pools are watched, a pool row is added or removed, the
  // process starts anew with its memory empty and its own reading of the clock.
  datatype Event =
    | Job(pool: PoolId, hash: string, hr: int, firstAfterConnect: bool)
    | Timeout(timer: TimerId)
    | Off
    | Watch(pools: set<PoolId>)
    | PoolAdded(pool: PoolId)
    | PoolDeleted(pool: PoolId)
    | Restart(hr: int)

  function Step(s: State, e: Event): State {
    match e
    case Job(pool, hash, hr, first) => Notify(s, pool, hash, hr, first)
    case Timeout(timer) => Fire(s, timer)
    case Off => ShutDown(s)
    case Watch(pools) => s.(active := pools)
    case PoolAdded(pool) => s.(pools := s.pools + {pool})
    case PoolDeleted(pool) =>
      s.(pools := s.pools - {pool}, rows := s.rows - set k | k in s.rows && k.1 == pool)
    case Restart(_) => s.(open := map[], timers := map[], nextTimer := 0, recent := [], active := {})
  }

  function Run(s: State, events: seq<Event>): State
    decreases |events|
  {
    if |events| == 0 then s else Run(Step(s, events[0]), events[1..])
  }

  // The monotonic clock: readings never go down while the process lives.
  ghost predicate ClockRuns(now: int, events: seq<Event>)
    decreases |events|
  {
    |events| == 0 ||
    ((events[0].Job? ==> now <= events[0].hr) && ClockRuns(ClockAfter(now, events[0]), events[1..]))
  }

  ghost function ClockAfter(now: int, e: Event): int { if e.Job? || e.Restart? then e.hr else now }

  // ---- What every event keeps --------------------------------------------

  ghost predicate KeysOk(s: State) {
    && (forall h :: h in s.open ==> h in s.races && s.races[h] == s.open[h].id)
    && (forall h :: h in s.races ==> s.races[h] < s.nextRace)
    && (forall h, k :: h in s.races && k in s.races && s.races[h] == s.races[k] ==> h == k)
    && (forall k :: k in s.rows ==> k.0 < s.nextRace)
  }

  // Pending timers and open races pair off.
  ghost predicate TimersOk(s: State) {
    && (forall h :: h in s.open ==> s.open[h].timer in s.timers && s.timers[s.open[h].timer] == h)
    && (forall t :: t in s.timers ==> t < s.nextTimer && s.timers[t] in s.open && s.open[s.timers[t]].timer == t)
  }

  ghost predicate SizesOk(s: State) {
    && |s.open| <= MAX_OPEN_RACES
    && |s.recent| <= RECENT_PREVHASH_LIMIT
    && (forall i, j :: 0 <= i < j < |s.recent| ==> s.recent[i] != s.recent[j])
  }

  ghost predicate IsTimed(s: State, r: RaceId, p: PoolId) { (r, p) in s.rows && s.rows[(r, p)].Timed? }

  // Within one race, whatever its fate: ranks are distinct, rank 1 is 0, and a
  // better rank never has the longer latency.
  ghost predicate RanksOk(s: State) {
    && (forall r: RaceId, p: PoolId :: IsTimed(s, r, p) ==>
          var row := s.rows[(r, p)]; row.rank >= 1 && row.latency >= 0 && (row.rank == 1 ==> row.latency == 0))
    && (forall r: RaceId, p: PoolId, q: PoolId :: IsTimed(s, r, p) && IsTimed(s, r, q) && p != q ==>
          var a, b := s.rows[(r, p)], s.rows[(r, q)];
          a.rank != b.rank && (a.rank < b.rank ==> a.latency <= b.latency))
  }

  ghost predicate RaceOk(s: State, race: Race, now: int) {
    && race.startHr <= now && 1 <= |race.reported|
    && (forall i, j :: 0 <= i < j < |race.reported| ==> race.reported[i] != race.reported[j])
    && (forall p: PoolId :: (race.id, p) in s.rows ==> p in race.reported && s.rows[(race.id, p)].Timed?)
    && (forall i :: 0 <= i < |race.reported| && (race.id, race.reported[i]) in s.rows ==>
          s.rows[(race.id, race.reported[i])].rank == i + 1
          && s.rows[(race.id, race.reported[i])].latency <= now - race.startHr)
  }

  ghost predicate RacesOk(s: State, now: int) {
    forall h :: h in s.open ==> RaceOk(s, s.open[h], now)
  }

  ghost predicate Inv(s: State, now: int) {
    KeysOk(s) && TimersOk(s) && SizesOk(s) && RanksOk(s) && RacesOk(s, now)
  }

  lemma RememberKeepsSizes(recent: seq<string>, hash: string)
    requires |recent| <= RECENT_PREVHASH_LIMIT
    requires forall i, j :: 0 <= i < j < |recent| ==> recent[i] != recent[j]
    ensures var r := Remember(recent, hash);
      |r| <= RECENT_PREVHASH_LIMIT && hash in r && forall i, j :: 0 <= i < j < |r| ==> r[i] != r[j]
  {
    if hash !in recent {
      var longer := recent + [hash];
      assert longer[|longer| - 1] == hash;
      assert Remember(recent, hash)[|Remember(recent, hash)| - 1] == hash;
    }
  }

  // Opening is followed by the opener's own report in the same handler, so the
  // race in between, which nobody has reported to, gets its own description.
  ghost predicate JustOpened(s: State, key: string, hr: int) {
    && key in s.open && s.open[key].reported == [] && s.open[key].startHr == hr
    && (forall p: PoolId :: (s.open[key].id, p) !in s.rows)
    && (forall h :: h in s.open && h != key ==> RaceOk(s, s.open[h], hr))
  }

  lemma OpenKeepsKeys(s: State, key: string, hr: int)
    requires KeysOk(s) && key !in s.races
    ensures KeysOk(Open(s, key, hr))
  {
  }

  lemma OpenKeepsTimers(s: State, key: string, hr: int)
    requires TimersOk(s) && key !in s.open
    ensures TimersOk(Open(s, key, hr))
  {
  }

  lemma OpenKeepsRows(s: State, key: string, hr: int, now: int)
    requires KeysOk(s) && RanksOk(s) && RacesOk(s, now) && now <= hr
    ensures RanksOk(Open(s, key, hr)) && JustOpened(Open(s, key, hr), key, hr)
  {
    var t := Open(s, key, hr);
    assert forall r: RaceId, p: PoolId :: IsTimed(t, r, p) == IsTimed(s, r, p);
    forall h | h in t.open && h != key ensures RaceOk(t, t.open[h], hr) {
      assert RaceOk(s, s.open[h], now);
    }
  }

  lemma OpenKeepsSizes(s: State, key: string, hr: int)
    requires SizesOk(s) && |s.open| < MAX_OPEN_RACES
    ensures SizesOk(Open(s, key, hr))
  {
    RememberKeepsSizes(s.recent, key);
    var t := Open(s, key, hr);
    assert t.open.Keys == s.open.Keys + {key};
    assert |t.open| == |t.open.Keys| && |s.open| == |s.open.Keys|;
  }

  lemma ReportKeepsRanks(s: State, pool: PoolId, key: string, hr: int)
    requires RanksOk(s) && key in s.open && pool !in s.open[key].reported
    requires RaceOk(s, s.open[key], hr) || JustOpened(s, key, hr)
    ensures RanksOk(Report(s, pool, key, hr))
  {
    var race, t := s.open[key], Report(s, pool, key, hr);
    forall r: RaceId, p: PoolId | IsTimed(t, r, p) && (r, p) != (race.id, pool)
      ensures IsTimed(s, r, p) && t.rows[(r, p)] == s.rows[(r, p)]
    {
    }
    forall p: PoolId | IsTimed(t, race.id, p) && p != pool
      ensures p in race.reported && t.rows[(race.id, p)].rank <= |race.reported|
      ensures t.rows[(race.id, p)].latency <= hr - race.startHr
    {
      assert IsTimed(s, race.id, p);
      var i :| 0 <= i < |race.reported| && race.reported[i] == p;
    }
  }

  // Every other open race is untouched by a report, and so are its rows.
  lemma ReportIsLocal(s: State, pool: PoolId, key: string, hr: int)
    requires key in s.open
    ensures var t := Report(s, pool, key, hr);
      && t.open.Keys == s.open.Keys
      && (forall h :: h in s.open && h != key ==> t.open[h] == s.open[h])
      && (forall k :: k in s.rows ==> k in t.rows && (k.0 != s.open[key].id ==> t.rows[k] == s.rows[k]))
      && (forall k :: k in t.rows && k !in s.rows ==> k == (s.open[key].id, pool))
      && t.open[key].id == s.open[key].id && t.open[key].timer == s.open[key].timer
      && t.timers == s.timers && t.races == s.races && t.nextRace == s.nextRace && t.nextTimer == s.nextTimer
      && t.recent == s.recent
  {
    var race := s.open[key];
    if pool !in race.reported {
      var joined := race.(reported := race.reported + [pool]);
      ReportRowIsLocal(s.(open := s.open[key := joined]), race.id, pool, hr - race.startHr, |joined.reported|);
    }
  }

  lemma ReportRowIsLocal(s: State, race: RaceId, pool: PoolId, latency: int, rank: nat)
    ensures var t := RecordReport(s, race, pool, latency, rank);
      && t == s.(rows := t.rows)
      && (forall k :: k in s.rows ==> k in t.rows && (k.0 != race ==> t.rows[k] == s.rows[k]))
      && (forall k :: k in t.rows && k !in s.rows ==> k == (race, pool))
  {
  }

  lemma ReportKeepsRaces(s: State, pool: PoolId, key: string, hr: int, now: int)
    requires key in s.open && KeysOk(s) && now <= hr
    requires RaceOk(s, s.open[key], now) || JustOpened(s, key, hr)
    requires forall h :: h in s.open && h != key ==> RaceOk(s, s.open[h], now)
    ensures RacesOk(Report(s, pool, key, hr), hr)
  {
    var t := Report(s, pool, key, hr);
    ReportIsLocal(s, pool, key, hr);
    forall h | h in t.open ensures RaceOk(t, t.open[h], hr) {
      if h != key {
        assert RaceOk(s, s.open[h], now);
        assert t.open[h] == s.open[h] && s.open[h].id != s.open[key].id;
      } else if pool in s.open[key].reported {
        assert t == s;
      } else {
        ReporterJoins(s, pool, key, hr, now);
      }
    }
  }

  lemma ReporterJoins(s: State, pool: PoolId, key: string, hr: int, now: int)
    requires key in s.open && now <= hr && pool !in s.open[key].reported
    requires RaceOk(s, s.open[key], now) || JustOpened(s, key, hr)
    ensures RaceOk(Report(s, pool, key, hr), Report(s, pool, key, hr).open[key], hr)
  {
  }

  lemma ReportKeepsTheRest(s: State, pool: PoolId, key: string, hr: int)
    requires key in s.open && KeysOk(s) && TimersOk(s) && SizesOk(s)
    ensures var t := Report(s, pool, key, hr); KeysOk(t) && TimersOk(t) && SizesOk(t)
  {
    ReportIsLocal(s, pool, key, hr);
    SameKeysKeep(s, Report(s, pool, key, hr));
  }

  lemma SameKeysKeep(s: State, t: State)
    requires KeysOk(s) && TimersOk(s) && SizesOk(s)
    requires t.open.Keys == s.open.Keys
    requires forall h :: h in s.open ==> t.open[h].id == s.open[h].id && t.open[h].timer == s.open[h].timer
    requires t.timers == s.timers && t.races == s.races && t.nextRace == s.nextRace && t.nextTimer == s.nextTimer
    requires t.recent == s.recent && forall k :: k in t.rows ==> k.0 < s.nextRace
    ensures KeysOk(t) && TimersOk(t) && SizesOk(t)
  {
    assert |t.open| == |t.open.Keys| == |s.open|;
  }

  lemma ReportKeeps(s: State, pool: PoolId, key: string, hr: int, now: int)
    requires key in s.open && now <= hr
    requires Inv(s, now) ||
      (KeysOk(s) && TimersOk(s) && SizesOk(s) && RanksOk(s) && JustOpened(s, key, hr) && now == hr)
    ensures Inv(Report(s, pool, key, hr), hr)
  {
    ReportKeepsTheRest(s, pool, key, hr);
    ReportKeepsRaces(s, pool, key, hr, now);
    if pool !in s.open[key].reported {
      if Inv(s, now) { LaterIsFine(s, s.open[key], now, hr); }
      ReportKeepsRanks(s, pool, key, hr);
    }
  }

  lemma LaterIsFine(s: State, race: Race, now: int, later: int)
    requires RaceOk(s, race, now) && now <= later
    ensures RaceOk(s, race, later)
  {
  }

  lemma RacesLaterFine(s: State, now: int, later: int)
    requires Inv(s, now) && now <= later
    ensures Inv(s, later)
  {
    forall h | h in s.open ensures RaceOk(s, s.open[h], later) { LaterIsFine(s, s.open[h], now, later); }
  }

  lemma NotifyKeeps(s: State, pool: PoolId, key: string, hr: int, first: bool, now: int)
    requires Inv(s, now) && now <= hr
    ensures Inv(NotifyKey(s, pool, key, hr, first), hr)
  {
    RacesLaterFine(s, now, hr);
    match HandlingOf(s, key, first)
    case Ignore =>
    case RememberOnly => RememberKeeps(s, key, hr);
    case ExcusePool => ExcuseKeeps(s, pool, key, hr);
    case ReportTo => ReportKeeps(s, pool, key, hr, now);
    case OpenNew =>
      OpenKeepsKeys(s, key, hr);
      OpenKeepsTimers(s, key, hr);
      OpenKeepsRows(s, key, hr, now);
      OpenKeepsSizes(s, key, hr);
      ReportKeeps(Open(s, key, hr), pool, key, hr, hr);
  }

  // Ranks and races read the rows and nothing else of the rest of the state.
  lemma SameRowsSameRanks(s: State, t: State)
    requires RanksOk(s) && t.rows == s.rows
    ensures RanksOk(t)
  {
    assert forall r: RaceId, p: PoolId :: IsTimed(t, r, p) == IsTimed(s, r, p);
  }

  lemma SameRowsSameRaces(s: State, t: State, now: int)
    requires RacesOk(s, now) && t.rows == s.rows
    requires forall h :: h in t.open ==> h in s.open && t.open[h].(excused := {}) == s.open[h].(excused := {})
    ensures RacesOk(t, now)
  {
    forall h | h in t.open ensures RaceOk(t, t.open[h], now) {
      assert RaceOk(s, s.open[h], now);
      SameReport(s.open[h], t.open[h]);
    }
  }

  lemma SameReport(a: Race, b: Race)
    requires a.(excused := {}) == b.(excused := {})
    ensures a.id == b.id && a.startHr == b.startHr && a.reported == b.reported && a.timer == b.timer
  {
  }

  lemma RememberKeeps(s: State, key: string, now: int)
    requires Inv(s, now)
    ensures Inv(s.(recent := Remember(s.recent, key)), now)
  {
    RememberKeepsSizes(s.recent, key);
    var t := s.(recent := Remember(s.recent, key));
    SameRowsSameRanks(s, t);
    SameRowsSameRaces(s, t, now);
  }

  lemma ExcuseKeepsTimers(s: State, pool: PoolId, key: string)
    requires KeysOk(s) && TimersOk(s) && SizesOk(s) && key in s.open
    ensures var t := Excuse(s, pool, key); KeysOk(t) && TimersOk(t) && SizesOk(t)
  {
    SameKeysKeep(s, Excuse(s, pool, key));
  }

  lemma ExcuseKeeps(s: State, pool: PoolId, key: string, now: int)
    requires Inv(s, now) && key in s.open
    ensures Inv(Excuse(s, pool, key), now)
  {
    ExcuseKeepsTimers(s, pool, key);
    SameRowsSameRanks(s, Excuse(s, pool, key));
    SameRowsSameRaces(s, Excuse(s, pool, key), now);
  }

  // ---- Closing -----------------------------------------------------------

  function Close(s: State, key: string): State
    requires key in s.open
  {
    s.(open := s.open - {key}, timers := s.timers - {s.open[key].timer})
  }

  lemma CloseKeepsTimers(s: State, key: string)
    requires KeysOk(s) && TimersOk(s) && key in s.open
    ensures KeysOk(Close(s, key)) && TimersOk(Close(s, key))
  {
    var t := Close(s, key);
    forall x | x in t.timers ensures t.timers[x] in t.open && t.open[t.timers[x]].timer == x {
      assert x in s.timers && s.timers[x] in s.open;
    }
  }

  lemma CloseKeeps(s: State, key: string, now: int)
    requires Inv(s, now) && key in s.open
    ensures Inv(Close(s, key), now)
    ensures forall h :: h in Close(s, key).open ==> Close(s, key).open[h].id != s.open[key].id
  {
    CloseKeepsTimers(s, key);
    var t := Close(s, key);
    assert |t.open| <= |s.open| by { assert t.open.Keys == s.open.Keys - {key}; }
    SameRowsSameRanks(s, t);
    SameRowsSameRaces(s, t, now);
  }

  lemma MissesAddOnly(s: State, race: RaceId, charged: set<PoolId>)
    ensures var t := Misses(s, race, charged);
      && (forall k :: k in s.rows ==> k in t.rows && t.rows[k] == s.rows[k])
      && (forall k :: k in t.rows && k !in s.rows ==> t.rows[k] == Miss)
      && (forall k :: k in t.rows && k !in s.rows <==> k !in s.rows && k.0 == race && k.1 in charged && k.1 in s.pools)
  {
  }

  lemma MissesKeep(s: State, race: RaceId, charged: set<PoolId>, now: int)
    requires Inv(s, now) && race < s.nextRace
    requires forall h :: h in s.open ==> s.open[h].id != race
    ensures Inv(Misses(s, race, charged), now)
  {
    MissesAddOnly(s, race, charged);
    var t := Misses(s, race, charged);
    MoreMissesSameRanks(s, t);
    forall h | h in t.open ensures RaceOk(t, t.open[h], now) {
      assert RaceOk(s, s.open[h], now);
      MissesElsewhere(s, t, s.open[h], race, now);
    }
  }

  lemma MoreMissesSameRanks(s: State, t: State)
    requires RanksOk(s)
    requires forall k :: k in s.rows ==> k in t.rows && t.rows[k] == s.rows[k]
    requires forall k :: k in t.rows && k !in s.rows ==> t.rows[k] == Miss
    ensures RanksOk(t)
  {
    assert forall r: RaceId, p: PoolId :: IsTimed(t, r, p) ==> IsTimed(s, r, p) && t.rows[(r, p)] == s.rows[(r, p)];
  }

  lemma MissesElsewhere(s: State, t: State, other: Race, race: RaceId, now: int)
    requires RaceOk(s, other, now) && other.id != race
    requires forall k :: k in s.rows ==> k in t.rows && t.rows[k] == s.rows[k]
    requires forall k :: k in t.rows && k !in s.rows ==> k.0 == race
    ensures RaceOk(t, other, now)
  {
  }

  // Every key is its own canonical form. This is what lets a timer, which
  // hands its key to the same entry point a raw hash goes through, close the
  // race it was set for.
  ghost predicate Keyed(s: State) { forall h :: h in s.open ==> Canonical(h) == h }

  lemma FireIsOnTheKey(s: State, timer: TimerId)
    requires Keyed(s) && TimersOk(s) && timer in s.timers
    ensures Fire(s, timer) == FinalizeKey(s.(timers := s.timers - {timer}), s.timers[timer])
  {
  }

  lemma FireClosesAndCharges(s: State, timer: TimerId)
    requires Keyed(s) && TimersOk(s) && timer in s.timers
    ensures var key := s.timers[timer];
      key in s.open && Fire(s, timer) == Misses(Close(s, key), s.open[key].id, Charged(s, s.open[key]))
  {
    FireIsOnTheKey(s, timer);
    FinalizeClosesAndCharges(s, timer);
  }

  lemma FinalizeClosesAndCharges(s: State, timer: TimerId)
    requires TimersOk(s) && timer in s.timers
    ensures var key := s.timers[timer];
      && key in s.open
      && FinalizeKey(s.(timers := s.timers - {timer}), key) == Misses(Close(s, key), s.open[key].id, Charged(s, s.open[key]))
  {
    var key := s.timers[timer];
    var race := s.open[key];
    var fired := s.(timers := s.timers - {timer});
    assert fired.timers - {race.timer} == s.timers - {race.timer};
    assert Charged(fired, race) == Charged(s, race);
  }

  // What a race that runs into its timeout leaves behind: a miss for every
  // watched pool (still on file) that was neither timed nor excused, and no
  // other row changes. None of those pools had a row before.
  lemma TimeoutChargesExactly(s: State, timer: TimerId, now: int)
    requires Inv(s, now) && Keyed(s) && timer in s.timers
    ensures var key := s.timers[timer]; var race := s.open[key]; var t := Fire(s, timer);
      && key !in t.open && timer !in t.timers
      && (forall k :: k in t.rows && k !in s.rows <==>
            k.0 == race.id && k.1 in s.active && k.1 in s.pools && k.1 !in race.reported && k.1 !in race.excused)
      && (forall k :: k in t.rows && k !in s.rows ==> t.rows[k] == Miss)
      && (forall k :: k in s.rows ==> k in t.rows && t.rows[k] == s.rows[k])
  {
    FireClosesAndCharges(s, timer);
    var key := s.timers[timer];
    assert RaceOk(s, s.open[key], now);
    MissesAddOnly(Close(s, key), s.open[key].id, Charged(s, s.open[key]));
  }

  lemma FireKeeps(s: State, timer: TimerId, now: int)
    requires Inv(s, now) && Keyed(s)
    ensures Inv(Fire(s, timer), now)
  {
    if timer in s.timers {
      FireClosesAndCharges(s, timer);
      var key := s.timers[timer];
      CloseKeeps(s, key, now);
      MissesKeep(Close(s, key), s.open[key].id, Charged(s, s.open[key]), now);
    }
  }

  // Switching off or shutting down: nothing is left open or pending, nobody is
  // charged anything, and doing it twice is doing it once.
  lemma ShutDownReleases(s: State, now: int)
    requires Inv(s, now)
    ensures var t := ShutDown(s);
      && t.open == map[] && t.timers == map[] && t.active == {}
      && t.rows == s.rows && t.races == s.races
      && ShutDown(t) == t && Inv(t, now)
  {
    var t := ShutDown(s);
    NoTimerOutlives(s);
    ShutDownAgain(t);
    EmptyIsFine(s, t, now);
  }

  lemma ShutDownAgain(s: State)
    requires s.open == map[] && s.timers == map[] && s.active == {}
    ensures ShutDown(s) == s
  {
  }

  lemma NoTimerOutlives(s: State)
    requires TimersOk(s)
    ensures ShutDown(s).timers == map[]
  {
    forall x | x in s.timers ensures x !in ShutDown(s).timers { assert s.timers[x] in s.open; }
  }

  lemma EmptyIsFine(s: State, t: State, now: int)
    requires KeysOk(s) && SizesOk(s) && RanksOk(s)
    requires t.open == map[] && t.timers == map[]
    requires t.rows == s.rows && t.races == s.races && t.nextRace == s.nextRace
    requires t.recent == s.recent || t.recent == []
    ensures Inv(t, now)
  {
    SameRowsSameRanks(s, t);
  }

  lemma PoolDeletedKeeps(s: State, pool: PoolId, now: int)
    requires Inv(s, now)
    ensures Inv(Step(s, PoolDeleted(pool)), now)
  {
    FewerRowsKeep(s, Step(s, PoolDeleted(pool)), now);
  }

  lemma FewerRowsKeep(s: State, t: State, now: int)
    requires Inv(s, now)
    requires forall k :: k in t.rows ==> k in s.rows && t.rows[k] == s.rows[k]
    requires t.(rows := s.rows, pools := s.pools) == s
    ensures Inv(t, now)
  {
    assert forall r: RaceId, p: PoolId :: IsTimed(t, r, p) ==> IsTimed(s, r, p);
    forall h | h in t.open ensures RaceOk(t, t.open[h], now) { assert RaceOk(s, s.open[h], now); }
  }

  lemma StepKeepsKeyed(s: State, e: Event)
    requires Keyed(s) && TimersOk(s)
    ensures Keyed(Step(s, e))
  {
    forall h | h in Step(s, e).open ensures h in s.open || (e.Job? && h == Canonical(e.hash)) {
      if e.Job? && e.hash != "" {
        OnlyItsKeyOpens(s, e.pool, Canonical(e.hash), e.hr, e.firstAfterConnect, h);
      } else if e.Timeout? && e.timer in s.timers {
        FireClosesAndCharges(s, e.timer);
      }
    }
    if e.Job? { CanonicalIdempotent(e.hash); }
  }

  lemma OnlyItsKeyOpens(s: State, pool: PoolId, key: string, hr: int, first: bool, h: string)
    ensures h in NotifyKey(s, pool, key, hr, first).open ==> h in s.open || h == key
  {
  }

  lemma StepKeeps(s: State, e: Event, now: int)
    requires Inv(s, now) && Keyed(s) && (e.Job? ==> now <= e.hr)
    ensures Inv(Step(s, e), ClockAfter(now, e)) && Keyed(Step(s, e))
  {
    StepKeepsKeyed(s, e);
    if e.Job? {
      JobStepKeeps(s, e, now);
    } else if e.Timeout? {
      FireKeeps(s, e.timer, now);
    } else if e.Restart? {
      RestartKeeps(s, e, now);
    } else {
      QuietStepKeeps(s, e, now);
    }
  }

  lemma RestartKeeps(s: State, e: Event, now: int)
    requires Inv(s, now) && e.Restart?
    ensures Inv(Step(s, e), e.hr)
  {
    assert KeysOk(s) && SizesOk(s) && RanksOk(s);
    EmptyIsFine(s, Step(s, e), e.hr);
  }

  lemma JobStepKeeps(s: State, e: Event, now: int)
    requires Inv(s, now) && e.Job? && now <= e.hr
    ensures Inv(Step(s, e), e.hr)
  {
    RacesLaterFine(s, now, e.hr);
    if e.hash != "" { NotifyKeeps(s, e.pool, Canonical(e.hash), e.hr, e.firstAfterConnect, now); }
  }

  lemma QuietStepKeeps(s: State, e: Event, now: int)
    requires Inv(s, now) && !e.Job? && !e.Timeout? && !e.Restart?
    ensures Inv(Step(s, e), now)
  {
    if e.Off? {
      ShutDownReleases(s, now);
    } else if e.PoolDeleted? {
      PoolDeletedKeeps(s, e.pool, now);
    } else {
      SameRowsSameRanks(s, Step(s, e));
      SameRowsSameRaces(s, Step(s, e), now);
    }
  }

  ghost function ClockAtEnd(now: int, events: seq<Event>): int
    decreases |events|
  {
    if |events| == 0 then now else ClockAtEnd(ClockAfter(now, events[0]), events[1..])
  }

  // The invariant holds after any run whatever.
  lemma {:induction false} RunKeeps(s: State, events: seq<Event>, now: int)
    requires Inv(s, now) && Keyed(s) && ClockRuns(now, events)
    ensures Inv(Run(s, events), ClockAtEnd(now, events)) && Keyed(Run(s, events))
    decreases |events|
  {
    if |events| > 0 {
      StepKeeps(s, events[0], now);
      RunKeeps(Step(s, events[0]), events[1..], ClockAfter(now, events[0]));
    }
  }

  // Everything above, for every state the worker can reach.
  lemma AfterAnyRun(events: seq<Event>, now: int)
    requires ClockRuns(now, events)
    ensures var t := Run(START, events);
      Keyed(t) && KeysOk(t) && TimersOk(t) && SizesOk(t) && RanksOk(t) && RacesOk(t, ClockAtEnd(now, events))
  {
    RunKeeps(START, events, now);
  }

  // ---- What a job can touch ----------------------------------------------

  // A job for one key leaves every other open race as it was, with its timer
  // and every row that belongs to another race.
  ghost predicate Isolated(s: State, t: State, key: string, pool: PoolId) {
    && (forall h :: h in s.open && h != key ==> h in t.open && t.open[h] == s.open[h])
    && (forall h :: h in t.open && h != key ==> h in s.open)
    && (forall h :: h in s.races ==> h in t.races && t.races[h] == s.races[h])
    && (forall k :: k in s.rows ==> k in t.rows && (key in s.races ==> k.0 == s.races[key] || t.rows[k] == s.rows[k]))
    && (forall k :: k in t.rows && k !in s.rows ==> key in t.open && k == (t.open[key].id, pool))
    && (key in s.races && key !in s.open ==> t.open == s.open && t.rows == s.rows)
  }

  lemma JobsAreIsolated(s: State, pool: PoolId, key: string, hr: int, first: bool)
    requires KeysOk(s)
    ensures Isolated(s, NotifyKey(s, pool, key, hr, first), key, pool)
  {
    match HandlingOf(s, key, first)
    case Ignore =>
    case RememberOnly =>
    case ExcusePool =>
    case ReportTo => ReportIsolated(s, pool, key, hr);
    case OpenNew => OpenIsolated(s, pool, key, hr);
  }

  lemma ReportIsolated(s: State, pool: PoolId, key: string, hr: int)
    requires KeysOk(s) && key in s.open
    ensures Isolated(s, Report(s, pool, key, hr), key, pool)
  {
    ReportIsLocal(s, pool, key, hr);
  }

  lemma OpenIsolated(s: State, pool: PoolId, key: string, hr: int)
    requires KeysOk(s) && key !in s.open && key !in s.races
    ensures Isolated(s, Report(Open(s, key, hr), pool, key, hr), key, pool)
  {
    ReportIsLocal(Open(s, key, hr), pool, key, hr);
  }

  // The first job of a fresh connection is never timed: it opens nothing,
  // writes nothing, and takes no rank off anybody.
  lemma CatchUpJobIsNotTimed(s: State, pool: PoolId, hash: string, hr: int)
    ensures var t := Notify(s, pool, hash, hr, true);
      && t.rows == s.rows && t.races == s.races && t.timers == s.timers && t.open.Keys == s.open.Keys
      && (forall h :: h in s.open ==> t.open[h].reported == s.open[h].reported && t.open[h].startHr == s.open[h].startHr)
  {
    if hash != "" { CatchUpOnKey(s, pool, Canonical(hash), hr); }
  }

  lemma CatchUpOnKey(s: State, pool: PoolId, key: string, hr: int)
    ensures var t := NotifyKey(s, pool, key, hr, true);
      && t.rows == s.rows && t.races == s.races && t.timers == s.timers && t.open.Keys == s.open.Keys
      && (forall h :: h in s.open ==> t.open[h].reported == s.open[h].reported && t.open[h].startHr == s.open[h].startHr)
  {
    if key in s.open { assert Excuse(s, pool, key).open.Keys == s.open.Keys; }
  }

  // Whoever opens a race holds rank 1 at latency 0.
  lemma OpenerIsZero(s: State, pool: PoolId, key: string, hr: int, first: bool)
    requires KeysOk(s) && key !in s.open && key in NotifyKey(s, pool, key, hr, first).open
    ensures var t := NotifyKey(s, pool, key, hr, first); var race := t.open[key];
      && !first && key !in s.races && |s.open| < MAX_OPEN_RACES
      && race.id == s.nextRace && race.startHr == hr && race.reported == [pool]
      && (pool in s.pools ==> (race.id, pool) in t.rows && t.rows[(race.id, pool)] == Timed(0, 1))
  {
    assert HandlingOf(s, key, first) == OpenNew;
    var o := Open(s, key, hr);
    assert [] + [pool] == [pool];
    ReportIsLocal(o, pool, key, hr);
  }

  // ---- Over whole runs ---------------------------------------------------

  ghost predicate KeepsRow(s: State, t: State, k: (RaceId, PoolId)) {
    k in s.rows ==> k in t.rows && t.rows[k] == s.rows[k]
  }

  lemma StepKeepsRow(s: State, e: Event, k: (RaceId, PoolId), now: int)
    requires Inv(s, now) && Keyed(s) && e != PoolDeleted(k.1)
    ensures KeepsRow(s, Step(s, e), k)
  {
    if k !in s.rows {
    } else if e.Job? {
      if e.hash != "" { JobKeepsRow(s, e.pool, Canonical(e.hash), e.hr, e.firstAfterConnect, k, now); }
    } else if e.Timeout? {
      TimeoutKeepsRow(s, e.timer, k, now);
    } else {
      QuietStepKeepsRow(s, e, k);
    }
  }

  lemma TimeoutKeepsRow(s: State, timer: TimerId, k: (RaceId, PoolId), now: int)
    requires Inv(s, now) && Keyed(s)
    ensures KeepsRow(s, Fire(s, timer), k)
  {
    if timer in s.timers { TimeoutChargesExactly(s, timer, now); }
  }

  lemma QuietStepKeepsRow(s: State, e: Event, k: (RaceId, PoolId))
    requires !e.Job? && !e.Timeout? && e != PoolDeleted(k.1)
    ensures KeepsRow(s, Step(s, e), k)
  {
  }

  lemma JobKeepsRow(s: State, pool: PoolId, key: string, hr: int, first: bool, k: (RaceId, PoolId), now: int)
    requires Inv(s, now) && k in s.rows
    ensures var t := NotifyKey(s, pool, key, hr, first); k in t.rows && t.rows[k] == s.rows[k]
  {
    match HandlingOf(s, key, first)
    case Ignore =>
    case RememberOnly =>
    case ExcusePool =>
    case ReportTo =>
      assert RaceOk(s, s.open[key], now);
      ReportKeepsOwnRow(s, pool, key, hr, k, now);
    case OpenNew =>
      ReportIsLocal(Open(s, key, hr), pool, key, hr);
  }

  lemma ReportKeepsOwnRow(s: State, pool: PoolId, key: string, hr: int, k: (RaceId, PoolId), now: int)
    requires key in s.open && RaceOk(s, s.open[key], now) && k in s.rows
    ensures k in Report(s, pool, key, hr).rows && Report(s, pool, key, hr).rows[k] == s.rows[k]
  {
  }

  ghost predicate NeverDeleted(p: PoolId, events: seq<Event>) {
    forall i :: 0 <= i < |events| ==> events[i] != PoolDeleted(p)
  }

  // Once written, a row is final: a real result is never overwritten, and a
  // miss stands.
  lemma {:induction false} RowsAreFinal(s: State, events: seq<Event>, k: (RaceId, PoolId), now: int)
    requires Inv(s, now) && Keyed(s) && ClockRuns(now, events) && k in s.rows && NeverDeleted(k.1, events)
    ensures k in Run(s, events).rows && Run(s, events).rows[k] == s.rows[k]
    decreases |events|
  {
    if |events| > 0 {
      assert events[0] != PoolDeleted(k.1);
      StepKeepsRow(s, events[0], k, now);
      StepKeeps(s, events[0], now);
      assert KeepsRow(s, Step(s, events[0]), k);
      assert forall i :: 0 <= i < |events[1..]| ==> events[1..][i] == events[i + 1];
      RowsAreFinal(Step(s, events[0]), events[1..], k, ClockAfter(now, events[0]));
    }
  }

  // A race that is over is over: its key opens no second race, keeps its id,
  // and gets no further row - whether or not the ring still remembers it.
  ghost predicate IsOver(s: State, key: string) { key in s.races && key !in s.open }

  ghost predicate StaysOver(s: State, t: State, key: string)
    requires IsOver(s, key)
  {
    && IsOver(t, key) && t.races[key] == s.races[key]
    && (forall p: PoolId :: (s.races[key], p) in t.rows ==> (s.races[key], p) in s.rows)
  }

  lemma JobKeepsOver(s: State, pool: PoolId, k: string, hr: int, first: bool, key: string)
    requires KeysOk(s) && IsOver(s, key)
    ensures StaysOver(s, NotifyKey(s, pool, k, hr, first), key)
  {
    JobsAreIsolated(s, pool, k, hr, first);
    var t := NotifyKey(s, pool, k, hr, first);
    if k in t.open && k !in s.open {
      OpenerIsZero(s, pool, k, hr, first);
    } else if k in t.open {
      assert t.open[k].id == s.open[k].id by { if !first { ReportIsLocal(s, pool, k, hr); } }
    }
  }

  lemma StepKeepsOver(s: State, e: Event, key: string, now: int)
    requires Inv(s, now) && Keyed(s) && IsOver(s, key)
    ensures StaysOver(s, Step(s, e), key)
  {
    match e
    case Job(pool, hash, hr, first) => if hash != "" { JobKeepsOver(s, pool, Canonical(hash), hr, first, key); }
    case Timeout(timer) => if timer in s.timers { TimeoutKeepsOver(s, timer, key, now); }
    case Off =>
    case Watch(_) =>
    case PoolAdded(_) =>
    case PoolDeleted(_) =>
    case Restart(_) =>
  }

  lemma TimeoutKeepsOver(s: State, timer: TimerId, key: string, now: int)
    requires Inv(s, now) && Keyed(s) && IsOver(s, key) && timer in s.timers
    ensures StaysOver(s, Fire(s, timer), key)
  {
    FireClosesAndCharges(s, timer);
    TimeoutChargesExactly(s, timer, now);
  }

  lemma {:induction false} NoBlockIsRacedTwice(s: State, events: seq<Event>, key: string, now: int)
    requires Inv(s, now) && Keyed(s) && ClockRuns(now, events) && IsOver(s, key)
    ensures StaysOver(s, Run(s, events), key)
    decreases |events|
  {
    if |events| > 0 {
      StepKeepsOver(s, events[0], key, now);
      StepKeeps(s, events[0], now);
      NoBlockIsRacedTwice(Step(s, events[0]), events[1..], key, ClockAfter(now, events[0]));
    }
  }

  // ---- The result of a race, read off the events alone -------------------

  datatype Arrival = Arrival(pool: PoolId, hr: int)

  ghost predicate Counts(e: Event, key: string, already: seq<PoolId>) {
    e.Job? && e.hash != "" && Canonical(e.hash) == key && !e.firstAfterConnect && e.pool !in already
  }

  // The first timeable job of each pool for this block, in order of arrival.
  ghost function Arrivals(already: seq<PoolId>, key: string, events: seq<Event>): seq<Arrival>
    decreases |events|
  {
    if |events| == 0 then []
    else if Counts(events[0], key, already) then
      [Arrival(events[0].pool, events[0].hr)] + Arrivals(already + [events[0].pool], key, events[1..])
    else Arrivals(already, key, events[1..])
  }

  ghost predicate NoPoolDeleted(events: seq<Event>) {
    forall i :: 0 <= i < |events| ==> !events[i].PoolDeleted?
  }

  // One step of an open race that stays open.
  ghost predicate Advances(before: Race, s: State, t: State, key: string, counted: bool, pool: PoolId, hr: int) {
    && key in t.open
    && t.open[key].id == before.id && t.open[key].startHr == before.startHr
    && t.open[key].reported == (if counted then before.reported + [pool] else before.reported)
    && (counted && pool in s.pools ==>
          (before.id, pool) in t.rows && t.rows[(before.id, pool)] == Timed(hr - before.startHr, |before.reported| + 1))
  }

  lemma JobOnOpenRace(s: State, pool: PoolId, k: string, hr: int, first: bool, key: string, now: int)
    requires Inv(s, now) && key in s.open
    ensures Advances(s.open[key], s, NotifyKey(s, pool, k, hr, first), key,
                     k == key && !first && pool !in s.open[key].reported, pool, hr)
  {
    if k != key {
      JobsAreIsolated(s, pool, k, hr, first);
    } else {
      JobOnItsRace(s, pool, key, hr, first, now);
    }
  }

  lemma JobOnItsRace(s: State, pool: PoolId, key: string, hr: int, first: bool, now: int)
    requires key in s.open && RaceOk(s, s.open[key], now)
    ensures Advances(s.open[key], s, NotifyKey(s, pool, key, hr, first), key, !first && pool !in s.open[key].reported, pool, hr)
  {
  }

  ghost predicate Proceeds(s: State, e: Event, t: State, key: string)
    requires key in s.open
  {
    var counted := Counts(e, key, s.open[key].reported);
    if key in t.open then
      Advances(s.open[key], s, t, key, counted, if counted then e.pool else 0, if counted then e.hr else 0)
    else IsOver(t, key)
  }

  lemma StepOnOpenRace(s: State, e: Event, key: string, now: int)
    requires Inv(s, now) && Keyed(s) && key in s.open
    ensures Proceeds(s, e, Step(s, e), key)
  {
    if e.Job? {
      JobStepOnOpenRace(s, e, key, now);
    } else if e.Timeout? {
      TimeoutOnOpenRace(s, e, key);
    } else {
      QuietStepOnOpenRace(s, e, key, now);
    }
  }

  lemma JobStepOnOpenRace(s: State, e: Event, key: string, now: int)
    requires Inv(s, now) && key in s.open && e.Job?
    ensures Proceeds(s, e, Step(s, e), key)
  {
    if e.hash != "" { JobOnOpenRace(s, e.pool, Canonical(e.hash), e.hr, e.firstAfterConnect, key, now); }
  }

  lemma TimeoutOnOpenRace(s: State, e: Event, key: string)
    requires Keyed(s) && TimersOk(s) && KeysOk(s) && key in s.open && e.Timeout?
    ensures Proceeds(s, e, Step(s, e), key)
  {
    if e.timer in s.timers { FireClosesAndCharges(s, e.timer); }
  }

  lemma QuietStepOnOpenRace(s: State, e: Event, key: string, now: int)
    requires Inv(s, now) && key in s.open && !e.Job? && !e.Timeout?
    ensures Proceeds(s, e, Step(s, e), key)
  {
  }

  ghost predicate Recorded(race: Race, arrivals: seq<Arrival>, pools: set<PoolId>, t: State, key: string) {
    && key in t.open
    && t.open[key].id == race.id && t.open[key].startHr == race.startHr
    && t.open[key].reported == race.reported + seq(|arrivals|, i requires 0 <= i < |arrivals| => arrivals[i].pool)
    && (forall i :: 0 <= i < |arrivals| && arrivals[i].pool in pools ==>
          (race.id, arrivals[i].pool) in t.rows &&
          t.rows[(race.id, arrivals[i].pool)] == Timed(arrivals[i].hr - race.startHr, |race.reported| + i + 1))
  }

  // While a race is open its record is exactly its arrivals: the i-th distinct
  // timed pool holds rank i, and its latency is its arrival minus the opener's.
  lemma {:induction false} RaceRecordsItsArrivals(s: State, events: seq<Event>, key: string, now: int)
    requires Inv(s, now) && Keyed(s) && ClockRuns(now, events) && NoPoolDeleted(events)
    requires key in s.open && key in Run(s, events).open
    ensures Recorded(s.open[key], Arrivals(s.open[key].reported, key, events), s.pools, Run(s, events), key)
    decreases |events|
  {
    if |events| == 0 {
      NothingArrived(s, key);
    } else {
      OneStepOfTheRace(s, events, key, now);
      RaceRecordsItsArrivals(Step(s, events[0]), events[1..], key, ClockAfter(now, events[0]));
      RecordGrows(s, events, key, now);
    }
  }

  lemma NothingArrived(s: State, key: string)
    requires key in s.open
    ensures Recorded(s.open[key], [], s.pools, s, key)
  {
    assert s.open[key].reported + [] == s.open[key].reported;
  }

  lemma RecordGrows(s: State, events: seq<Event>, key: string, now: int)
    requires Inv(s, now) && Keyed(s) && ClockRuns(now, events) && NoPoolDeleted(events) && |events| > 0
    requires key in s.open && key in Run(s, events).open && key in Step(s, events[0]).open
    requires var mid, rest := Step(s, events[0]), events[1..];
      Recorded(mid.open[key], Arrivals(mid.open[key].reported, key, rest), mid.pools, Run(mid, rest), key)
    ensures Recorded(s.open[key], Arrivals(s.open[key].reported, key, events), s.pools, Run(s, events), key)
  {
    var e, mid, rest := events[0], Step(s, events[0]), events[1..];
    var counted := Counts(e, key, s.open[key].reported);
    OneStepOfTheRace(s, events, key, now);
    ArrivalsStep(s.open[key].reported, key, events, mid.open[key].reported);
    ExtendRun(s.open[key], s, mid, counted, if counted then e.pool else 0, if counted then e.hr else 0, rest,
              Arrivals(mid.open[key].reported, key, rest), key, ClockAfter(now, e));
  }

  lemma ArrivalsStep(already: seq<PoolId>, key: string, events: seq<Event>, after: seq<PoolId>)
    requires |events| > 0
    requires after == if Counts(events[0], key, already) then already + [events[0].pool] else already
    ensures Arrivals(already, key, events) ==
      if Counts(events[0], key, already)
      then [Arrival(events[0].pool, events[0].hr)] + Arrivals(after, key, events[1..]) else Arrivals(after, key, events[1..])
  {
  }

  lemma OneStepOfTheRace(s: State, events: seq<Event>, key: string, now: int)
    requires Inv(s, now) && Keyed(s) && ClockRuns(now, events) && NoPoolDeleted(events) && |events| > 0
    requires key in s.open && key in Run(s, events).open
    ensures var e, mid, later := events[0], Step(s, events[0]), ClockAfter(now, events[0]);
      var counted := Counts(e, key, s.open[key].reported);
      && Inv(mid, later) && Keyed(mid) && ClockRuns(later, events[1..]) && NoPoolDeleted(events[1..])
      && key in mid.open && s.pools <= mid.pools && Run(s, events) == Run(mid, events[1..])
      && Advances(s.open[key], s, mid, key, counted, if counted then e.pool else 0, if counted then e.hr else 0)
  {
    StepKeeps(s, events[0], now);
    StillOpen(s, events, key, now);
    StepOnOpenRace(s, events[0], key, now);
    TailHasNoDeletes(events);
    StepKeepsPools(s, events[0]);
  }

  lemma TailHasNoDeletes(events: seq<Event>)
    requires |events| > 0 && NoPoolDeleted(events)
    ensures NoPoolDeleted(events[1..]) && !events[0].PoolDeleted?
  {
    assert forall i :: 0 <= i < |events[1..]| ==> events[1..][i] == events[i + 1];
  }

  // A race that is open at the end of a run was open all along.
  lemma StillOpen(s: State, events: seq<Event>, key: string, now: int)
    requires Inv(s, now) && Keyed(s) && ClockRuns(now, events) && |events| > 0
    requires key in s.open && key in Run(s, events).open
    ensures key in Step(s, events[0]).open
  {
    StepOnOpenRace(s, events[0], key, now);
    if key !in Step(s, events[0]).open {
      StepKeeps(s, events[0], now);
      NoBlockIsRacedTwice(Step(s, events[0]), events[1..], key, ClockAfter(now, events[0]));
      assert false;
    }
  }

  lemma AdvancedRowStays(race: Race, s: State, mid: State, pool: PoolId, hr: int, rest: seq<Event>, key: string, later: int)
    requires Advances(race, s, mid, key, true, pool, hr) && pool in s.pools
    requires Inv(mid, later) && Keyed(mid) && ClockRuns(later, rest) && NoPoolDeleted(rest)
    ensures (race.id, pool) in Run(mid, rest).rows
    ensures Run(mid, rest).rows[(race.id, pool)] == Timed(hr - race.startHr, |race.reported| + 1)
  {
    assert NeverDeleted(pool, rest);
    RowsAreFinal(mid, rest, (race.id, pool), later);
  }

  lemma ExtendRecord(race: Race, s: State, mid: State, counted: bool, pool: PoolId, hr: int,
                     arrivals: seq<Arrival>, key: string, t: State)
    requires Advances(race, s, mid, key, counted, pool, hr) && s.pools <= mid.pools
    requires counted && pool in s.pools ==>
      (race.id, pool) in t.rows && t.rows[(race.id, pool)] == Timed(hr - race.startHr, |race.reported| + 1)
    requires Recorded(mid.open[key], arrivals, mid.pools, t, key)
    ensures Recorded(race, if counted then [Arrival(pool, hr)] + arrivals else arrivals, s.pools, t, key)
  {
    if counted {
      RecordedOneMore(race, Arrival(pool, hr), arrivals, s.pools, mid, t, key);
    } else {
      RecordedSame(race, arrivals, s.pools, mid, t, key);
    }
  }

  lemma ExtendRun(race: Race, s: State, mid: State, counted: bool, pool: PoolId, hr: int, rest: seq<Event>,
                  arrivals: seq<Arrival>, key: string, later: int)
    requires Advances(race, s, mid, key, counted, pool, hr) && s.pools <= mid.pools
    requires Inv(mid, later) && Keyed(mid) && ClockRuns(later, rest) && NoPoolDeleted(rest)
    requires Recorded(mid.open[key], arrivals, mid.pools, Run(mid, rest), key)
    ensures Recorded(race, if counted then [Arrival(pool, hr)] + arrivals else arrivals, s.pools, Run(mid, rest), key)
  {
    var t := Run(mid, rest);
    if counted && pool in s.pools { AdvancedRowStays(race, s, mid, pool, hr, rest, key, later); }
    ExtendRecord(race, s, mid, counted, pool, hr, arrivals, key, t);
  }

  lemma RecordedSame(race: Race, arrivals: seq<Arrival>, pools: set<PoolId>, mid: State, t: State, key: string)
    requires key in mid.open && pools <= mid.pools
    requires mid.open[key].id == race.id && mid.open[key].startHr == race.startHr && mid.open[key].reported == race.reported
    requires Recorded(mid.open[key], arrivals, mid.pools, t, key)
    ensures Recorded(race, arrivals, pools, t, key)
  {
  }

  lemma RecordedOneMore(race: Race, a: Arrival, rest: seq<Arrival>, pools: set<PoolId>, mid: State, t: State, key: string)
    requires key in mid.open && pools <= mid.pools
    requires mid.open[key].id == race.id && mid.open[key].startHr == race.startHr
    requires mid.open[key].reported == race.reported + [a.pool]
    requires Recorded(mid.open[key], rest, mid.pools, t, key)
    requires a.pool in pools ==>
      (race.id, a.pool) in t.rows && t.rows[(race.id, a.pool)] == Timed(a.hr - race.startHr, |race.reported| + 1)
    ensures Recorded(race, [a] + rest, pools, t, key)
  {
    var all := [a] + rest;
    assert t.open[key].reported == race.reported + seq(|all|, i requires 0 <= i < |all| => all[i].pool);
    forall i | 0 <= i < |all| && all[i].pool in pools
      ensures (race.id, all[i].pool) in t.rows
      ensures t.rows[(race.id, all[i].pool)] == Timed(all[i].hr - race.startHr, |race.reported| + i + 1)
    {
      if i > 0 { assert all[i] == rest[i - 1]; }
    }
  }

  lemma StepKeepsPools(s: State, e: Event)
    requires Keyed(s) && TimersOk(s) && !e.PoolDeleted?
    ensures s.pools <= Step(s, e).pools
  {
    if e.Timeout? && e.timer in s.timers { FireClosesAndCharges(s, e.timer); }
    if e.Job? && e.hash != "" { JobKeepsPools(s, e.pool, Canonical(e.hash), e.hr, e.firstAfterConnect); }
  }

  lemma JobKeepsPools(s: State, pool: PoolId, key: string, hr: int, first: bool)
    ensures NotifyKey(s, pool, key, hr, first).pools == s.pools
  {
  }

  // ---- What each job does, in the columns ----------------------------------------------

  // A block nobody has announced here yet, from a pool that was connected before.
  ghost predicate IsNews(s: State, key: string) {
    key !in s.open && key !in s.recent && key !in s.races && |s.open| < 10
  }

  // A race of its own, with the announcer first at latency 0 and a timer of its own.
  ghost predicate Opens(s: State, t: State, pool: PoolId, key: string, hr: int) {
    && key in t.open && t.open.Keys == s.open.Keys + {key}
    && t.open[key].startHr == hr && t.open[key].reported == [pool] && t.open[key].excused == {}
    && t.open[key].timer !in s.timers && t.timers == s.timers[t.open[key].timer := key]
    && t.races == s.races[key := t.open[key].id]
    && key in t.recent
    && (if pool in s.pools then t.rows == s.rows[(t.open[key].id, pool) := Timed(0, 1)] else t.rows == s.rows)
  }

  lemma NewsOpensARace(s: State, pool: PoolId, key: string, hr: int)
    requires IsNews(s, key) && KeysOk(s) && TimersOk(s)
    ensures Opens(s, NotifyKey(s, pool, key, hr, false), pool, key, hr)
    ensures forall h :: h in s.races ==> s.races[h] != NotifyKey(s, pool, key, hr, false).open[key].id
  {
    var o := Open(s, key, hr);
    assert o.open[key] == Race(s.nextRace, hr, [], {}, s.nextTimer);
    assert [] + [pool] == [pool];
    ReportOnFresh(o, pool, key, hr);
    RecentHasIt(s.recent, key);
    assert (s.nextRace, pool) !in s.rows;
  }

  lemma RecentHasIt(recent: seq<string>, key: string)
    ensures key in Remember(recent, key)
  {
    if key !in recent {
      var r := Remember(recent, key);
      assert r[|r| - 1] == key;
    }
  }

  lemma ReportOnFresh(o: State, pool: PoolId, key: string, hr: int)
    requires key in o.open && o.open[key].reported == [] && o.open[key].startHr == hr && (o.open[key].id, pool) !in o.rows
    ensures var race := o.open[key];
      Report(o, pool, key, hr) ==
        o.(open := o.open[key := race.(reported := [pool])],
           rows := if pool in o.pools then o.rows[(race.id, pool) := Timed(0, 1)] else o.rows)
  {
    var race := o.open[key];
    assert race.reported + [pool] == [pool];
  }

  // And nothing else opens one.
  lemma OnlyNewsOpens(s: State, pool: PoolId, key: string, hr: int, first: bool)
    ensures key !in s.open ==> (key in NotifyKey(s, pool, key, hr, first).open <==> IsNews(s, key) && !first)
  {
  }

  // A pool that has only just connected does not take part: it is excused from the
  // race that is on, and changes nothing else.
  lemma CatchUpIsExcused(s: State, pool: PoolId, key: string, hr: int)
    requires key in s.open
    ensures var t := NotifyKey(s, pool, key, hr, true); var race := s.open[key];
      t == s.(open := s.open[key := race.(excused := race.excused + {pool})])
  {
  }

  // A job for a race that is on: the first from a pool is ranked and timed.
  lemma ReportIsRanked(s: State, pool: PoolId, key: string, hr: int)
    requires key in s.open && (s.open[key].id, pool) !in s.rows
    ensures var t := NotifyKey(s, pool, key, hr, false); var race := s.open[key];
      if pool in race.reported then t == s
      else t == s.(open := s.open[key := race.(reported := race.reported + [pool])],
                   rows := if pool in s.pools
                           then s.rows[(race.id, pool) := Timed(hr - race.startHr, |race.reported| + 1)] else s.rows)
  {
  }

  // The ring keeps the last 64 different hashes, oldest first.
  lemma RecentIsARing(recent: seq<string>, key: string)
    requires |recent| <= 64
    ensures var r := Remember(recent, key);
      if key in recent then r == recent
      else r == (if |recent| < 64 then recent else recent[1..]) + [key]
  {
    if key !in recent && |recent| == 64 { assert (recent + [key])[1..] == recent[1..] + [key]; }
  }

  // ---- Who is excused stays excused ------------------------------------------------------

  // While the race is on, the pool is excused from it; afterwards it is over, and
  // whatever row the pool has in it is a time.
  ghost predicate NeverCharged(s: State, key: string, id: RaceId, pool: PoolId) {
    && key in s.races && s.races[key] == id
    && (key in s.open ==> s.open[key].id == id && pool in s.open[key].excused)
    && ((id, pool) in s.rows ==> s.rows[(id, pool)].Timed?)
  }

  lemma JobKeepsExcused(s: State, e: Event, key: string, id: RaceId, pool: PoolId, now: int)
    requires Inv(s, now) && NeverCharged(s, key, id, pool) && e.Job? && now <= e.hr
    ensures NeverCharged(Step(s, e), key, id, pool)
  {
    if e.hash != "" {
      var k := Canonical(e.hash);
      JobKeepsEntry(s, e.pool, k, e.hr, e.firstAfterConnect, key);
      JobRowsAreTimes(s, e.pool, k, e.hr, e.firstAfterConnect);
    }
  }

  lemma JobKeepsEntry(s: State, pool: PoolId, k: string, hr: int, first: bool, key: string)
    requires KeysOk(s) && key in s.races
    ensures var t := NotifyKey(s, pool, k, hr, first);
      && key in t.races && t.races[key] == s.races[key] && (key in t.open <==> key in s.open)
      && (key in s.open ==> t.open[key].id == s.open[key].id && s.open[key].excused <= t.open[key].excused)
  {
    JobsAreIsolated(s, pool, k, hr, first);
    if k == key && key in s.open {
      if first { CatchUpIsExcused(s, pool, key, hr); } else { ReportKeepsEntry(s, pool, key, hr); }
    }
  }

  lemma ReportKeepsEntry(s: State, pool: PoolId, key: string, hr: int)
    requires key in s.open
    ensures var t := NotifyKey(s, pool, key, hr, false);
      key in t.open && t.open[key].id == s.open[key].id && t.open[key].excused == s.open[key].excused
  {
  }

  lemma JobRowsAreTimes(s: State, pool: PoolId, k: string, hr: int, first: bool)
    ensures var t := NotifyKey(s, pool, k, hr, first);
      forall r :: r in t.rows ==> (r in s.rows && t.rows[r] == s.rows[r]) || t.rows[r].Timed?
  {
  }

  lemma TimeoutKeepsExcused(s: State, timer: TimerId, key: string, id: RaceId, pool: PoolId, now: int)
    requires Inv(s, now) && Keyed(s) && NeverCharged(s, key, id, pool)
    ensures NeverCharged(Fire(s, timer), key, id, pool)
  {
    if timer in s.timers {
      FireClosesAndCharges(s, timer);
      TimeoutChargesExactly(s, timer, now);
    }
  }

  lemma QuietStepKeepsExcused(s: State, e: Event, key: string, id: RaceId, pool: PoolId)
    requires NeverCharged(s, key, id, pool) && !e.Job? && !e.Timeout?
    ensures NeverCharged(Step(s, e), key, id, pool)
  {
  }

  lemma StepKeepsExcused(s: State, e: Event, key: string, id: RaceId, pool: PoolId, now: int)
    requires Inv(s, now) && Keyed(s) && NeverCharged(s, key, id, pool) && (e.Job? ==> now <= e.hr)
    ensures NeverCharged(Step(s, e), key, id, pool)
  {
    if e.Job? {
      JobKeepsExcused(s, e, key, id, pool, now);
    } else if e.Timeout? {
      TimeoutKeepsExcused(s, e.timer, key, id, pool, now);
    } else {
      QuietStepKeepsExcused(s, e, key, id, pool);
    }
  }

  lemma {:induction false} RunKeepsExcused(s: State, events: seq<Event>, key: string, id: RaceId, pool: PoolId, now: int)
    requires Inv(s, now) && Keyed(s) && ClockRuns(now, events) && NeverCharged(s, key, id, pool)
    ensures NeverCharged(Run(s, events), key, id, pool)
    decreases |events|
  {
    if |events| > 0 {
      StepKeepsExcused(s, events[0], key, id, pool, now);
      StepKeeps(s, events[0], now);
      RunKeepsExcused(Step(s, events[0]), events[1..], key, id, pool, ClockAfter(now, events[0]));
    }
  }

  // A pool that connects while a race is on is never charged a miss in it, in any
  // run that follows.
  lemma LatecomerIsNeverCharged(s: State, pool: PoolId, key: string, hr: int, events: seq<Event>, now: int)
    requires Inv(s, now) && Keyed(s) && key in s.open && now <= hr && ClockRuns(hr, events)
    ensures var t := Run(NotifyKey(s, pool, key, hr, true), events);
      (s.open[key].id, pool) in t.rows ==> t.rows[(s.open[key].id, pool)].Timed?
  {
    var mid := NotifyKey(s, pool, key, hr, true);
    NotifyKeeps(s, pool, key, hr, true, now);
    CatchUpOnKey(s, pool, key, hr);
    LatecomerIsExcused(s, pool, key, hr, now);
    assert Keyed(mid);
    RunKeepsExcused(mid, events, key, s.open[key].id, pool, hr);
  }

  lemma LatecomerIsExcused(s: State, pool: PoolId, key: string, hr: int, now: int)
    requires KeysOk(s) && key in s.open && RaceOk(s, s.open[key], now)
    ensures NeverCharged(NotifyKey(s, pool, key, hr, true), key, s.open[key].id, pool)
  {
    CatchUpIsExcused(s, pool, key, hr);
  }
}
