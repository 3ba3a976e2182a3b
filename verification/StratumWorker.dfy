/**
 * src/stratum-race.js as it runs: module-level collections that the handlers
 * update in place. Every method is held to the function of the same purpose in
 * StratumRace, about which the properties are proved.
 */
module StratumWorker {
  import opened Prevhash
  import opened StratumRace

  class Worker {
    var open: map<string, Race>
    var timers: map<TimerId, string>
    var nextTimer: TimerId
    var recent: seq<string>
    var active: set<PoolId>
    var races: map<string, RaceId>
    var nextRace: RaceId
    var pools: set<PoolId>
    var rows: map<(RaceId, PoolId), Row>

    function View(): State
      reads this
    {
      State(open, timers, nextTimer, recent, active, races, nextRace, pools, rows)
    }

    constructor ()
      ensures View() == START
    {
      open, timers, nextTimer, recent, active := map[], map[], 0, [], {};
      races, nextRace, pools, rows := map[], 0, {}, map[];
    }

    method RememberPrevhash(hash: string)
      modifies this`recent
      ensures recent == Remember(old(recent), hash)
    {
      if hash !in recent {
        recent := recent + [hash];
        if |recent| > RECENT_PREVHASH_LIMIT { recent := recent[1..]; }
      }
    }

    // Only the first result of a pool counts; one whose row is gone throws.
    method InsertReport(race: RaceId, pool: PoolId, latency: int, rank: nat)
      modifies this`rows
      ensures View() == RecordReport(old(View()), race, pool, latency, rank)
    {
      if pool !in pools { return; }
      if (race, pool) in rows && rows[(race, pool)].Timed? { return; }
      rows := rows[(race, pool) := Timed(latency, rank)];
    }

    method FinalizeRace(hash: string)
      modifies this
      ensures View() == Finalize(old(View()), hash)
    {
      FinalizeOn(Canonical(hash));
    }

    method FinalizeOn(key: string)
      modifies this
      ensures View() == FinalizeKey(old(View()), key)
    {
      if key !in open { return; }
      var race := open[key];
      open := open - {key};
      timers := timers - {race.timer};
      InsertMisses(race);
    }

    // One insert per pool, so that one failing costs exactly that row.
    method InsertMisses(race: Race)
      modifies this`rows
      ensures View() == Misses(old(View()), race.id, Charged(old(View()), race))
    {
      ghost var was := View();
      ghost var done: set<PoolId> := {};
      var todo := active;
      while todo != {}
        invariant done !! todo && done + todo == active
        invariant rows == WithMisses(was, race.id, done * Charged(was, race))
      {
        var pool :| pool in todo;
        MissOneMore(was, race, done, pool);
        todo, done := todo - {pool}, done + {pool};
        if pool !in race.reported && pool !in race.excused { InsertMiss(race.id, pool); }
      }
      assert done * Charged(was, race) == Charged(was, race);
    }

    method InsertMiss(race: RaceId, pool: PoolId)
      modifies this`rows
      ensures View() == RecordMiss(old(View()), race, pool)
    {
      if pool in pools && (race, pool) !in rows { rows := rows[(race, pool) := Miss]; }
    }

    method OpenRace(key: string, hr: int)
      requires key !in races
      modifies this
      ensures View() == Open(old(View()), key, hr)
    {
      var id := nextRace;
      races, nextRace := races[key := id], nextRace + 1;
      RememberPrevhash(key);
      var timer := nextTimer;
      timers, nextTimer := timers[timer := key], nextTimer + 1;
      open := open[key := Race(id, hr, [], {}, timer)];
    }

    method HandleNotify(pool: PoolId, hash: string, hr: int, firstAfterConnect: bool)
      modifies this
      ensures View() == Notify(old(View()), pool, hash, hr, firstAfterConnect)
      // A block not announced here before opens a race, unless ten are open; and
      // only such a block does.
      ensures hash != "" && IsNews(old(View()), Canonical(hash)) && !firstAfterConnect
              && KeysOk(old(View())) && TimersOk(old(View())) ==>
        Opens(old(View()), View(), pool, Canonical(hash), hr)
      ensures Canonical(hash) !in old(open) ==>
        (Canonical(hash) in open <==> hash != "" && IsNews(old(View()), Canonical(hash)) && !firstAfterConnect)
      ensures hash != "" && Canonical(hash) in old(open) && firstAfterConnect ==>
        Canonical(hash) in open && open[Canonical(hash)].excused == old(open)[Canonical(hash)].excused + {pool}
    {
      if hash == "" { return; }
      var key := Canonical(hash);
      ghost var was := View();
      HandleKey(pool, key, hr, firstAfterConnect);
      OnlyNewsOpens(was, pool, key, hr, firstAfterConnect);
      if IsNews(was, key) && !firstAfterConnect && KeysOk(was) && TimersOk(was) { NewsOpensARace(was, pool, key, hr); }
      if key in was.open && firstAfterConnect { CatchUpIsExcused(was, pool, key, hr); }
    }

    method HandleKey(pool: PoolId, key: string, hr: int, firstAfterConnect: bool)
      modifies this
      ensures View() == NotifyKey(old(View()), pool, key, hr, firstAfterConnect)
    {
      if key !in open && firstAfterConnect {
        RememberPrevhash(key);
        return;
      }
      if key in open && firstAfterConnect {
        var race := open[key];
        open := open[key := race.(excused := race.excused + {pool})];
        return;
      }
      if key !in open {
        if key in recent { return; }
        if |open| >= MAX_OPEN_RACES { return; }
        if key in races {
          RememberPrevhash(key);
          return;
        }
        OpenRace(key, hr);
      }
      var race := open[key];
      if pool in race.reported { return; }
      race := race.(reported := race.reported + [pool]);
      open := open[key := race];
      InsertReport(race.id, pool, hr - race.startHr, |race.reported|);
    }

    method AbandonOpenRaces()
      modifies this`timers, this`open
      ensures View() == Abandon(old(View()))
    {
      ghost var done: set<string> := {};
      var todo := open.Keys;
      while todo != {}
        modifies this`timers
        invariant done !! todo && done + todo == open.Keys
        invariant timers == old(timers) - set key | key in done :: open[key].timer
      {
        var key :| key in todo;
        todo, done := todo - {key}, done + {key};
        timers := timers - {open[key].timer};
      }
      open := map[];
    }

    method ShutDownRace()
      modifies this
      ensures View() == ShutDown(old(View()))
    {
      AbandonOpenRaces();
      active := {};
    }
  }

  ghost function WithMisses(s: State, race: RaceId, charged: set<PoolId>): map<(RaceId, PoolId), Row> {
    Misses(s, race, charged).rows
  }

  lemma MissOneMore(s: State, race: Race, done: set<PoolId>, pool: PoolId)
    requires pool in s.active
    ensures var rows := WithMisses(s, race.id, done * Charged(s, race));
      WithMisses(s, race.id, (done + {pool}) * Charged(s, race)) ==
        if pool in Charged(s, race) then RecordMiss(s.(rows := rows), race.id, pool).rows else rows
  {
    var charged := Charged(s, race);
    if pool in charged {
      assert (done + {pool}) * charged == done * charged + {pool};
      ChargeOneMore(s, race.id, done * charged, pool);
    } else {
      assert (done + {pool}) * charged == done * charged;
    }
  }

  lemma ChargeOneMore(s: State, race: RaceId, charged: set<PoolId>, pool: PoolId)
    ensures WithMisses(s, race, charged + {pool}) ==
      RecordMiss(s.(rows := WithMisses(s, race, charged)), race, pool).rows
  {
    var all, most := WithMisses(s, race, charged + {pool}), WithMisses(s, race, charged);
    MissesAddOnly(s, race, charged + {pool});
    MissesAddOnly(s, race, charged);
    OneKeyMore(all, most, (race, pool), pool in s.pools && (race, pool) !in most);
  }

  lemma OneKeyMore(all: map<(RaceId, PoolId), Row>, most: map<(RaceId, PoolId), Row>, k: (RaceId, PoolId), more: bool)
    requires forall j :: j in all <==> j in most || (more && j == k)
    requires forall j :: j in most ==> all[j] == most[j]
    requires more ==> all[k] == Miss
    ensures all == if more then most[k := Miss] else most
  {
  }
}
