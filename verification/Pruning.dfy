/**
 * The database as the profilers write it and maintenance prunes it: rows change
 * one at a time, each with its trigger, inside one transaction per step.
 */
module Pruning {
  import opened Basics
  import opened Wrappers
  import opened Attribution
  import opened Rollup

  const MAX_ROWS_PER_STEP := 20000
  const PICK_LIMIT := 500

  // An inbound peer that was around and never brought a block first, unseen
  // since the cutoff, and neither manual nor parked.
  predicate Prunable(db: Db, cutoff: int, a: string) {
    && a in db.peers && db.peers[a].firstSeenAt < cutoff && a !in db.trusted && a !in db.parked
    && db.peers[a].id in db.stats && db.stats[db.peers[a].id].first == 0
    && (forall s :: s in db.sessions && db.sessions[s].peer == db.peers[a].id ==>
          db.sessions[s].inbound && db.sessions[s].endedAt.Some? && db.sessions[s].endedAt.value < cutoff)
    && (forall k :: k in db.obs && k.1 == db.peers[a].id ==>
          !db.obs[k] && forall h :: h in db.races && db.races[h].detectedAt >= cutoff ==> k.0 < db.races[h].id)
  }

  ghost predicate IsPrunable(db: Db, cutoff: int, p: PeerId) {
    exists a :: Prunable(db, cutoff, a) && db.peers[a].id == p
  }

  // What saves a peer: manual or parked, never counted, brought a block first, known
  // only since the cutoff, a session that is open, outbound or recent, or there
  // for a block as late as one found since the cutoff.
  ghost predicate HasAReason(db: Db, cutoff: int, a: string)
    requires a in db.peers
  {
    var p := db.peers[a].id;
    || a in db.trusted || a in db.parked
    || p !in db.stats || db.stats[p].first != 0 || (exists k :: k in db.obs && k.1 == p && db.obs[k])
    || db.peers[a].firstSeenAt >= cutoff
    || (exists s :: s in db.sessions && db.sessions[s].peer == p
                    && (!db.sessions[s].inbound || db.sessions[s].endedAt.None? || db.sessions[s].endedAt.value >= cutoff))
    || (exists k, h :: k in db.obs && k.1 == p && h in db.races && db.races[h].detectedAt >= cutoff && k.0 >= db.races[h].id)
  }

  lemma PrunableIff(db: Db, cutoff: int, a: string)
    requires a in db.peers
    ensures Prunable(db, cutoff, a) <==> !HasAReason(db, cutoff, a)
  {
  }

  // Nothing of these peers is left, and everything of the others is.
  ghost predicate WithoutPeers(db: Db, t: Db, gone: set<PeerId>) {
    && (forall a :: a in t.peers <==> a in db.peers && db.peers[a].id !in gone)
    && (forall a :: a in t.peers ==> t.peers[a] == db.peers[a])
    && (forall k :: k in t.obs <==> k in db.obs && k.1 !in gone) && (forall k :: k in t.obs ==> t.obs[k] == db.obs[k])
    && (forall s :: s in t.sessions <==> s in db.sessions && db.sessions[s].peer !in gone)
    && (forall s :: s in t.sessions ==> t.sessions[s] == db.sessions[s])
    && (forall p :: p in t.stats <==> p in db.stats && p !in gone) && (forall p :: p in t.stats ==> t.stats[p] == db.stats[p])
    && t.races == db.races && t.trusted == db.trusted && t.parked == db.parked
  }

  lemma RemovedIsWithout(db: Db, gone: set<PeerId>)
    ensures WithoutPeers(db, RemovePeers(db, gone), gone)
  {
  }

  // Whoever is removed had no reason to stay, and once a step finds nobody,
  // everybody left has one.
  ghost predicate PrunesTheUseless(db: Db, t: Db, cutoff: int, gone: set<PeerId>, finished: bool) {
    && WithoutPeers(db, t, gone)
    && (forall p :: p in gone ==> exists a :: a in db.peers && db.peers[a].id == p && !HasAReason(db, cutoff, a))
    && (finished ==> forall a :: a in t.peers ==> HasAReason(t, cutoff, a))
  }

  lemma PruningIsExact(db: Db, cutoff: int, gone: set<PeerId>, finished: bool)
    requires forall p :: p in gone ==> IsPrunable(db, cutoff, p)
    requires finished ==> forall p :: !IsPrunable(RemovePeers(db, gone), cutoff, p)
    ensures PrunesTheUseless(db, RemovePeers(db, gone), cutoff, gone, finished)
  {
    var t := RemovePeers(db, gone);
    RemovedIsWithout(db, gone);
    forall p | p in gone ensures exists a :: a in db.peers && db.peers[a].id == p && !HasAReason(db, cutoff, a) {
      var a :| Prunable(db, cutoff, a) && db.peers[a].id == p;
      PrunableIff(db, cutoff, a);
    }
    if finished {
      forall a | a in t.peers ensures HasAReason(t, cutoff, a) {
        assert !IsPrunable(t, cutoff, t.peers[a].id);
        PrunableIff(t, cutoff, a);
      }
    }
  }

  lemma PrunableEarlier(db: Db, gone: set<PeerId>, cutoff: int, p: PeerId)
    requires IsPrunable(RemovePeers(db, gone), cutoff, p)
    ensures IsPrunable(db, cutoff, p) && p !in gone
  {
    var t := RemovePeers(db, gone);
    var a :| Prunable(t, cutoff, a) && t.peers[a].id == p;
    forall s | s in db.sessions && db.sessions[s].peer == p ensures s in t.sessions {}
    forall k | k in db.obs && k.1 == p ensures k in t.obs {}
    assert Prunable(db, cutoff, a);
  }

  lemma RemovingTwice(db: Db, g: set<PeerId>, h: set<PeerId>)
    ensures RemovePeers(RemovePeers(db, g), h) == RemovePeers(db, g + h)
  {
    var a, b := RemovePeers(RemovePeers(db, g), h), RemovePeers(db, g + h);
    assert a.obs == b.obs && a.sessions == b.sessions;
    assert a.peers == b.peers;
    assert a.stats == b.stats;
  }

  lemma PrunableNeverFirst(db: Db, cutoff: int, gone: set<PeerId>)
    requires forall p :: p in gone ==> IsPrunable(db, cutoff, p)
    ensures forall k :: k in db.obs && k.1 in gone ==> !db.obs[k]
  {
    forall k | k in db.obs && k.1 in gone ensures !db.obs[k] {
      var a :| Prunable(db, cutoff, a) && db.peers[a].id == k.1;
    }
  }

  function Eligible(stats: map<PeerId, Stat>, picked: seq<PeerId>): int {
    if |picked| == 0 then 0
    else Eligible(stats, picked[..|picked| - 1]) + Total(stats, picked[|picked| - 1]).eligible
  }

  lemma OneMorePick(stats: map<PeerId, Stat>, picked: seq<PeerId>, i: nat)
    requires i < |picked|
    ensures Eligible(stats, picked[..i + 1]) == Eligible(stats, picked[..i]) + Total(stats, picked[i]).eligible
  {
    assert picked[..i + 1] == picked[..i] + [picked[i]];
    assert picked[..i + 1][..i] == picked[..i];
  }

  // The rows a step deletes are no more than the totals it was budgeted with.
  lemma {:induction false} BudgetCoversTheRows(db: Db, picked: seq<PeerId>)
    requires Exact(db)
    ensures |set k | k in db.obs && k.1 in picked| <= Eligible(db.stats, picked)
  {
    var rows := set k | k in db.obs && k.1 in picked;
    if |picked| == 0 {
      assert rows == {};
    } else {
      var front, p := picked[..|picked| - 1], picked[|picked| - 1];
      BudgetCoversTheRows(db, front);
      assert picked == front + [p];
      assert rows == (set k | k in db.obs && k.1 in front) + RowsOf(db.obs, p);
      assert Total(db.stats, p) == Recount(db.obs, p);
    }
  }

  class Store {
    var db: Db

    constructor (db: Db)
      ensures this.db == db
    {
      this.db := db;
    }

    method RecordRaceTx(hash: string, detectedAt: int, seen: seq<Seen>, now: int)
      modifies this
      ensures db == RecordRace(old(db), hash, detectedAt, seen, now)
      ensures hash in old(db).races ==> db == old(db)
      ensures hash !in old(db).races && Linked(old(db)) && DistinctSeen(seen) ==> RaceWritten(old(db), db, hash, detectedAt, seen)
    {
      if hash in db.races { return; }
      ghost var was := db;
      WriteRace(hash, detectedAt, seen, now);
      if Linked(was) && DistinctSeen(seen) { RecordRaceWrites(was, hash, detectedAt, seen, now); }
    }

    method WriteRace(hash: string, detectedAt: int, seen: seq<Seen>, now: int)
      requires hash !in db.races
      modifies this
      ensures db == RecordRace(old(db), hash, detectedAt, seen, now)
    {
      var firstCount := FirstCount(seen, detectedAt);
      var unclear := firstCount > 1;
      var race := db.nextRace;
      db := RaceOpened(db, hash, detectedAt, firstCount);
      RecordSeen(race, seen, unclear, detectedAt, now);
    }

    method RecordSeen(race: RaceId, seen: seq<Seen>, unclear: bool, detectedAt: int, now: int)
      modifies this
      ensures db == RecordPeers(old(db), race, seen, unclear, detectedAt, now)
    {
      ghost var begun := db;
      var i := 0;
      while i < |seen|
        invariant 0 <= i <= |seen|
        invariant RecordPeers(begun, race, seen, unclear, detectedAt, now) ==
                  RecordPeers(db, race, seen[i..], unclear, detectedAt, now)
      {
        assert seen[i..][1..] == seen[i + 1..];
        RecordOne(race, seen[i], unclear, detectedAt, now);
        i := i + 1;
      }
    }

    method RecordOne(race: RaceId, peer: Seen, unclear: bool, detectedAt: int, now: int)
      modifies this
      ensures db == RecordPeer(old(db), race, peer, unclear, detectedAt, now)
    {
      db := WithPeer(db, peer.addr, now);
      db := InsertObs(db, (race, db.peers[peer.addr].id), !unclear && IsFirstPeer(peer.lastBlock, detectedAt));
    }

    // SELECT ... LIMIT 500, in whatever order the plan yields.
    method Pick(cutoff: int) returns (picked: seq<PeerId>)
      ensures |picked| <= PICK_LIMIT
      ensures forall p :: p in picked ==> IsPrunable(db, cutoff, p) && p in db.stats
      ensures picked == [] ==> forall p :: !IsPrunable(db, cutoff, p)
    {
      picked := [];
      var todo := db.peers.Keys;
      while todo != {} && |picked| < PICK_LIMIT
        invariant |picked| <= PICK_LIMIT && todo <= db.peers.Keys
        invariant forall p :: p in picked ==> IsPrunable(db, cutoff, p) && p in db.stats
        invariant picked == [] ==> forall a :: Prunable(db, cutoff, a) ==> a in todo
      {
        var a :| a in todo;
        todo := todo - {a};
        if Prunable(db, cutoff, a) { picked := picked + [db.peers[a].id]; }
      }
    }

    // The first pick always goes; after it, as many as the budget of rows allows.
    method Budget(picked: seq<PeerId>) returns (ids: set<PeerId>, ghost n: nat)
      requires forall p :: p in picked ==> p in db.stats
      ensures n <= |picked| && ids == Firsts(picked, n)
      ensures ids == {} <==> picked == []
      ensures n <= 1 || Eligible(db.stats, picked[..n]) <= MAX_ROWS_PER_STEP
      ensures n < |picked| ==> Eligible(db.stats, picked[..n + 1]) > MAX_ROWS_PER_STEP
    {
      ids := {};
      var rows, i := 0, 0;
      assert picked[..0] == [];
      while i < |picked|
        invariant 0 <= i <= |picked| && ids == Firsts(picked, i)
        invariant rows == Eligible(db.stats, picked[..i])
        invariant i > 0 ==> ids != {}
        invariant i <= 1 || rows <= MAX_ROWS_PER_STEP
      {
        OneMorePick(db.stats, picked, i);
        OneMoreFirst(picked, i);
        if ids != {} && rows + db.stats[picked[i]].eligible > MAX_ROWS_PER_STEP {
          n := i;
          return;
        }
        ids := ids + {picked[i]};
        rows := rows + db.stats[picked[i]].eligible;
        i := i + 1;
      }
      n := i;
    }

    // DELETE FROM relay_observation WHERE peer_id IN (...): a trigger per row.
    method DeleteRowsOf(ids: set<PeerId>)
      modifies this
      ensures db.obs == map k | k in old(db).obs && k.1 !in ids :: old(db).obs[k]
      ensures db.stats - ids == old(db).stats - ids
      ensures db == old(db).(obs := db.obs, stats := db.stats)
    {
      ghost var was := db;
      var todo := set k | k in db.obs && k.1 in ids;
      while todo != {}
        invariant todo <= db.obs.Keys && forall k :: k in todo ==> k.1 in ids
        invariant forall k :: k in db.obs <==> k in was.obs && (k.1 in ids ==> k in todo)
        invariant forall k :: k in db.obs ==> db.obs[k] == was.obs[k]
        invariant db.stats - ids == was.stats - ids
        invariant db == was.(obs := db.obs, stats := db.stats)
      {
        var k :| k in todo;
        todo := todo - {k};
        ghost var before := db;
        db := DeleteObs(db, k);
        assert db.stats - ids == before.stats - ids;
      }
      assert db.obs == map k | k in was.obs && k.1 !in ids :: was.obs[k];
    }

    method Remove(ids: set<PeerId>)
      modifies this
      ensures db == RemovePeers(old(db), ids)
    {
      DeleteRowsOf(ids);
      db := db.(sessions := map s | s in db.sessions && db.sessions[s].peer !in ids :: db.sessions[s]);
      db := db.(stats := db.stats - ids);
      db := db.(peers := map a | a in db.peers && db.peers[a].id !in ids :: db.peers[a]);
    }

    // Bounded steps; stops early once a step finds nothing.
    method PruneNeverFirstPeers(cutoff: int, maxSteps: nat) returns (ghost gone: set<PeerId>, finished: bool)
      modifies this
      ensures db == RemovePeers(old(db), gone)
      ensures forall p :: p in gone ==> IsPrunable(old(db), cutoff, p)
      ensures finished ==> forall p :: !IsPrunable(db, cutoff, p)
      ensures !finished ==> |gone| >= maxSteps
      ensures PrunesTheUseless(old(db), db, cutoff, gone, finished)
    {
      ghost var was := db;
      gone, finished := {}, false;
      RemoveNone(db);
      for step := 0 to maxSteps
        invariant db == RemovePeers(was, gone)
        invariant forall p :: p in gone ==> IsPrunable(was, cutoff, p)
        invariant |gone| >= step
      {
        var picked := Pick(cutoff);
        var ids, _ := Budget(picked);
        if ids == {} {
          PruningIsExact(was, cutoff, gone, true);
          return gone, true;
        }
        forall p | p in ids ensures IsPrunable(was, cutoff, p) && p !in gone { PrunableEarlier(was, gone, cutoff, p); }
        assert ids !! gone && |gone + ids| == |gone| + |ids|;
        Remove(ids);
        RemovingTwice(was, gone, ids);
        gone := gone + ids;
      }
      PruningIsExact(was, cutoff, gone, false);
    }
  }

  lemma RemoveNone(db: Db)
    ensures RemovePeers(db, {}) == db
  {
    assert RemovePeers(db, {}).obs == db.obs;
    assert RemovePeers(db, {}).sessions == db.sessions;
    assert RemovePeers(db, {}).peers == db.peers;
  }

  // ---- Over every sequence of operations ---------------------------------------

  datatype Event =
    | Race(hash: string, detectedAt: int, seen: seq<Seen>, now: int)
    | Poll(addr: string, id: nat, session: bool, inbound: bool, manual: bool, now: int)    // a peer is seen, a session opens
    | Ended(id: nat, at: int)
    | DeleteRow(key: ObsKey)
    | Correct(key: ObsKey, first: bool)
    | Manual(addr: string, on: bool)
    | Park(addr: string, on: bool)
    | PruneFeelers(cutoff: int)
    | PruneNeverFirst(cutoff: int, gone: set<PeerId>)
    | ResetData(addresses: seq<string>, now: int)
    | Rebuild

  function Step(db: Db, e: Event): Db {
    match e
    case Race(hash, detectedAt, seen, now) => RecordRace(db, hash, detectedAt, seen, now)
    case Poll(addr, id, session, inbound, manual, now) =>
      var known := WithPeer(db, addr, now);
      if !session || id in known.sessions then known
      else known.(sessions := known.sessions[id := SessionRow(known.peers[addr].id, inbound, manual, None)])
    case Ended(id, at) =>
      if id in db.sessions then db.(sessions := db.sessions[id := db.sessions[id].(endedAt := Some(at))]) else db
    case DeleteRow(k) => DeleteObs(db, k)
    case Correct(k, first) => UpdateObs(db, k, first)
    case Manual(addr, on) => db.(trusted := if on then db.trusted + {addr} else db.trusted - {addr})
    case Park(addr, on) => db.(parked := if on then db.parked + {addr} else db.parked - {addr})
    case PruneFeelers(cutoff) => PruneOld(db, cutoff)
    case PruneNeverFirst(_, gone) => RemovePeers(db, gone)
    case ResetData(addresses, now) => Reset(db, addresses, now)
    case Rebuild => Rebuilt(db)
  }

  // What pruneNeverFirstPeers hands to its deletes, and what a reset reads back.
  ghost predicate Legit(db: Db, e: Event) {
    && (e.PruneNeverFirst? ==> forall p :: p in e.gone ==> IsPrunable(db, e.cutoff, p))
    && (e.ResetData? ==> Lists(e.addresses, db.trusted))
  }

  function Run(db: Db, events: seq<Event>): Db
    decreases |events|
  {
    if |events| == 0 then db else Run(Step(db, events[0]), events[1..])
  }

  ghost predicate AllLegit(db: Db, events: seq<Event>)
    decreases |events|
  {
    |events| > 0 ==> Legit(db, events[0]) && AllLegit(Step(db, events[0]), events[1..])
  }

  ghost predicate Sound(db: Db) { Exact(db) && Linked(db) }

  lemma SessionKeeps(db: Db, id: nat, row: SessionRow)
    requires Sound(db) && IsPeer(db, row.peer)
    ensures Sound(db.(sessions := db.sessions[id := row]))
  {
    var t := db.(sessions := db.sessions[id := row]);
    PeersStay(db, t);
    assert Exact(t);
  }

  lemma SameRowsSound(db: Db, t: Db)
    requires Sound(db) && t.(trusted := db.trusted, parked := db.parked) == db
    ensures Sound(t)
  {
    PeersStay(db, t);
  }

  lemma DeleteIsLinked(db: Db, k: ObsKey)
    requires Linked(db)
    ensures Linked(DeleteObs(db, k))
  {
    PeersStay(db, DeleteObs(db, k));
    RefsCarryOver(db, DeleteObs(db, k));
  }

  lemma UpdateIsLinked(db: Db, k: ObsKey, first: bool)
    requires Linked(db)
    ensures Linked(UpdateObs(db, k, first))
  {
    PeersStay(db, UpdateObs(db, k, first));
    RefsCarryOver(db, UpdateObs(db, k, first));
  }

  lemma StepKeeps(db: Db, e: Event)
    requires Sound(db) && Legit(db, e)
    ensures Sound(Step(db, e))
  {
    match e
    case Race(hash, detectedAt, seen, now) => RaceKeepsSound(db, hash, detectedAt, seen, now);
    case Poll(addr, id, session, inbound, manual, now) =>
      PollKeepsSound(db, addr, id, session, inbound, manual, now);
    case Ended(_, _) => NoRowsKeepSound(db, e);
    case DeleteRow(k) => DeleteIsExact(db, k); DeleteIsLinked(db, k);
    case Correct(k, first) => UpdateIsExact(db, k, first); UpdateIsLinked(db, k, first);
    case Manual(_, _) => NoRowsKeepSound(db, e);
    case Park(_, _) => NoRowsKeepSound(db, e);
    case PruneFeelers(cutoff) => PruneOldKeeps(db, cutoff);
    case PruneNeverFirst(_, gone) => RemovePeersIsExact(db, gone); RemovePeersIsLinked(db, gone);
    case ResetData(addresses, now) => ResetKeeps(db, addresses, now);
    case Rebuild => RebuiltIsExact(db); RebuiltIsLinked(db);
  }

  // An end of a session, and what a user does to the manual and the parked list.
  lemma NoRowsKeepSound(db: Db, e: Event)
    requires Sound(db) && (e.Ended? || e.Manual? || e.Park?)
    ensures Sound(Step(db, e))
  {
    if e.Ended? {
      if e.id in db.sessions { SessionKeeps(db, e.id, db.sessions[e.id].(endedAt := Some(e.at))); }
    } else {
      SameRowsSound(db, Step(db, e));
    }
  }

  lemma PollKeepsSound(db: Db, addr: string, id: nat, session: bool, inbound: bool, manual: bool, now: int)
    requires Sound(db)
    ensures Sound(Step(db, Poll(addr, id, session, inbound, manual, now)))
  {
    WithPeerKeeps(db, addr, now);
    var known := WithPeer(db, addr, now);
    assert Exact(known);
    assert IsPeer(known, known.peers[addr].id);
    if session && id !in known.sessions {
      SessionKeeps(known, id, SessionRow(known.peers[addr].id, inbound, manual, None));
    }
  }

  lemma RaceKeepsSound(db: Db, hash: string, detectedAt: int, seen: seq<Seen>, now: int)
    requires Sound(db)
    ensures Sound(RecordRace(db, hash, detectedAt, seen, now))
  {
    if hash !in db.races {
      var count := FirstCount(seen, detectedAt);
      var t := RaceOpened(db, hash, detectedAt, count);
      PeersStay(db, t);
      RefsCarryOver(db, t);
      assert Exact(t);
      RecordPeersKeep(t, db.nextRace, seen, count > 1, detectedAt, now);
    }
  }

  // Whatever is done in whatever order, the totals are the rows counted, and no
  // row is left without its peer.
  lemma {:induction false} TotalsAlwaysMatchRows(db: Db, events: seq<Event>)
    requires Sound(db) && AllLegit(db, events)
    ensures Sound(Run(db, events))
    decreases |events|
  {
    if |events| > 0 {
      StepKeeps(db, events[0]);
      TotalsAlwaysMatchRows(Step(db, events[0]), events[1..]);
    }
  }

  lemma StepKeepsCredits(db: Db, e: Event)
    requires Sound(db) && Legit(db, e) && OneCreditEach(db.obs) && !e.Correct?
    ensures OneCreditEach(Step(db, e).obs)
  {
    match e
    case Race(hash, detectedAt, seen, now) => RecordRaceKeeps(db, hash, detectedAt, seen, now);
    case Poll(addr, _, _, _, _, now) => WithPeerKeeps(db, addr, now);
    case Ended(_, _) =>
    case DeleteRow(_) =>
    case Manual(_, _) =>
    case Park(_, _) =>
    case PruneFeelers(cutoff) => PruneOldKeeps(db, cutoff);
    case PruneNeverFirst(_, _) =>
    case ResetData(addresses, now) => ResetKeeps(db, addresses, now);
    case Rebuild =>
  }

  // Unless somebody edits a flag by hand, no race ever credits two peers.
  lemma {:induction false} EachRaceCreditsAtMostOne(db: Db, events: seq<Event>)
    requires Sound(db) && AllLegit(db, events) && OneCreditEach(db.obs)
    requires forall i :: 0 <= i < |events| ==> !events[i].Correct?
    ensures OneCreditEach(Run(db, events).obs)
    decreases |events|
  {
    if |events| > 0 {
      var e := events[0];
      StepKeeps(db, e);
      StepKeepsCredits(db, e);
      assert forall i :: 0 <= i < |events[1..]| ==> events[1..][i] == events[i + 1];
      EachRaceCreditsAtMostOne(Step(db, e), events[1..]);
    }
  }

  // pruneNeverFirstPeers changes nothing for anybody it leaves, and no block
  // loses the peer it was credited to.
  lemma PruningIsInvisible(db: Db, cutoff: int, gone: set<PeerId>, p: PeerId)
    requires Sound(db) && (forall q :: q in gone ==> IsPrunable(db, cutoff, q))
    ensures var t := RemovePeers(db, gone);
      && Sound(t)
      && (p !in gone ==> Total(t.stats, p) == Total(db.stats, p))
      && (forall k :: (k in db.obs && db.obs[k]) <==> (k in t.obs && t.obs[k]))
  {
    RemovePeersIsExact(db, gone);
    RemovePeersIsLinked(db, gone);
    PrunableNeverFirst(db, cutoff, gone);
    RemovingNeverFirstKeepsCredits(db, gone);
  }
}
