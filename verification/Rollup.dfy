/**
 * src/lib/db.js, src/relay-profiler.js and src/lib/queries/maintenance.js: who
 * was there for which block and who brought it, the per-peer totals three
 * triggers keep beside those rows, and the jobs that delete from both.
 */
module Rollup {
  import opened Basics
  import opened Wrappers
  import opened Attribution

  type PeerId = nat
  type RaceId = nat
  type ObsKey = (RaceId, PeerId)

  datatype Stat = Stat(eligible: int, first: int)

  datatype PeerRow = PeerRow(id: PeerId, firstSeenAt: int)

  datatype RaceRow = RaceRow(id: RaceId, detectedAt: int, firstCount: nat)

  datatype SessionRow = SessionRow(peer: PeerId, inbound: bool, manual: bool, endedAt: Option<int>)

  datatype Db = Db(
    peers: map<string, PeerRow>, nextPeer: PeerId,     // UNIQUE(address)
    races: map<string, RaceRow>, nextRace: RaceId,     // UNIQUE(block_hash)
    obs: map<ObsKey, bool>,                 // relay_observation: the row is the eligibility, the flag is `first`
    stats: map<PeerId, Stat>,               // peer_relay_stats
    sessions: map<nat, SessionRow>,
    trusted: set<string>, parked: set<string>)

  // ---- The rows as they count -----------------------------------------------

  ghost function RowsOf(obs: map<ObsKey, bool>, p: PeerId): set<ObsKey> { set k | k in obs && k.1 == p }

  ghost function FirstsOf(obs: map<ObsKey, bool>, p: PeerId): set<ObsKey> { set k | k in obs && k.1 == p && obs[k] }

  ghost function Recount(obs: map<ObsKey, bool>, p: PeerId): Stat { Stat(|RowsOf(obs, p)|, |FirstsOf(obs, p)|) }

  // A missing row reads as zero.
  function Total(stats: map<PeerId, Stat>, p: PeerId): Stat { if p in stats then stats[p] else Stat(0, 0) }

  ghost predicate Exact(db: Db) { forall p: PeerId :: Total(db.stats, p) == Recount(db.obs, p) }

  // ---- One row at a time, with its trigger -------------------------------------

  function OnInsert(stats: map<PeerId, Stat>, p: PeerId, first: bool): map<PeerId, Stat> {
    var f := if first then 1 else 0;
    if p in stats then stats[p := Stat(stats[p].eligible + 1, stats[p].first + f)] else stats[p := Stat(1, f)]
  }

  function OnDelete(stats: map<PeerId, Stat>, p: PeerId, first: bool): map<PeerId, Stat> {
    if p in stats then stats[p := Stat(stats[p].eligible - 1, stats[p].first - if first then 1 else 0)] else stats
  }

  function OnUpdate(stats: map<PeerId, Stat>, p: PeerId, was: bool, first: bool): map<PeerId, Stat> {
    if p in stats then
      stats[p := stats[p].(first := stats[p].first - (if was then 1 else 0) + (if first then 1 else 0))]
    else stats
  }

  // INSERT OR IGNORE: a row that is there stays, and no trigger runs.
  function InsertObs(db: Db, k: ObsKey, first: bool): Db {
    if k in db.obs then db else db.(obs := db.obs[k := first], stats := OnInsert(db.stats, k.1, first))
  }

  function DeleteObs(db: Db, k: ObsKey): Db {
    if k !in db.obs then db else db.(obs := db.obs - {k}, stats := OnDelete(db.stats, k.1, db.obs[k]))
  }

  function UpdateObs(db: Db, k: ObsKey, first: bool): Db {
    if k !in db.obs then db else db.(obs := db.obs[k := first], stats := OnUpdate(db.stats, k.1, db.obs[k], first))
  }

  lemma SetsAfterInsert(obs: map<ObsKey, bool>, k: ObsKey, first: bool, p: PeerId)
    requires k !in obs
    ensures RowsOf(obs[k := first], p) == RowsOf(obs, p) + (if k.1 == p then {k} else {})
    ensures FirstsOf(obs[k := first], p) == FirstsOf(obs, p) + (if k.1 == p && first then {k} else {})
  {
  }

  lemma RowsAfterInsert(obs: map<ObsKey, bool>, k: ObsKey, first: bool, p: PeerId)
    requires k !in obs
    ensures Recount(obs[k := first], p) == Stat(Recount(obs, p).eligible + (if k.1 == p then 1 else 0),
                                                Recount(obs, p).first + (if k.1 == p && first then 1 else 0))
  {
    SetsAfterInsert(obs, k, first, p);
    assert k !in RowsOf(obs, p) && k !in FirstsOf(obs, p);
  }

  lemma RowsAfterDelete(obs: map<ObsKey, bool>, k: ObsKey, p: PeerId)
    requires k in obs
    ensures Recount(obs - {k}, p) == Stat(Recount(obs, p).eligible - (if k.1 == p then 1 else 0),
                                          Recount(obs, p).first - (if k.1 == p && obs[k] then 1 else 0))
  {
    var less := obs - {k};
    assert less[k := obs[k]] == obs;
    RowsAfterInsert(less, k, obs[k], p);
  }

  lemma TotalAfterInsert(stats: map<PeerId, Stat>, p: PeerId, first: bool, q: PeerId)
    ensures Total(OnInsert(stats, p, first), q) ==
      Stat(Total(stats, q).eligible + (if p == q then 1 else 0), Total(stats, q).first + (if p == q && first then 1 else 0))
  {
  }

  lemma InsertIsExact(db: Db, k: ObsKey, first: bool)
    requires Exact(db)
    ensures Exact(InsertObs(db, k, first))
  {
    if k !in db.obs {
      forall p: PeerId ensures Total(OnInsert(db.stats, k.1, first), p) == Recount(db.obs[k := first], p) {
        TotalAfterInsert(db.stats, k.1, first, p);
        RowsAfterInsert(db.obs, k, first, p);
      }
    }
  }

  // A row implies a total, so the trigger always finds one to take from.
  lemma RowHasTotal(db: Db, k: ObsKey)
    requires Exact(db) && k in db.obs
    ensures k.1 in db.stats
  {
    assert k in RowsOf(db.obs, k.1);
    assert Total(db.stats, k.1) == Recount(db.obs, k.1);
  }

  lemma DeleteIsExact(db: Db, k: ObsKey)
    requires Exact(db)
    ensures Exact(DeleteObs(db, k))
  {
    if k in db.obs {
      RowHasTotal(db, k);
      forall p: PeerId ensures Total(DeleteObs(db, k).stats, p) == Recount(DeleteObs(db, k).obs, p) {
        RowsAfterDelete(db.obs, k, p);
      }
    }
  }

  lemma RowsAfterUpdate(obs: map<ObsKey, bool>, k: ObsKey, first: bool, p: PeerId)
    requires k in obs
    ensures Recount(obs[k := first], p) == Stat(Recount(obs, p).eligible,
      Recount(obs, p).first - (if k.1 == p && obs[k] then 1 else 0) + (if k.1 == p && first then 1 else 0))
  {
    RowsAfterDelete(obs, k, p);
    assert (obs - {k})[k := first] == obs[k := first];
    RowsAfterInsert(obs - {k}, k, first, p);
  }

  lemma UpdateIsExact(db: Db, k: ObsKey, first: bool)
    requires Exact(db)
    ensures Exact(UpdateObs(db, k, first))
  {
    if k in db.obs {
      RowHasTotal(db, k);
      forall p: PeerId ensures Total(OnUpdate(db.stats, k.1, db.obs[k], first), p) == Recount(db.obs[k := first], p) {
        RowsAfterUpdate(db.obs, k, first, p);
      }
    }
  }

  // ---- Writing a race -------------------------------------------------------------

  datatype Seen = Seen(addr: string, lastBlock: Option<int>)

  function FirstCount(seen: seq<Seen>, detectedAt: int): nat {
    if |seen| == 0 then 0
    else (if IsFirstPeer(seen[0].lastBlock, detectedAt) then 1 else 0) + FirstCount(seen[1..], detectedAt)
  }

  function WithPeer(db: Db, addr: string, now: int): Db {
    if addr in db.peers then db
    else db.(peers := db.peers[addr := PeerRow(db.nextPeer, now)], nextPeer := db.nextPeer + 1)
  }

  function RecordPeer(db: Db, race: RaceId, seen: Seen, unclear: bool, detectedAt: int, now: int): Db {
    var known := WithPeer(db, seen.addr, now);
    InsertObs(known, (race, known.peers[seen.addr].id), !unclear && IsFirstPeer(seen.lastBlock, detectedAt))
  }

  function RecordPeers(db: Db, race: RaceId, seen: seq<Seen>, unclear: bool, detectedAt: int, now: int): Db
    decreases |seen|
  {
    if |seen| == 0 then db
    else RecordPeers(RecordPeer(db, race, seen[0], unclear, detectedAt, now), race, seen[1..], unclear, detectedAt, now)
  }

  function RaceOpened(db: Db, hash: string, detectedAt: int, count: nat): Db {
    db.(races := db.races[hash := RaceRow(db.nextRace, detectedAt, count)], nextRace := db.nextRace + 1)
  }

  // A duplicate hash is ignored; more than one match credits nobody.
  function RecordRace(db: Db, hash: string, detectedAt: int, seen: seq<Seen>, now: int): Db {
    if hash in db.races then db
    else
      var count := FirstCount(seen, detectedAt);
      RecordPeers(RaceOpened(db, hash, detectedAt, count), db.nextRace, seen, count > 1, detectedAt, now)
  }

  // ---- Deleting ---------------------------------------------------------------------

  // pruneOldData: closed sessions of peers without history, then peers with
  // neither, then totals without a peer.
  function PruneOld(db: Db, cutoff: int): Db {
    var sessions := map s | s in db.sessions && !(
        && db.sessions[s].endedAt.Some? && db.sessions[s].endedAt.value < cutoff
        && exists a :: a in db.peers && db.peers[a].id == db.sessions[s].peer && db.peers[a].id !in db.stats && a !in db.trusted)
      :: db.sessions[s];
    var peers := map a | a in db.peers && !(
        && (forall s :: s in sessions ==> sessions[s].peer != db.peers[a].id)
        && db.peers[a].id !in db.stats && a !in db.trusted)
      :: db.peers[a];
    var stats := map p | p in db.stats && (exists a :: a in peers && peers[a].id == p) :: db.stats[p];
    db.(sessions := sessions, peers := peers, stats := stats)
  }

  // Everything of a set of peers goes, rows and totals included.
  function RemovePeers(db: Db, gone: set<PeerId>): Db {
    db.(obs := map k | k in db.obs && k.1 !in gone :: db.obs[k],
        sessions := map s | s in db.sessions && db.sessions[s].peer !in gone :: db.sessions[s],
        stats := db.stats - gone,
        peers := map a | a in db.peers && db.peers[a].id !in gone :: db.peers[a])
  }

  // resetPeerData, as far as these tables go: the manual sessions of manual
  // peers stay, with their peers, and every manual peer has a row afterwards.
  // `addresses` is what is read back from trusted_peer, in any order.
  function Reset(db: Db, addresses: seq<string>, now: int): Db { WithPeers(Wiped(db), addresses, now) }

  function Wiped(db: Db): Db {
    var sessions := map s | s in db.sessions && db.sessions[s].manual
                            && (exists a :: a in db.peers && db.peers[a].id == db.sessions[s].peer && a in db.trusted)
      :: db.sessions[s];
    db.(obs := map[], stats := map[], races := map[], sessions := sessions, parked := {},
        peers := map a | a in db.peers && (exists s :: s in sessions && sessions[s].peer == db.peers[a].id) :: db.peers[a])
  }

  function WithPeers(db: Db, addresses: seq<string>, now: int): Db
    decreases |addresses|
  {
    if |addresses| == 0 then db else WithPeers(WithPeer(db, addresses[0], now), addresses[1..], now)
  }

  function Rebuilt(db: Db): Db
  {
    db.(stats := map p | p in (set k | k in db.obs :: k.1) :: RecountOf(db.obs, p))
  }

  // COUNT(*), SUM(first) GROUP BY peer_id
  function RecountOf(obs: map<ObsKey, bool>, p: PeerId): Stat {
    Stat(|set k | k in obs && k.1 == p|, |set k | k in obs && k.1 == p && obs[k]|)
  }

  // ---- What every operation keeps ---------------------------------------------------

  // No row refers to a peer or race that is not there; ids are given out once.
  ghost predicate IsPeer(db: Db, p: PeerId) { exists a :: a in db.peers && db.peers[a].id == p }

  ghost predicate RefsOk(db: Db) {
    && (forall k :: k in db.obs ==> IsPeer(db, k.1) && k.0 < db.nextRace)
    && (forall p :: p in db.stats ==> IsPeer(db, p))
    && (forall s :: s in db.sessions ==> IsPeer(db, db.sessions[s].peer))
  }

  ghost predicate IdsOk(db: Db) {
    && (forall a :: a in db.peers ==> db.peers[a].id < db.nextPeer)
    && (forall a, b :: a in db.peers && b in db.peers && db.peers[a].id == db.peers[b].id ==> a == b)
  }

  ghost predicate Linked(db: Db) { RefsOk(db) && IdsOk(db) }

  // Fewer references, more peers.
  lemma RefsCarryOver(db: Db, t: Db)
    requires RefsOk(db) && db.nextRace <= t.nextRace
    requires forall k :: k in t.obs ==> k in db.obs && (IsPeer(db, k.1) ==> IsPeer(t, k.1))
    requires forall p :: p in t.stats ==> p in db.stats && (IsPeer(db, p) ==> IsPeer(t, p))
    requires forall s :: s in t.sessions ==>
      s in db.sessions && t.sessions[s] == db.sessions[s] && (IsPeer(db, t.sessions[s].peer) ==> IsPeer(t, t.sessions[s].peer))
    ensures RefsOk(t)
  {
  }

  // Each race credits at most one peer.
  ghost predicate OneCreditEach(obs: map<ObsKey, bool>) {
    forall k, l :: k in obs && l in obs && k.0 == l.0 && obs[k] && obs[l] ==> k == l
  }

  lemma PeersStay(db: Db, t: Db)
    requires forall a :: a in db.peers ==> a in t.peers && t.peers[a].id == db.peers[a].id
    ensures forall p :: IsPeer(db, p) ==> IsPeer(t, p)
  {
    forall p | IsPeer(db, p) ensures IsPeer(t, p) {
      var a :| a in db.peers && db.peers[a].id == p;
      assert a in t.peers && t.peers[a].id == p;
    }
  }

  lemma NewPeerKeepsIds(db: Db, addr: string, now: int)
    requires IdsOk(db)
    ensures IdsOk(WithPeer(db, addr, now))
  {
  }

  lemma WithPeerKeeps(db: Db, addr: string, now: int)
    requires Linked(db)
    ensures Linked(WithPeer(db, addr, now)) && addr in WithPeer(db, addr, now).peers
    ensures OnlyAddsPeers(db, WithPeer(db, addr, now))
  {
    NewPeerKeepsIds(db, addr, now);
    MorePeersKeepRefs(db, WithPeer(db, addr, now));
  }

  // The same rows, and more peers to refer to.
  ghost predicate OnlyAddsPeers(db: Db, t: Db) {
    && t.(peers := db.peers, nextPeer := db.nextPeer) == db
    && forall a :: a in db.peers ==> a in t.peers && t.peers[a] == db.peers[a]
  }

  lemma MorePeersKeepRefs(db: Db, t: Db)
    requires RefsOk(db) && OnlyAddsPeers(db, t)
    ensures RefsOk(t)
  {
    PeersStay(db, t);
    RefsCarryOver(db, t);
  }

  lemma InsertIsLinked(db: Db, k: ObsKey, first: bool)
    requires Linked(db) && IsPeer(db, k.1) && k.0 < db.nextRace
    ensures Linked(InsertObs(db, k, first))
  {
    OneRowMoreIsLinked(db, InsertObs(db, k, first), k);
  }

  lemma OneRowMoreIsLinked(db: Db, t: Db, k: ObsKey)
    requires Linked(db) && IsPeer(db, k.1) && k.0 < db.nextRace && t.(obs := db.obs, stats := db.stats) == db
    requires forall l :: l in t.obs ==> l in db.obs || l == k
    requires forall p :: p in t.stats ==> p in db.stats || p == k.1
    ensures Linked(t)
  {
    PeersStay(db, t);
  }

  ghost predicate Credited(obs: map<ObsKey, bool>, race: RaceId) { exists k :: k in obs && k.0 == race && obs[k] }

  lemma InsertOneCredit(obs: map<ObsKey, bool>, k: ObsKey, first: bool)
    requires OneCreditEach(obs) && k !in obs && (first ==> !Credited(obs, k.0))
    ensures OneCreditEach(obs[k := first])
    ensures Credited(obs[k := first], k.0) <==> first || Credited(obs, k.0)
  {
    var more := obs[k := first];
    if first { assert more[k]; }
    if Credited(obs, k.0) { var l :| l in obs && l.0 == k.0 && obs[l]; assert more[l]; }
  }

  lemma {:induction false} RecordPeersKeep(db: Db, race: RaceId, seen: seq<Seen>, unclear: bool, detectedAt: int, now: int)
    requires Exact(db) && Linked(db) && race < db.nextRace
    ensures var t := RecordPeers(db, race, seen, unclear, detectedAt, now); Exact(t) && Linked(t)
    decreases |seen|
  {
    if |seen| > 0 {
      var known := WithPeer(db, seen[0].addr, now);
      WithPeerKeeps(db, seen[0].addr, now);
      assert Exact(known);
      var k := (race, known.peers[seen[0].addr].id);
      assert IsPeer(known, k.1);
      InsertIsExact(known, k, !unclear && IsFirstPeer(seen[0].lastBlock, detectedAt));
      InsertIsLinked(known, k, !unclear && IsFirstPeer(seen[0].lastBlock, detectedAt));
      RecordPeersKeep(RecordPeer(db, race, seen[0], unclear, detectedAt, now), race, seen[1..], unclear, detectedAt, now);
    }
  }

  lemma {:induction false} RecordPeersCreditOne(db: Db, race: RaceId, seen: seq<Seen>, unclear: bool, detectedAt: int, now: int)
    requires OneCreditEach(db.obs)
    requires !unclear ==> FirstCount(seen, detectedAt) <= 1
    requires !unclear && Credited(db.obs, race) ==> FirstCount(seen, detectedAt) == 0
    ensures OneCreditEach(RecordPeers(db, race, seen, unclear, detectedAt, now).obs)
    decreases |seen|
  {
    if |seen| > 0 {
      var known := WithPeer(db, seen[0].addr, now);
      var k := (race, known.peers[seen[0].addr].id);
      var first := !unclear && IsFirstPeer(seen[0].lastBlock, detectedAt);
      if k !in known.obs { InsertOneCredit(known.obs, k, first); }
      RecordPeersCreditOne(RecordPeer(db, race, seen[0], unclear, detectedAt, now), race, seen[1..], unclear, detectedAt, now);
    }
  }

  lemma RaceOpenedKeeps(db: Db, hash: string, detectedAt: int, count: nat)
    requires Exact(db) && Linked(db) && OneCreditEach(db.obs)
    ensures var t := RaceOpened(db, hash, detectedAt, count);
      Exact(t) && Linked(t) && OneCreditEach(t.obs) && !Credited(t.obs, db.nextRace)
  {
    var t := RaceOpened(db, hash, detectedAt, count);
    PeersStay(db, t);
    RefsCarryOver(db, t);
  }

  lemma RecordRaceKeeps(db: Db, hash: string, detectedAt: int, seen: seq<Seen>, now: int)
    requires Exact(db) && Linked(db) && OneCreditEach(db.obs)
    ensures var t := RecordRace(db, hash, detectedAt, seen, now); Exact(t) && Linked(t) && OneCreditEach(t.obs)
  {
    if hash !in db.races {
      var count, id := FirstCount(seen, detectedAt), db.nextRace;
      var begun := RaceOpened(db, hash, detectedAt, count);
      RaceOpenedKeeps(db, hash, detectedAt, count);
      RecordPeersKeep(begun, id, seen, count > 1, detectedAt, now);
      RecordPeersCreditOne(begun, id, seen, count > 1, detectedAt, now);
    }
  }

  // ---- The deleting jobs keep it too ------------------------------------------------

  // A peer with a row has a total, so the feeler prune cannot touch it.
  lemma PruneOldKeeps(db: Db, cutoff: int)
    requires Exact(db) && Linked(db)
    ensures var t := PruneOld(db, cutoff); Exact(t) && Linked(t) && t.obs == db.obs && t.stats == db.stats
  {
    var t := PruneOld(db, cutoff);
    forall p | p in db.stats ensures IsPeer(t, p) && p in t.stats { CountedPeersStay(db, cutoff, p); }
    assert t.stats == db.stats;
    forall k | k in db.obs ensures IsPeer(t, k.1) { RowHasTotal(db, k); }
    forall s | s in t.sessions ensures s in db.sessions && t.sessions[s] == db.sessions[s] && IsPeer(t, t.sessions[s].peer) {
      PeersWithSessionsStay(db, cutoff, s);
    }
    PrunedIsLinked(db, t);
  }

  lemma CountedPeersStay(db: Db, cutoff: int, p: PeerId)
    requires RefsOk(db) && p in db.stats
    ensures IsPeer(PruneOld(db, cutoff), p) && p in PruneOld(db, cutoff).stats
  {
    var t := PruneOld(db, cutoff);
    var a :| a in db.peers && db.peers[a].id == p;
    assert a in t.peers && t.peers[a].id == p;
  }

  lemma PeersWithSessionsStay(db: Db, cutoff: int, s: nat)
    requires RefsOk(db) && s in PruneOld(db, cutoff).sessions
    ensures IsPeer(PruneOld(db, cutoff), db.sessions[s].peer)
  {
    var t := PruneOld(db, cutoff);
    var a :| a in db.peers && db.peers[a].id == db.sessions[s].peer;
    assert a in t.peers;
  }

  lemma PrunedIsLinked(db: Db, t: Db)
    requires Exact(db) && Linked(db)
    requires t.obs == db.obs && t.stats == db.stats && t.nextRace == db.nextRace && t.nextPeer == db.nextPeer
    requires forall a :: a in t.peers ==> a in db.peers && t.peers[a] == db.peers[a]
    requires forall p :: p in t.stats ==> IsPeer(t, p)
    requires forall k :: k in t.obs ==> IsPeer(t, k.1)
    requires forall s :: s in t.sessions ==> IsPeer(t, t.sessions[s].peer)
    ensures Exact(t) && Linked(t)
  {
  }

  // Who was never there for a block, is not manual, and has no session that is open
  // or ended since the cutoff: gone, with what sessions there were. Nobody else is.
  ghost predicate IsFeeler(db: Db, a: string) { a in db.peers && db.peers[a].id !in db.stats && a !in db.trusted }

  ghost predicate IsStale(db: Db, cutoff: int, s: nat)
    requires s in db.sessions
  {
    db.sessions[s].endedAt.Some? && db.sessions[s].endedAt.value < cutoff
  }

  ghost predicate AllStale(db: Db, cutoff: int, a: string)
    requires a in db.peers
  {
    forall s :: s in db.sessions && db.sessions[s].peer == db.peers[a].id ==> IsStale(db, cutoff, s)
  }

  lemma FeelersGo(db: Db, cutoff: int)
    requires Linked(db)
    ensures var t := PruneOld(db, cutoff);
      && (forall a :: a in t.peers <==> a in db.peers && !(IsFeeler(db, a) && AllStale(db, cutoff, a)))
      && (forall a :: a in t.peers ==> t.peers[a] == db.peers[a])
      && (forall s, a :: s in db.sessions && a in db.peers && db.peers[a].id == db.sessions[s].peer ==>
            (s in t.sessions <==> !(IsFeeler(db, a) && IsStale(db, cutoff, s))))
  {
    forall s, a | s in db.sessions && a in db.peers && db.peers[a].id == db.sessions[s].peer
      ensures s in PruneOld(db, cutoff).sessions <==> !(IsFeeler(db, a) && IsStale(db, cutoff, s))
    {
      SessionGoesIff(db, cutoff, s, a);
    }
    forall a | a in db.peers
      ensures a in PruneOld(db, cutoff).peers <==> !(IsFeeler(db, a) && AllStale(db, cutoff, a))
    {
      PeerGoesIff(db, cutoff, a);
    }
  }

  lemma SessionGoesIff(db: Db, cutoff: int, s: nat, a: string)
    requires IdsOk(db) && s in db.sessions && a in db.peers && db.peers[a].id == db.sessions[s].peer
    ensures s in PruneOld(db, cutoff).sessions <==> !(IsFeeler(db, a) && IsStale(db, cutoff, s))
  {
  }

  lemma PeerGoesIff(db: Db, cutoff: int, a: string)
    requires IdsOk(db) && a in db.peers
    ensures a in PruneOld(db, cutoff).peers <==> !(IsFeeler(db, a) && AllStale(db, cutoff, a))
  {
    forall s | s in db.sessions && db.sessions[s].peer == db.peers[a].id
      ensures s in PruneOld(db, cutoff).sessions <==> !(IsFeeler(db, a) && IsStale(db, cutoff, s))
    {
      SessionGoesIff(db, cutoff, s, a);
    }
    var left := PruneOld(db, cutoff).sessions;
    assert forall s :: s in left ==> s in db.sessions && left[s] == db.sessions[s];
  }

  lemma RowsLeft(obs: map<ObsKey, bool>, gone: set<PeerId>, p: PeerId)
    ensures var left := map k | k in obs && k.1 !in gone :: obs[k];
      Recount(left, p) == if p in gone then Stat(0, 0) else Recount(obs, p)
  {
    var left := map k | k in obs && k.1 !in gone :: obs[k];
    if p in gone {
      assert RowsOf(left, p) == {} && FirstsOf(left, p) == {};
    } else {
      assert RowsOf(left, p) == RowsOf(obs, p) && FirstsOf(left, p) == FirstsOf(obs, p);
    }
  }

  lemma RemovePeersIsExact(db: Db, gone: set<PeerId>)
    requires Exact(db)
    ensures Exact(RemovePeers(db, gone))
    ensures forall p: PeerId :: p !in gone ==> Total(RemovePeers(db, gone).stats, p) == Total(db.stats, p)
  {
    forall p: PeerId ensures Total(RemovePeers(db, gone).stats, p) == Recount(RemovePeers(db, gone).obs, p) {
      RowsLeft(db.obs, gone, p);
    }
  }

  lemma PeerLeft(db: Db, t: Db, gone: set<PeerId>, p: PeerId)
    requires t.peers == RemovePeers(db, gone).peers && IsPeer(db, p) && p !in gone
    ensures IsPeer(t, p)
  {
    var a :| a in db.peers && db.peers[a].id == p;
    assert a in t.peers && t.peers[a].id == p;
  }

  lemma RemovePeersIsLinked(db: Db, gone: set<PeerId>)
    requires Linked(db)
    ensures Linked(RemovePeers(db, gone))
  {
    var t := RemovePeers(db, gone);
    forall p | IsPeer(db, p) && p !in gone ensures IsPeer(t, p) { PeerLeft(db, t, gone, p); }
    RefsCarryOver(db, t);
  }

  // No race loses or changes its credited peer when the peers removed never had one.
  lemma RemovingNeverFirstKeepsCredits(db: Db, gone: set<PeerId>)
    requires forall k :: k in db.obs && k.1 in gone ==> !db.obs[k]
    ensures forall k :: (k in db.obs && db.obs[k]) <==> (k in RemovePeers(db, gone).obs && RemovePeers(db, gone).obs[k])
    ensures OneCreditEach(db.obs) ==> OneCreditEach(RemovePeers(db, gone).obs)
  {
  }

  lemma WipedKeeps(db: Db)
    requires Linked(db)
    ensures var t := Wiped(db); Exact(t) && Linked(t)
  {
    var t := Wiped(db);
    forall p: PeerId ensures Recount(t.obs, p) == Stat(0, 0) {
      assert RowsOf(t.obs, p) == {} && FirstsOf(t.obs, p) == {};
    }
    forall s | s in t.sessions ensures IsPeer(t, t.sessions[s].peer) {
      var a :| a in db.peers && db.peers[a].id == db.sessions[s].peer && a in db.trusted;
      assert a in t.peers;
    }
  }

  lemma AddsPeersTwice(db: Db, mid: Db, t: Db)
    requires OnlyAddsPeers(db, mid) && OnlyAddsPeers(mid, t)
    ensures OnlyAddsPeers(db, t)
  {
  }

  lemma {:induction false} WithPeersKeep(db: Db, addresses: seq<string>, now: int)
    requires Linked(db)
    ensures var t := WithPeers(db, addresses, now);
      Linked(t) && OnlyAddsPeers(db, t) && forall a :: a in t.peers <==> a in db.peers || a in addresses
    decreases |addresses|
  {
    if |addresses| > 0 {
      var mid := WithPeer(db, addresses[0], now);
      WithPeerKeeps(db, addresses[0], now);
      WithPeersKeep(mid, addresses[1..], now);
      AddsPeersTwice(db, mid, WithPeers(mid, addresses[1..], now));
      assert addresses == [addresses[0]] + addresses[1..];
      assert forall a :: a in mid.peers <==> a in db.peers || a == addresses[0];
    }
  }

  // SELECT address FROM trusted_peer, in whatever order.
  ghost predicate Lists(addresses: seq<string>, trusted: set<string>) { forall a :: a in addresses <==> a in trusted }

  // A reset leaves exact totals and nothing dangling, and the peers on file are
  // exactly the manual peers.
  lemma ResetKeeps(db: Db, addresses: seq<string>, now: int)
    requires Linked(db) && Lists(addresses, db.trusted)
    ensures var t := Reset(db, addresses, now);
      && Exact(t) && Linked(t) && OneCreditEach(t.obs)
      && t.trusted == db.trusted && (forall a :: a in t.peers <==> a in t.trusted)
      && t.obs == map[] && t.stats == map[] && t.races == map[] && t.parked == {}
      && (forall s :: s in t.sessions ==> s in db.sessions && t.sessions[s] == db.sessions[s] && db.sessions[s].manual)
  {
    WipedKeeps(db);
    WithPeersKeep(Wiped(db), addresses, now);
    assert Exact(Wiped(db));
    WipedLeavesManualPeers(db);
  }

  lemma WipedLeavesManualPeers(db: Db)
    requires IdsOk(db)
    ensures forall a :: a in Wiped(db).peers ==> a in db.trusted
  {
    forall a | a in Wiped(db).peers ensures a in db.trusted {
      var s :| s in Wiped(db).sessions && Wiped(db).sessions[s].peer == db.peers[a].id;
      var b :| b in db.peers && db.peers[b].id == db.sessions[s].peer && b in db.trusted;
    }
  }

  // The manual peers keep their manual sessions through a reset, and those
  // sessions keep their peers.
  lemma ResetKeepsManualPeers(db: Db, addresses: seq<string>, now: int, s: nat, a: string)
    requires Linked(db) && s in db.sessions && db.sessions[s].manual
    requires a in db.peers && db.peers[a].id == db.sessions[s].peer
    ensures a in db.trusted <==> s in Reset(db, addresses, now).sessions
    ensures a in db.trusted ==> a in Reset(db, addresses, now).peers && Reset(db, addresses, now).peers[a] == db.peers[a]
  {
    WipedKeeps(db);
    WithPeersKeep(Wiped(db), addresses, now);
    if a in db.trusted { assert s in Wiped(db).sessions; }
  }

  // The repair hatch changes nothing when there is nothing to repair, and
  // repairs whatever was wrong.
  lemma RebuiltIsExact(db: Db)
    ensures Exact(Rebuilt(db))
    ensures Exact(db) ==> forall p: PeerId :: Total(Rebuilt(db).stats, p) == Total(db.stats, p)
  {
    forall p: PeerId ensures Total(Rebuilt(db).stats, p) == Recount(db.obs, p) {
      if p !in Rebuilt(db).stats {
        forall k | k in db.obs ensures k.1 != p { assert k.1 in (set l | l in db.obs :: l.1); }
        assert RowsOf(db.obs, p) == {} && FirstsOf(db.obs, p) == {};
      }
    }
  }

  lemma RebuiltIsLinked(db: Db)
    requires Linked(db)
    ensures Linked(Rebuilt(db))
  {
    var t := Rebuilt(db);
    assert forall p :: IsPeer(db, p) <==> IsPeer(t, p);
  }

  // ---- Who is credited ------------------------------------------------------------------

  ghost predicate DistinctSeen(seen: seq<Seen>) { forall i, j :: 0 <= i < j < |seen| ==> seen[i].addr != seen[j].addr }

  // The one peer that could have brought the block, and the only one.
  ghost predicate AloneFirst(seen: seq<Seen>, detectedAt: int, i: nat)
    requires i < |seen|
  {
    && IsFirstPeer(seen[i].lastBlock, detectedAt)
    && forall j :: 0 <= j < |seen| && j != i ==> !IsFirstPeer(seen[j].lastBlock, detectedAt)
  }

  // Everybody seen has a row in this race, and one more in the totals.
  ghost predicate WrittenFor(db: Db, t: Db, race: RaceId, s: Seen, first: bool) {
    && s.addr in t.peers && (race, t.peers[s.addr].id) in t.obs && t.obs[(race, t.peers[s.addr].id)] == first
    && Total(t.stats, t.peers[s.addr].id) ==
         Stat(Total(db.stats, t.peers[s.addr].id).eligible + 1,
              Total(db.stats, t.peers[s.addr].id).first + if first then 1 else 0)
  }

  // No other row appears or changes, no other total moves, and nobody is renamed.
  ghost predicate OnlyFor(db: Db, t: Db, race: RaceId, seen: seq<Seen>) {
    && (forall k :: k in db.obs ==> k in t.obs && t.obs[k] == db.obs[k])
    && (forall k :: k in t.obs && k !in db.obs ==> k.0 == race && IsSeenId(t, seen, k.1))
    && (forall p: PeerId :: !IsSeenId(t, seen, p) ==> Total(t.stats, p) == Total(db.stats, p))
    && (forall a :: a in db.peers ==> a in t.peers && t.peers[a] == db.peers[a])
  }

  ghost predicate IsSeenId(t: Db, seen: seq<Seen>, p: PeerId) {
    exists i :: 0 <= i < |seen| && seen[i].addr in t.peers && t.peers[seen[i].addr].id == p
  }

  // Nobody still to be written has a row in this race yet.
  ghost predicate NoRowsYet(db: Db, race: RaceId, seen: seq<Seen>) {
    && IdsOk(db)
    && (forall k :: k in db.obs && k.0 == race ==> k.1 < db.nextPeer)
    && (forall i :: 0 <= i < |seen| && seen[i].addr in db.peers ==> (race, db.peers[seen[i].addr].id) !in db.obs)
  }

  lemma RecordPeerWrites(db: Db, race: RaceId, s: Seen, unclear: bool, detectedAt: int, now: int)
    requires IdsOk(db) && (forall k :: k in db.obs && k.0 == race ==> k.1 < db.nextPeer)
    requires s.addr in db.peers ==> (race, db.peers[s.addr].id) !in db.obs
    ensures var t := RecordPeer(db, race, s, unclear, detectedAt, now);
      && WrittenFor(db, t, race, s, !unclear && IsFirstPeer(s.lastBlock, detectedAt))
      && t.obs == db.obs[(race, t.peers[s.addr].id) := !unclear && IsFirstPeer(s.lastBlock, detectedAt)]
      && (forall p: PeerId :: p != t.peers[s.addr].id ==> Total(t.stats, p) == Total(db.stats, p))
      && t.peers == WithPeer(db, s.addr, now).peers && t.nextPeer == WithPeer(db, s.addr, now).nextPeer
  {
    var known := WithPeer(db, s.addr, now);
    var k := (race, known.peers[s.addr].id);
    assert k !in known.obs;
  }

  lemma StillNoRows(db: Db, t: Db, race: RaceId, seen: seq<Seen>, first: bool, now: int)
    requires |seen| > 0 && NoRowsYet(db, race, seen) && DistinctSeen(seen)
    requires t.peers == WithPeer(db, seen[0].addr, now).peers && t.nextPeer == WithPeer(db, seen[0].addr, now).nextPeer
    requires t.obs == db.obs[(race, t.peers[seen[0].addr].id) := first]
    ensures NoRowsYet(t, race, seen[1..]) && DistinctSeen(seen[1..])
  {
    NewPeerKeepsIds(db, seen[0].addr, now);
    forall i | 0 <= i < |seen[1..]| && seen[1..][i].addr in t.peers
      ensures (race, t.peers[seen[1..][i].addr].id) !in t.obs
    {
      assert seen[1..][i] == seen[i + 1] && seen[i + 1].addr != seen[0].addr;
    }
  }

  // What was written for one stays while the others are written.
  lemma WrittenStays(db: Db, mid: Db, t: Db, race: RaceId, s: Seen, first: bool, rest: seq<Seen>)
    requires WrittenFor(db, mid, race, s, first) && OnlyFor(mid, t, race, rest) && IdsOk(t)
    requires forall i :: 0 <= i < |rest| ==> rest[i].addr != s.addr
    ensures WrittenFor(db, t, race, s, first)
  {
    assert t.peers[s.addr] == mid.peers[s.addr];
    assert !IsSeenId(t, rest, t.peers[s.addr].id);
  }

  // What is written for a later one counts from the totals before all of them.
  lemma WrittenFromTheStart(db: Db, mid: Db, t: Db, race: RaceId, first: Seen, s: Seen, flag: bool)
    requires WrittenFor(mid, t, race, s, flag) && IdsOk(t) && first.addr in mid.peers && first.addr != s.addr
    requires first.addr in t.peers && t.peers[first.addr] == mid.peers[first.addr]
    requires forall p: PeerId :: p != mid.peers[first.addr].id ==> Total(mid.stats, p) == Total(db.stats, p)
    ensures WrittenFor(db, t, race, s, flag)
  {
    assert t.peers[s.addr].id != t.peers[first.addr].id;
  }

  lemma OnlyForAll(db: Db, mid: Db, t: Db, race: RaceId, seen: seq<Seen>, first: bool, now: int)
    requires |seen| > 0 && OnlyFor(mid, t, race, seen[1..])
    requires mid.peers == WithPeer(db, seen[0].addr, now).peers
    requires mid.obs == db.obs[(race, mid.peers[seen[0].addr].id) := first] && (race, mid.peers[seen[0].addr].id) !in db.obs
    requires forall p: PeerId :: p != mid.peers[seen[0].addr].id ==> Total(mid.stats, p) == Total(db.stats, p)
    ensures OnlyFor(db, t, race, seen)
  {
    SeenIdGrows(t, seen);
    var id := mid.peers[seen[0].addr].id;
    assert seen[0].addr in t.peers && t.peers[seen[0].addr] == mid.peers[seen[0].addr];
    assert IsSeenId(t, seen, id);
    NewRowsAreTheirs(db, mid, t, race, seen, id, first);
    forall p: PeerId | !IsSeenId(t, seen, p) ensures Total(t.stats, p) == Total(db.stats, p) {
      assert !IsSeenId(t, seen[1..], p) && p != id;
    }
  }

  lemma NewRowsAreTheirs(db: Db, mid: Db, t: Db, race: RaceId, seen: seq<Seen>, id: PeerId, first: bool)
    requires |seen| > 0 && mid.obs == db.obs[(race, id) := first] && (race, id) !in db.obs && IsSeenId(t, seen, id)
    requires forall k :: k in mid.obs ==> k in t.obs && t.obs[k] == mid.obs[k]
    requires forall k :: k in t.obs && k !in mid.obs ==> k.0 == race && IsSeenId(t, seen[1..], k.1)
    ensures forall k :: k in db.obs ==> k in t.obs && t.obs[k] == db.obs[k]
    ensures forall k :: k in t.obs && k !in db.obs ==> k.0 == race && IsSeenId(t, seen, k.1)
  {
    SeenIdGrows(t, seen);
    forall k | k in db.obs ensures k in t.obs && t.obs[k] == db.obs[k] { assert k in mid.obs; }
  }

  lemma SeenIdGrows(t: Db, seen: seq<Seen>)
    requires |seen| > 0
    ensures forall p :: IsSeenId(t, seen[1..], p) ==> IsSeenId(t, seen, p)
    ensures seen[0].addr in t.peers ==> IsSeenId(t, seen, t.peers[seen[0].addr].id)
  {
    forall p | IsSeenId(t, seen[1..], p) ensures IsSeenId(t, seen, p) {
      var i :| 0 <= i < |seen[1..]| && seen[1..][i].addr in t.peers && t.peers[seen[1..][i].addr].id == p;
      assert seen[1..][i] == seen[i + 1];
    }
  }

  lemma {:induction false} RecordPeersWrite(db: Db, race: RaceId, seen: seq<Seen>, unclear: bool, detectedAt: int, now: int)
    requires NoRowsYet(db, race, seen) && DistinctSeen(seen)
    ensures var t := RecordPeers(db, race, seen, unclear, detectedAt, now);
      && IdsOk(t) && OnlyFor(db, t, race, seen)
      && forall i :: 0 <= i < |seen| ==>
           WrittenFor(db, t, race, seen[i], !unclear && IsFirstPeer(seen[i].lastBlock, detectedAt))
    decreases |seen|
  {
    if |seen| > 0 {
      var mid := RecordPeer(db, race, seen[0], unclear, detectedAt, now);
      var first := !unclear && IsFirstPeer(seen[0].lastBlock, detectedAt);
      RecordPeerWrites(db, race, seen[0], unclear, detectedAt, now);
      StillNoRows(db, mid, race, seen, first, now);
      RecordPeersWrite(mid, race, seen[1..], unclear, detectedAt, now);
      EachIsWritten(db, mid, race, seen, unclear, detectedAt, now);
    }
  }

  lemma EachIsWritten(db: Db, mid: Db, race: RaceId, seen: seq<Seen>, unclear: bool, detectedAt: int, now: int)
    requires |seen| > 0 && NoRowsYet(db, race, seen) && DistinctSeen(seen)
    requires mid == RecordPeer(db, race, seen[0], unclear, detectedAt, now)
    requires var t := RecordPeers(mid, race, seen[1..], unclear, detectedAt, now);
      && IdsOk(t) && OnlyFor(mid, t, race, seen[1..])
      && forall i :: 0 <= i < |seen[1..]| ==>
           WrittenFor(mid, t, race, seen[1..][i], !unclear && IsFirstPeer(seen[1..][i].lastBlock, detectedAt))
    ensures var t := RecordPeers(mid, race, seen[1..], unclear, detectedAt, now);
      && OnlyFor(db, t, race, seen)
      && forall i :: 0 <= i < |seen| ==>
           WrittenFor(db, t, race, seen[i], !unclear && IsFirstPeer(seen[i].lastBlock, detectedAt))
  {
    var t, rest := RecordPeers(mid, race, seen[1..], unclear, detectedAt, now), seen[1..];
    var first := !unclear && IsFirstPeer(seen[0].lastBlock, detectedAt);
    RecordPeerWrites(db, race, seen[0], unclear, detectedAt, now);
    OnlyForAll(db, mid, t, race, seen, first, now);
    forall i | 0 <= i < |seen|
      ensures WrittenFor(db, t, race, seen[i], !unclear && IsFirstPeer(seen[i].lastBlock, detectedAt))
    {
      if i == 0 {
        WrittenStays(db, mid, t, race, seen[0], first, rest);
      } else {
        assert rest[i - 1] == seen[i];
        WrittenFromTheStart(db, mid, t, race, seen[0], seen[i], !unclear && IsFirstPeer(seen[i].lastBlock, detectedAt));
      }
    }
  }

  // Counting the matches: none, one, or an unclear race.
  lemma {:induction false} FirstCountMeans(seen: seq<Seen>, detectedAt: int)
    ensures FirstCount(seen, detectedAt) == |set i | 0 <= i < |seen| && IsFirstPeer(seen[i].lastBlock, detectedAt)|
    decreases |seen|
  {
    var all := set i | 0 <= i < |seen| && IsFirstPeer(seen[i].lastBlock, detectedAt);
    if |seen| > 0 {
      var rest := set i | 0 <= i < |seen[1..]| && IsFirstPeer(seen[1..][i].lastBlock, detectedAt);
      FirstCountMeans(seen[1..], detectedAt);
      assert forall i :: 0 <= i < |seen[1..]| ==> seen[1..][i] == seen[i + 1];
      FirstOrShifted(all, rest, IsFirstPeer(seen[0].lastBlock, detectedAt));
    } else {
      assert all == {};
    }
  }

  lemma FirstOrShifted(all: set<int>, rest: set<int>, first: bool)
    requires forall i :: i in all ==> 0 <= i
    requires (0 in all <==> first) && forall i :: i > 0 ==> (i in all <==> i - 1 in rest)
    requires forall i :: i in rest ==> 0 <= i
    ensures |all| == |rest| + if first then 1 else 0
  {
    ShiftedByOne(rest, all - {0});
    if first { assert all == {0} + (all - {0}); } else { assert all == all - {0}; }
  }

  // Credited is the only match; with several nobody is.
  lemma CreditedIsAlone(seen: seq<Seen>, detectedAt: int, i: nat)
    requires i < |seen|
    ensures !(FirstCount(seen, detectedAt) > 1) && IsFirstPeer(seen[i].lastBlock, detectedAt) <==> AloneFirst(seen, detectedAt, i)
  {
    var all := set j | 0 <= j < |seen| && IsFirstPeer(seen[j].lastBlock, detectedAt);
    FirstCountMeans(seen, detectedAt);
    if IsFirstPeer(seen[i].lastBlock, detectedAt) {
      assert i in all;
      if AloneFirst(seen, detectedAt, i) {
        assert all == {i};
      } else {
        var j :| 0 <= j < |seen| && j != i && IsFirstPeer(seen[j].lastBlock, detectedAt);
        TwoAtLeast(all, i, j);
      }
    }
  }

  lemma TwoAtLeast(all: set<int>, i: int, j: int)
    requires i in all && j in all && i != j
    ensures |all| > 1
  {
    assert |all| == 1 + |all - {i}|;
    assert j in all - {i};
  }

  // A new race has a row for everybody seen, and credits the one peer that could
  // have brought the block, if there is exactly one.
  ghost predicate RaceWritten(db: Db, t: Db, hash: string, detectedAt: int, seen: seq<Seen>) {
    && t.races == db.races[hash := RaceRow(db.nextRace, detectedAt,
                                           |set i | 0 <= i < |seen| && IsFirstPeer(seen[i].lastBlock, detectedAt)|)]
    && OnlyFor(db, t, db.nextRace, seen)
    && (forall i :: 0 <= i < |seen| ==> WrittenFor(db, t, db.nextRace, seen[i], AloneFirst(seen, detectedAt, i)))
  }

  lemma {:induction false} PeersLeaveRaces(db: Db, race: RaceId, seen: seq<Seen>, unclear: bool, detectedAt: int, now: int)
    ensures RecordPeers(db, race, seen, unclear, detectedAt, now).races == db.races
    decreases |seen|
  {
    if |seen| > 0 {
      PeersLeaveRaces(RecordPeer(db, race, seen[0], unclear, detectedAt, now), race, seen[1..], unclear, detectedAt, now);
    }
  }

  lemma RecordRaceWrites(db: Db, hash: string, detectedAt: int, seen: seq<Seen>, now: int)
    requires Linked(db) && hash !in db.races && DistinctSeen(seen)
    ensures RaceWritten(db, RecordRace(db, hash, detectedAt, seen, now), hash, detectedAt, seen)
  {
    var count := FirstCount(seen, detectedAt);
    var begun := RaceOpened(db, hash, detectedAt, count);
    var t := RecordPeers(begun, db.nextRace, seen, count > 1, detectedAt, now);
    NoRowsInANewRace(db, begun, seen);
    RecordPeersWrite(begun, db.nextRace, seen, count > 1, detectedAt, now);
    PeersLeaveRaces(begun, db.nextRace, seen, count > 1, detectedAt, now);
    FirstCountMeans(seen, detectedAt);
    SameRowsOnlyFor(db, begun, t, db.nextRace, seen);
    forall i | 0 <= i < |seen| ensures WrittenFor(db, t, db.nextRace, seen[i], AloneFirst(seen, detectedAt, i)) {
      CreditedIsAlone(seen, detectedAt, i);
      SameRowsWrittenFor(db, begun, t, db.nextRace, seen[i], AloneFirst(seen, detectedAt, i));
    }
  }

  lemma NoRowsInANewRace(db: Db, begun: Db, seen: seq<Seen>)
    requires Linked(db) && begun.obs == db.obs && begun.peers == db.peers && begun.nextPeer == db.nextPeer
    ensures NoRowsYet(begun, db.nextRace, seen)
  {
  }

  lemma SameRowsOnlyFor(db: Db, begun: Db, t: Db, race: RaceId, seen: seq<Seen>)
    requires begun.obs == db.obs && begun.stats == db.stats && begun.peers == db.peers && OnlyFor(begun, t, race, seen)
    ensures OnlyFor(db, t, race, seen)
  {
  }

  lemma SameRowsWrittenFor(db: Db, begun: Db, t: Db, race: RaceId, s: Seen, first: bool)
    requires begun.stats == db.stats && WrittenFor(begun, t, race, s, first)
    ensures WrittenFor(db, t, race, s, first)
  {
  }
}
