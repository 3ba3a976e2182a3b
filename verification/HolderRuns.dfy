/**
 * What can cost a holder its slot, over whole runs: any sequence of adds,
 * displacements, retirements, padlock changes, blocks and resets, each decided
 * on the ranking as it stands at that moment (src/lib/peer-rotation/rules.js,
 * src/lib/queries/peer-ranking.js and ranking-row.js, src/lib/db.js).
 */
module HolderRuns {
  import opened Wrappers
  import opened Settings
  import opened PeerTables
  import opened Rules
  import opened Rotation

  // ---- The grace of a new holder, as the ranking computes it --------------------

  function GraceBlocks(cfg: Config): nat { if cfg.newManualGraceBlocks == 0 then 1 else cfg.newManualGraceBlocks }

  // detected_at of the race newManualGraceBlocks back; `races` is in id order.
  function NewManualGraceStartedAt(cfg: Config, races: seq<int>): int {
    if |races| >= GraceBlocks(cfg) then races[|races| - GraceBlocks(cfg)] else 0
  }

  function BlocksSince(races: seq<int>, t: int): nat {
    if |races| == 0 then 0
    else BlocksSince(races[..|races| - 1], t) + if races[|races| - 1] >= t then 1 else 0
  }

  ghost predicate InOrder(races: seq<int>) { forall i, j :: 0 <= i < j < |races| ==> races[i] <= races[j] }

  lemma {:induction false} BlocksSinceFits(races: seq<int>, t: int)
    requires InOrder(races)
    ensures var n := BlocksSince(races, t);
      n <= |races| && (n < |races| ==> races[|races| - 1 - n] < t) && (n > 0 ==> races[|races| - n] >= t)
    decreases |races|
  {
    if |races| > 0 {
      var front := races[..|races| - 1];
      BlocksSinceFits(front, t);
      if races[|races| - 1] < t && |front| > 0 { assert front[|front| - 1] <= races[|races| - 1]; }
    }
  }

  // The comparison of two timestamps is exactly a count of blocks.
  lemma GraceIsCountedInBlocks(cfg: Config, races: seq<int>, since: int)
    requires InOrder(races) && since > 0
    ensures since > NewManualGraceStartedAt(cfg, races) <==> BlocksSince(races, since) < GraceBlocks(cfg)
    ensures since > NewManualGraceStartedAt(cfg, races) <==>
      BlocksSince(races, since) == 0 || BlocksSince(races, since) < cfg.newManualGraceBlocks
  {
    BlocksSinceFits(races, since);
    var n, g := BlocksSince(races, since), GraceBlocks(cfg);
    if |races| >= g {
      if n < g {
        assert races[|races| - g] <= races[|races| - 1 - n];
      } else {
        assert races[|races| - n] <= races[|races| - g];
      }
    }
  }

  // ---- The state a ranking row is made from ------------------------------------

  datatype World = World(trusted: map<Address, TrustedRow>, everManual: set<Address>, races: seq<int>, clock: int,
                         lastRetired: map<Address, int>)

  // What sessions and counts say about an address at the moment it is ranked.
  datatype Facts = Facts(eligible: nat, first: nat, firstPct: Option<real>, score: Option<real>, link: Link,
                         dialable: bool, offlineSinceMs: Option<int>)

  // mapRankingRow
  function Ranked(cfg: Config, w: World, a: Address, f: Facts): Peer {
    var row := if a in w.trusted then Some(w.trusted[a]) else None;
    Peer(a, row.Some? || f.link == Manual,
         if row.Some? then row.value.caption else None,
         if row.Some? then Some(row.value.createdAt) else None,
         row.Some? && row.value.kept,
         row.Some? && row.value.createdAt > NewManualGraceStartedAt(cfg, w.races),
         a in w.everManual, f.eligible, f.first, f.firstPct, f.score, f.link, f.dialable,
         if f.link == Offline then f.offlineSinceMs else None)
  }

  datatype Event =
    | Join(address: Address, kept: bool, now: int)                                   // into a free slot, or a re-add
    | Displace(address: Address, kept: bool, out: Address, facts: Facts, now: int)    // swap, revival or add at the cap
    | Retire(address: Address, facts: Facts, now: int)
    | UserRemove(address: Address)
    | Star(address: Address, kept: bool)
    | Held(address: Address)                                                         // Core holds it as manual
    | Block(at: int)
    | Reset(now: int)                                                                // resetPeerData

  function TimeOf(w: World, e: Event): int {
    match e
    case Join(_, _, now) => now
    case Displace(_, _, _, _, now) => now
    case Retire(_, _, now) => now
    case Block(at) => at
    case Reset(now) => now
    case _ => w.clock
  }

  predicate CanDisplace(cfg: Config, w: World, out: Address, facts: Facts) {
    out in w.trusted && Evictable(Ranked(cfg, w, out, facts))
  }

  predicate CanRetire(cfg: Config, w: World, a: Address, facts: Facts, now: int) {
    a in w.trusted && Retires(cfg, Ranked(cfg, w, a, facts), now)
  }

  function Step(cfg: Config, w: World, e: Event): World {
    var v := w.(clock := TimeOf(w, e));
    match e
    case Join(a, kept, now) => v.(trusted := Upsert(w.trusted, a, None, kept, now))
    case Displace(a, kept, out, facts, now) =>
      if a != out && CanDisplace(cfg, w, out, facts)
      then v.(trusted := Upsert(w.trusted, a, None, kept, now) - {out}) else v
    case Retire(a, facts, now) =>
      if CanRetire(cfg, w, a, facts, now)
      then v.(trusted := w.trusted - {a}, lastRetired := w.lastRetired[a := now]) else v
    case UserRemove(a) => v.(trusted := w.trusted - {a})
    case Star(a, kept) =>
      if a in w.trusted then v.(trusted := w.trusted[a := w.trusted[a].(kept := kept)]) else v
    case Held(a) => v.(everManual := w.everManual + {a})
    case Block(at) => v.(races := w.races + [at])
    case Reset(now) =>
      v.(trusted := map a | a in w.trusted :: w.trusted[a].(createdAt := now),
         everManual := w.everManual * w.trusted.Keys, races := [])
  }

  function Run(cfg: Config, w: World, events: seq<Event>): World
    decreases |events|
  {
    if |events| == 0 then w else Run(cfg, Step(cfg, w, events[0]), events[1..])
  }

  // ---- A star holds -----------------------------------------------------------

  ghost predicate StarredAndHeld(w: World, a: Address) {
    a in w.trusted && w.trusted[a].kept && a in w.everManual
  }

  predicate TakesTheStarAway(e: Event, a: Address) { e == UserRemove(a) || e == Event.Star(a, false) }

  // A starred peer that Core has once held as manual leaves only by explicit
  // removal, and only its own control takes the star off: no re-add, swap,
  // retirement or reset in any run does.
  lemma {:induction false} StarHolds(cfg: Config, w: World, events: seq<Event>, a: Address)
    requires StarredAndHeld(w, a)
    requires forall i :: 0 <= i < |events| ==> !TakesTheStarAway(events[i], a)
    ensures StarredAndHeld(Run(cfg, w, events), a)
    decreases |events|
  {
    if |events| > 0 {
      assert !TakesTheStarAway(events[0], a);
      StepKeepsStar(cfg, w, events[0], a);
      assert forall i :: 0 <= i < |events[1..]| ==> events[1..][i] == events[i + 1];
      StarHolds(cfg, Step(cfg, w, events[0]), events[1..], a);
    }
  }

  lemma StepKeepsStar(cfg: Config, w: World, e: Event, a: Address)
    requires StarredAndHeld(w, a) && !TakesTheStarAway(e, a)
    ensures StarredAndHeld(Step(cfg, w, e), a)
  {
    match e
    case Join(_, _, _) =>
    case Displace(_, _, out, facts, _) => if out == a { assert !CanDisplace(cfg, w, out, facts); }
    case Retire(b, facts, now) => if b == a { assert !CanRetire(cfg, w, b, facts, now); }
    case UserRemove(_) =>
    case Star(_, _) =>
    case Held(_) =>
    case Block(_) =>
    case Reset(_) =>
  }

  // ---- Nobody is displaced before his blocks are through ---------------------------

  function Blocks(events: seq<Event>): nat {
    if |events| == 0 then 0 else (if events[0].Block? then 1 else 0) + Blocks(events[1..])
  }

  ghost predicate Timely(cfg: Config, w: World, events: seq<Event>)
    decreases |events|
  {
    |events| > 0 ==> w.clock <= TimeOf(w, events[0]) && Timely(cfg, Step(cfg, w, events[0]), events[1..])
  }

  ghost predicate Consistent(w: World) {
    && InOrder(w.races) && (forall i :: 0 <= i < |w.races| ==> w.races[i] <= w.clock)
    && (forall a :: a in w.trusted ==> w.trusted[a].createdAt <= w.clock)
    && (forall a :: a in w.lastRetired ==> w.lastRetired[a] <= w.clock)
    && (forall a :: a in w.lastRetired && a in w.trusted ==> w.lastRetired[a] <= w.trusted[a].createdAt)
  }

  lemma StepKeepsConsistent(cfg: Config, w: World, e: Event)
    requires Consistent(w) && w.clock <= TimeOf(w, e)
    ensures Consistent(Step(cfg, w, e))
  {
    if e.Join? || e.Displace? {
      JoiningKeepsConsistent(cfg, w, e);
    } else {
      OthersKeepConsistent(cfg, w, e);
    }
  }

  lemma JoiningKeepsConsistent(cfg: Config, w: World, e: Event)
    requires Consistent(w) && w.clock <= TimeOf(w, e) && (e.Join? || e.Displace?)
    ensures Consistent(Step(cfg, w, e))
  {
  }

  lemma OthersKeepConsistent(cfg: Config, w: World, e: Event)
    requires Consistent(w) && w.clock <= TimeOf(w, e) && !e.Join? && !e.Displace?
    ensures Consistent(Step(cfg, w, e))
  {
  }

  lemma {:induction false} RunKeepsConsistent(cfg: Config, w: World, events: seq<Event>)
    requires Consistent(w) && Timely(cfg, w, events)
    ensures Consistent(Run(cfg, w, events))
    decreases |events|
  {
    if |events| > 0 {
      StepKeepsConsistent(cfg, w, events[0]);
      RunKeepsConsistent(cfg, Step(cfg, w, events[0]), events[1..]);
    }
  }

  lemma {:induction false} BlocksComeFromEvents(cfg: Config, w: World, events: seq<Event>, t: int)
    ensures BlocksSince(Run(cfg, w, events).races, t) <= BlocksSince(w.races, t) + Blocks(events)
    decreases |events|
  {
    if |events| > 0 {
      var e := events[0];
      BlocksComeFromEvents(cfg, Step(cfg, w, e), events[1..], t);
      if e.Block? { assert (w.races + [e.at])[..|w.races|] == w.races; }
    }
  }

  // From the moment a peer joins, newManualGraceBlocks blocks (at least one)
  // are recorded before anything can displace it.
  lemma GraceOverRuns(cfg: Config, w: World, events: seq<Event>, a: Address, facts: Facts)
    requires Consistent(w) && Timely(cfg, w, events)
    requires a in w.trusted && w.trusted[a].createdAt > 0 && BlocksSince(w.races, w.trusted[a].createdAt) == 0
    requires var later := Run(cfg, w, events);
      a in later.trusted && later.trusted[a].createdAt == w.trusted[a].createdAt && CanDisplace(cfg, later, a, facts)
    ensures Blocks(events) >= 1 && Blocks(events) >= cfg.newManualGraceBlocks
  {
    var later := Run(cfg, w, events);
    RunKeepsConsistent(cfg, w, events);
    BlocksComeFromEvents(cfg, w, events, w.trusted[a].createdAt);
    GraceIsCountedInBlocks(cfg, later.races, later.trusted[a].createdAt);
  }

  // ---- Nobody is retired, revived and retired every tick -----------------------------

  // Between two retirements of one address lies at least its offline grace, and
  // so at least offlineGraceMinHours.
  lemma RetirementsAreApart(cfg: Config, w: World, events: seq<Event>, a: Address, facts: Facts, now: int)
    requires cfg.Legal() && Consistent(w) && Timely(cfg, w, events)
    requires var later := Run(cfg, w, events); a in later.lastRetired && CanRetire(cfg, later, a, facts, now)
    ensures var later := Run(cfg, w, events);
      && (now - later.trusted[a].createdAt) as real >= OfflineGraceMs(cfg, facts.firstPct)
      && (now - later.lastRetired[a]) as real >= OfflineGraceMs(cfg, facts.firstPct)
      && (now - later.lastRetired[a]) as real >= cfg.offlineGraceMinHours * HOUR_MS
  {
    RunKeepsConsistent(cfg, w, events);
  }

  // ---- What exactly costs a slot ------------------------------------------------------

  // A holder can be displaced exactly if it has no star, and at least one block and
  // the configured number were recorded since it joined.
  lemma CanDisplaceIff(cfg: Config, w: World, a: Address, facts: Facts)
    requires InOrder(w.races) && a in w.trusted && w.trusted[a].createdAt > 0
    ensures CanDisplace(cfg, w, a, facts) <==>
      && !w.trusted[a].kept
      && BlocksSince(w.races, w.trusted[a].createdAt) >= 1
      && BlocksSince(w.races, w.trusted[a].createdAt) >= cfg.newManualGraceBlocks
  {
    GraceIsCountedInBlocks(cfg, w.races, w.trusted[a].createdAt);
  }

  // And retired exactly if it is offline, its star does not count or has not been
  // earned by a connection, and its grace is up since it was last seen, if it was,
  // and since it joined.
  lemma CanRetireIff(cfg: Config, w: World, a: Address, facts: Facts, now: int)
    requires a in w.trusted
    ensures CanRetire(cfg, w, a, facts, now) <==>
      && facts.link == Offline && !(w.trusted[a].kept && a in w.everManual)
      && GraceIsUp(cfg, facts.firstPct, now - w.trusted[a].createdAt)
      && (facts.offlineSinceMs.Some? ==> GraceIsUp(cfg, facts.firstPct, facts.offlineSinceMs.value))
  {
    RetiresIff(cfg, Ranked(cfg, w, a, facts), now);
  }

  ghost predicate TakesTheSlot(cfg: Config, w: World, e: Event, a: Address) {
    match e
    case Displace(newcomer, _, out, facts, _) => out == a && newcomer != a && CanDisplace(cfg, w, a, facts)
    case Retire(b, facts, now) => b == a && CanRetire(cfg, w, a, facts, now)
    case UserRemove(b) => b == a
    case _ => false
  }

  // A holder loses its slot by being displaced, retired or removed, and by nothing else.
  lemma SlotIsLostIff(cfg: Config, w: World, e: Event, a: Address)
    requires a in w.trusted
    ensures a !in Step(cfg, w, e).trusted <==> TakesTheSlot(cfg, w, e, a)
  {
  }
}
