/**
 * src/lib/peer-rotation: retire, revive, promote, and the tick that runs them
 * in that order.
 */
module Rotation {
  import opened Basics
  import opened Wrappers
  import opened Settings
  import opened PeerTables
  import opened AddProtocol
  import opened Rules
  import opened ParkedQueue
  import opened PeerSync
  import opened SwapTermination

  // ---- promote.js: the candidate filter ---------------------------------------

  predicate IsCandidate(cfg: Config, p: Peer) {
    && !p.trusted && p.dialable && p.link == Outbound(false)
    && p.eligible >= cfg.minEligibleForJudgement && p.first > 0
  }

  function Candidates(cfg: Config, ranking: seq<Peer>): (r: seq<Peer>)
    ensures forall p :: p in r <==>
      && p in ranking && !p.trusted && p.dialable && p.link == Outbound(false)
      && p.eligible >= cfg.minEligibleForJudgement && p.first > 0
  {
    if |ranking| == 0 then []
    else (if IsCandidate(cfg, ranking[0]) then [ranking[0]] else []) + Candidates(cfg, ranking[1..])
  }

  function PromotionOf(candidate: Peer, replace: Option<Peer>): Request {
    Request(candidate.address, Some("auto-promoted"),
            Options(false, false, replace, replace.None? || !replace.value.Live()))
  }

  // ---- parking.js: who is retired -----------------------------------------------

  predicate Retires(cfg: Config, p: Peer, now: int) {
    && p.trusted && !p.Live() && !(p.kept && p.everManual)
    && OfflineForMs(p, now).Some? && OfflineForMs(p, now).value as real >= OfflineGraceMs(cfg, p.firstPct)
  }

  // Offline, not covered by the star, and by every clock there is for longer than
  // its record buys: hours for every per cent of blocks brought first, between
  // the bounds.
  ghost predicate Overdue(cfg: Config, p: Peer, now: int) {
    && p.trusted && p.link == Offline && !(p.kept && p.everManual)
    && (p.offlineSinceMs.Some? || p.trustedSince.Some?)
    && (p.offlineSinceMs.Some? ==> GraceIsUp(cfg, p.firstPct, p.offlineSinceMs.value))
    && (p.trustedSince.Some? ==> GraceIsUp(cfg, p.firstPct, now - p.trustedSince.value))
  }

  lemma RetiresIff(cfg: Config, p: Peer, now: int)
    ensures Retires(cfg, p, now) <==> Overdue(cfg, p, now)
  {
    if p.offlineSinceMs.Some? { GraceIsOver(cfg, p.firstPct, p.offlineSinceMs.value); }
    if p.trustedSince.Some? { GraceIsOver(cfg, p.firstPct, now - p.trustedSince.value); }
    OutlastsBoth(p, now, OfflineGraceMs(cfg, p.firstPct));
  }

  lemma OutlastsBoth(p: Peer, now: int, grace: real)
    ensures p.link == Offline ==>
      (OfflineForMs(p, now).Some? && OfflineForMs(p, now).value as real >= grace <==>
        && (p.offlineSinceMs.Some? || p.trustedSince.Some?)
        && (p.offlineSinceMs.Some? ==> p.offlineSinceMs.value as real >= grace)
        && (p.trustedSince.Some? ==> (now - p.trustedSince.value) as real >= grace))
  {
  }

  function Retirees(cfg: Config, ranking: seq<Peer>, now: int): (r: seq<Peer>)
    ensures forall p :: p in r <==> p in ranking && Retires(cfg, p, now)
  {
    if |ranking| == 0 then []
    else (if Retires(cfg, ranking[0], now) then [ranking[0]] else []) + Retirees(cfg, ranking[1..], now)
  }

  // Each one is parked at its own reading of the clock.
  function RetireOne(t: Tables, p: Peer, parkedAt: Address -> int): Tables {
    t.(trusted := t.trusted - {p.address}, parked := Park(t.parked, p, parkedAt(p.address)))
  }

  function RetireAll(t: Tables, gone: seq<Peer>, parkedAt: Address -> int): Tables
    decreases |gone|
  {
    if |gone| == 0 then t else RetireAll(RetireOne(t, gone[0], parkedAt), gone[1..], parkedAt)
  }

  // The readings of the clock in one tick: the retiring pass takes one to decide
  // and one more for each peer it parks, the reviving pass takes its own after it.
  datatype Times = Times(retire: int, parkedAt: Address -> int, revive: int, promote: int)

  // ---- parking.js: what a knock leaves in the row ---------------------------------

  function Stamped(row: ParkedRow, answered: bool, now: int): ParkedRow {
    row.(lastProbeAt := Some(now), probeFailures := if answered then 0 else row.probeFailures + 1)
  }

  function ComingBack(address: Address, row: ParkedRow, replace: Option<Peer>): Request {
    Request(address, if row.caption.Some? then row.caption else Some("back from parking"),
            Options(false, false, replace, replace.None? || !replace.value.Live()))
  }

  // ---- Who can come in ----------------------------------------------------------------

  // Some holder that may be displaced is worse by more than the margin.
  ghost predicate BeatsSomeHolder(cfg: Config, ranking: seq<Peer>, score: Option<real>) {
    exists h :: h in ranking && h.trusted && !h.kept && !h.withinNewManualGrace
                && score.GetOr(-1.0) - h.score.GetOr(-1.0) > cfg.minSwapMarginPct
  }

  // What a newcomer needs: a free slot, or a holder to beat and no more rows than
  // slots; no row for the node under another spelling; and Core's consent.
  ghost predicate CanEnter(cfg: Config, key: Address -> Key, trusted: map<Address, TrustedRow>, ranking: seq<Peer>,
                           address: Address, score: Option<real>, willing: bool)
  {
    && OnlySpelling(trusted, key, address) && willing
    && if |TrustedOf(ranking)| < cfg.maxManualPeers
       then address in trusted || |trusted| < cfg.maxManualPeers
       else BeatsSomeHolder(cfg, ranking, score) && (address in trusted || |trusted| <= cfg.maxManualPeers)
  }

  // One row a node, and every holder in the ranking has one.
  ghost predicate InStep(key: Address -> Key, trusted: map<Address, TrustedRow>, ranking: seq<Peer>) {
    DistinctKeys(trusted, key) && forall p :: p in ranking && p.trusted ==> p.address in trusted
  }

  ghost predicate Enters(cfg: Config, key: Address -> Key, trusted: map<Address, TrustedRow>, ranking: seq<Peer>, p: Peer,
                         willing: Address -> Willing)
  {
    CanEnter(cfg, key, trusted, ranking, p.address, p.score, willing(p.address).add)
  }

  // The first in the list that can come in does.
  ghost predicate FirstEnters(enters: Peer -> bool, list: seq<Peer>, joined: Option<Peer>) {
    match joined
    case None => NoneEnters(enters, list, |list|)
    case Some(p) => exists i :: 0 <= i < |list| && list[i] == p && enters(p) && NoneEnters(enters, list, i)
  }

  ghost predicate NoneEnters(enters: Peer -> bool, list: seq<Peer>, n: nat)
    requires n <= |list|
  {
    forall k :: 0 <= k < n ==> !enters(list[k])
  }

  // One more turn of the loop over the candidates.
  lemma NextEntersOrNot(enters: Peer -> bool, list: seq<Peer>, n: nat)
    requires n < |list| && NoneEnters(enters, list, n)
    ensures if enters(list[n]) then FirstEnters(enters, list, Some(list[n])) else NoneEnters(enters, list, n + 1)
  {
  }

  ghost function Entrants(cfg: Config, key: Address -> Key, trusted: map<Address, TrustedRow>, ranking: seq<Peer>,
                          willing: Address -> Willing): Peer -> bool
  {
    p => Enters(cfg, key, trusted, ranking, p, willing)
  }

  // A parked peer that answers and could come in.
  ghost predicate Returns(cfg: Config, key: Address -> Key, trusted: map<Address, TrustedRow>, ranking: seq<Peer>, a: Address,
                          reachable: Address -> bool, score: Address -> real, willing: Address -> Willing)
  {
    reachable(a) && CanEnter(cfg, key, trusted, ranking, a, Some(score(a)), willing(a).add)
  }

  ghost predicate NoneReturns(cfg: Config, key: Address -> Key, trusted: map<Address, TrustedRow>, ranking: seq<Peer>,
                              knocked: set<Address>, reachable: Address -> bool, score: Address -> real,
                              willing: Address -> Willing)
  {
    forall a :: a in knocked ==> !Returns(cfg, key, trusted, ranking, a, reachable, score, willing)
  }

  lemma OneMoreReturns(cfg: Config, key: Address -> Key, trusted: map<Address, TrustedRow>, ranking: seq<Peer>,
                       knocked: set<Address>, a: Address, reachable: Address -> bool, score: Address -> real,
                       willing: Address -> Willing)
    ensures NoneReturns(cfg, key, trusted, ranking, knocked + {a}, reachable, score, willing) <==>
      NoneReturns(cfg, key, trusted, ranking, knocked, reachable, score, willing)
      && !Returns(cfg, key, trusted, ranking, a, reachable, score, willing)
  {
  }

  // Best first in the ranking, best first among the candidates.
  ghost predicate BestFirst(peers: seq<Peer>) {
    forall i, j :: 0 <= i < j < |peers| ==> peers[i].score.GetOr(-1.0) >= peers[j].score.GetOr(-1.0)
  }

  lemma {:induction false} CandidatesBestFirst(cfg: Config, ranking: seq<Peer>)
    requires BestFirst(ranking)
    ensures BestFirst(Candidates(cfg, ranking))
  {
    if |ranking| > 0 {
      var all, rest := Candidates(cfg, ranking), Candidates(cfg, ranking[1..]);
      CandidatesBestFirst(cfg, ranking[1..]);
      forall j | 0 <= j < |rest| ensures ranking[0].score.GetOr(-1.0) >= rest[j].score.GetOr(-1.0) {
        assert rest[j] in ranking[1..];
        var k :| 0 < k < |ranking| && ranking[k] == rest[j];
      }
    }
  }

  // The newcomer has no star unless its row had one; whoever makes room has no row,
  // and is parked exactly if it is gone and has a record.
  ghost predicate ComesIn(was: Tables, later: Tables, a: Address, out: Option<Peer>, now: int) {
    && a in later.trusted && a in later.peers && a !in later.parked
    && (if a in was.trusted
        then later.trusted[a].kept == was.trusted[a].kept && later.trusted[a].createdAt == was.trusted[a].createdAt
        else !later.trusted[a].kept && later.trusted[a].createdAt == now)
    && (out.Some? ==> out.value.address !in later.trusted)
    && (forall b :: b != a ==>
          (b in later.parked <==>
             b in was.parked || (Goes(out, b) && out.value.link == Offline && out.value.eligible > 0 && b != "")))
  }

  lemma PlainAddComesIn(was: Tables, later: Tables, request: Request, out: Option<Peer>, now: int)
    requires RowsMoved(was, later, request, out, now) && ParkedMoved(was, later, request, out, now)
    requires !request.options.kept && (out.Some? && out.value.link == Offline ==> request.options.parkEvicted)
    requires out.Some? ==> out.value.address != request.address
    ensures ComesIn(was, later, request.address, out, now)
  {
    forall b | b != request.address
      ensures b in later.parked <==>
        b in was.parked || (Goes(out, b) && out.value.link == Offline && out.value.eligible > 0 && b != "")
    {
      if GetsParked(request, out, b) { assert b in later.parked; }
    }
  }

  lemma PromotedComesIn(was: Tables, later: Tables, candidate: Peer, out: Option<Peer>, now: int)
    requires Promoted(was, later, candidate, out, now) && (out.Some? ==> out.value.address != candidate.address)
    ensures ComesIn(was, later, candidate.address, out, now)
  {
    var replace :| later == ManualPeers.RowsAfter(was, PromotionOf(candidate, replace), out, now)
                   && (out.Some? ==> out == replace);
    var request := PromotionOf(candidate, replace);
    RowsAfterMoves(was, request, out, now);
    RowsAfterParks(was, request, out, now);
    PlainAddComesIn(was, later, request, out, now);
  }

  lemma ReturnedComesIn(was: Tables, later: Tables, a: Address, row: ParkedRow, replace: Option<Peer>, out: Option<Peer>,
                        now: int)
    requires later == ManualPeers.RowsAfter(was, ComingBack(a, row, replace), out, now)
    requires out.Some? ==> out == replace && out.value.address != a
    ensures ComesIn(was, later, a, out, now)
    ensures later.trusted[a].caption == if row.caption.Some? then row.caption else Some("back from parking")
  {
    var request := ComingBack(a, row, replace);
    RowsAfterMoves(was, request, out, now);
    RowsAfterParks(was, request, out, now);
    PlainAddComesIn(was, later, request, out, now);
  }

  lemma WeakestIsBeatenIff(cfg: Config, ranking: seq<Peer>, score: Option<real>)
    ensures var weakest := WeakestTrustedPeer(EvictableTrusted(TrustedOf(ranking)));
      weakest.Some? && BeatsHolder(cfg, score, weakest.value.score) <==> BeatsSomeHolder(cfg, ranking, score)
  {
    var able := EvictableTrusted(TrustedOf(ranking));
    assert forall h :: h in able <==> h in ranking && h.trusted && !h.kept && !h.withinNewManualGrace;
  }

  // parked_peer after a revival pass: `done` have been knocked on.
  ghost predicate Visited(kept: Parked, after: Parked, done: set<Address>, reachable: Address -> bool,
                          joined: Option<Address>, out: Option<Peer>, now: int)
  {
    && (forall a :: a in kept && joined != Some(a) && !Parks(out, a) ==>
          a in after && after[a] == if a in done then Stamped(kept[a], reachable(a), now) else kept[a])
    && (forall a :: a in kept && joined != Some(a) ==> a in after)
    && (forall a :: a in after ==> a in kept || Parks(out, a))
    && (joined.Some? ==> joined.value in done && joined.value in kept && reachable(joined.value)
                         && joined.value !in after && !IsOut(out, joined.value))
    && (joined.None? ==> out.None?)
    && (out.Some? && Parks(out, out.value.address) ==> out.value.address in after)
  }

  // The displaced peer is gone and has a record, so it is parked.
  predicate Parks(out: Option<Peer>, a: Address) {
    IsOut(out, a) && !out.value.Live() && out.value.eligible > 0 && a != ""
  }

  // The write transaction let it in, and an add of a row that was there already
  // displaces nobody.
  ghost predicate HadRoom(cfg: Config, trusted: map<Address, TrustedRow>, address: Address, out: Option<Peer>) {
    Fits(cfg.maxManualPeers, trusted, address, out) && (address in trusted ==> out.None?)
  }

  datatype Verdict = PassedOver | TurnedAway | Joined

  // The rows are those of an add of this candidate, displacing whom it said.
  ghost predicate Promoted(before: Tables, after: Tables, candidate: Peer, out: Option<Peer>, now: int) {
    exists replace ::
      after == ManualPeers.RowsAfter(before, PromotionOf(candidate, replace), out, now) && (out.Some? ==> out == replace)
  }

  // No candidate beats any holder that may be displaced by more than the margin.
  ghost predicate Settled(cfg: Config, ranking: seq<Peer>) {
    forall c, h :: c in Candidates(cfg, ranking) && h in EvictableTrusted(TrustedOf(ranking)) ==>
      !BeatsHolder(cfg, c.score, h.score)
  }

  // Passed over without a call: no slot is free, and it does not beat the weakest.
  ghost predicate PassesOver(cfg: Config, ranking: seq<Peer>, candidate: Peer) {
    var weakest := WeakestTrustedPeer(EvictableTrusted(TrustedOf(ranking)));
    |TrustedOf(ranking)| >= cfg.maxManualPeers && (weakest.Some? ==> !BeatsHolder(cfg, candidate.score, weakest.value.score))
  }

  ghost function LeftOut(cfg: Config, ranking: seq<Peer>): Peer -> bool { p => PassesOver(cfg, ranking, p) }

  // Let in as an add that had room, displacing at most the weakest, which it beats.
  ghost predicate LetInFor(cfg: Config, ranking: seq<Peer>, was: Tables, later: Tables, candidate: Peer, out: Option<Peer>,
                           now: int)
  {
    && Promoted(was, later, candidate, out, now)
    && HadRoom(cfg, was.trusted, candidate.address, out)
    && (out.Some? ==>
          && out == WeakestTrustedPeer(EvictableTrusted(TrustedOf(ranking)))
          && BeatsHolder(cfg, candidate.score, out.value.score) && out.value.address != candidate.address)
  }

  ghost predicate AllOf(holds: Peer -> bool, list: seq<Peer>, n: nat)
    requires n <= |list|
  {
    forall k :: 0 <= k < n ==> holds(list[k])
  }

  lemma NobodyBeats(cfg: Config, ranking: seq<Peer>, candidates: seq<Peer>)
    requires candidates == Candidates(cfg, ranking) && AllOf(LeftOut(cfg, ranking), candidates, |candidates|)
    ensures Settled(cfg, ranking)
    ensures |TrustedOf(ranking)| < cfg.maxManualPeers ==> candidates == []
  {
    var weakest := WeakestTrustedPeer(EvictableTrusted(TrustedOf(ranking)));
    forall c, h | c in Candidates(cfg, ranking) && h in EvictableTrusted(TrustedOf(ranking))
      ensures !BeatsHolder(cfg, c.score, h.score)
    {
      assert PassesOver(cfg, ranking, c);
      assert Worth(weakest.value.score) <= Worth(h.score);
    }
    if candidates != [] { assert PassesOver(cfg, ranking, candidates[0]); }
  }

  predicate IsOut(out: Option<Peer>, a: Address) { out.Some? && out.value.address == a }

  function WithStamp(parked: Parked, a: Address, answered: bool, now: int): Parked {
    if a in parked then parked[a := Stamped(parked[a], answered, now)] else parked
  }

  lemma StampVisits(kept: Parked, before: Parked, done: set<Address>, reachable: Address -> bool,
                    joined: Option<Address>, out: Option<Peer>, now: int, a: Address)
    requires Visited(kept, before, done, reachable, joined, out, now) && a in kept && a !in done
    ensures Visited(kept, WithStamp(before, a, reachable(a), now), done + {a}, reachable, joined, out, now)
  {
  }

  lemma JoinVisits(kept: Parked, t: Tables, done: set<Address>, reachable: Address -> bool, row: ParkedRow,
                   replace: Option<Peer>, out: Option<Peer>, now: int, a: Address)
    requires Visited(kept, t.parked, done, reachable, None, None, now) && a in kept && a !in done && reachable(a)
    requires out.Some? ==> out == replace && out.value.address != a
    ensures Visited(kept, ManualPeers.RowsAfter(t, ComingBack(a, row, replace), out, now).parked, done + {a}, reachable,
                    Some(a), out, now)
  {
    var after := ManualPeers.RowsAfter(t, ComingBack(a, row, replace), out, now).parked;
    JoinParks(t, a, row, replace, out, now);
    TakenOutVisits(kept, t.parked, after, done, reachable, out, now, a);
  }

  // What an add that brings a parked peer back leaves in parked_peer.
  ghost predicate TakenOut(before: Parked, after: Parked, a: Address, out: Option<Peer>) {
    && a !in after
    && (forall b :: b in before && b != a ==> b in after && (Parks(out, b) || after[b] == before[b]))
    && (forall b :: b in after ==> b in before || Parks(out, b))
    && (out.Some? && Parks(out, out.value.address) ==> out.value.address in after)
  }

  lemma JoinParks(t: Tables, a: Address, row: ParkedRow, replace: Option<Peer>, out: Option<Peer>, now: int)
    requires out.Some? ==> out == replace && out.value.address != a
    ensures TakenOut(t.parked, ManualPeers.RowsAfter(t, ComingBack(a, row, replace), out, now).parked, a, out)
  {
  }

  lemma TakenOutVisits(kept: Parked, before: Parked, after: Parked, done: set<Address>, reachable: Address -> bool,
                       out: Option<Peer>, now: int, a: Address)
    requires Visited(kept, before, done, reachable, None, None, now) && a in kept && a !in done && reachable(a)
    requires TakenOut(before, after, a, out) && !IsOut(out, a)
    ensures Visited(kept, after, done + {a}, reachable, Some(a), out, now)
  {
  }

  class Rotation {
    const cfg: Config
    const manual: ManualPeers

    constructor (cfg: Config, manual: ManualPeers)
      requires manual.max == cfg.maxManualPeers
      ensures this.cfg == cfg && this.manual == manual
    {
      this.cfg, this.manual := cfg, manual;
    }

    // An add that may displace exactly the peer it is given, or nobody.
    method LetIn(request: Request, ranking: seq<Peer>, willing: Willing, now: int) returns (ok: bool, evicted: Option<Peer>)
      requires manual.max == cfg.maxManualPeers && !request.options.evictToFit
      modifies manual
      ensures !ok ==> evicted.None? && manual.Rows() == old(manual.Rows())
      ensures ok ==> manual.Rows() == ManualPeers.RowsAfter(old(manual.Rows()), request, evicted, now)
      ensures evicted.Some? ==> evicted == request.options.replace && evicted.value.address != request.address
      ensures ok ==> HadRoom(cfg, old(manual.trusted), request.address, evicted)
      ensures ok ==> RowsMoved(old(manual.Rows()), manual.Rows(), request, evicted, now)
                     && ParkedMoved(old(manual.Rows()), manual.Rows(), request, evicted, now)
      ensures DistinctKeys(old(manual.trusted), manual.key) ==>
        (ok <==> Admits(manual.max, manual.key, old(manual.trusted), request, ranking) && willing.add)
    {
      var result := manual.AddTrustedPeer(request, ranking, willing, now);
      if result.NotOk? { return false, None; }
      return true, result.evicted;
    }

    method PromoteBestCandidate(ranking: seq<Peer>, willing: Address -> Willing, now: int)
      returns (joined: Option<Peer>, evicted: Option<Peer>, refusals: nat)
      requires manual.max == cfg.maxManualPeers
      modifies manual
      ensures joined.None? ==> evicted.None? && manual.Rows() == old(manual.Rows())
      ensures joined.Some? ==>
        && joined.value in Candidates(cfg, ranking)
        && Promoted(old(manual.Rows()), manual.Rows(), joined.value, evicted, now)
      ensures evicted.Some? ==>
        && evicted == WeakestTrustedPeer(EvictableTrusted(TrustedOf(ranking)))
        && BeatsHolder(cfg, joined.value.score, evicted.value.score) && evicted.value.address != joined.value.address
      ensures joined.Some? ==> HadRoom(cfg, old(manual.trusted), joined.value.address, evicted)
      // A fixed point: with the slots full and nothing refused, nobody left out
      // is better than anybody who could be displaced by more than the margin.
      ensures joined.None? && refusals == 0 && |TrustedOf(ranking)| >= cfg.maxManualPeers ==> Settled(cfg, ranking)
      ensures joined.None? && refusals == 0 && |TrustedOf(ranking)| < cfg.maxManualPeers ==> Candidates(cfg, ranking) == []
      // The first candidate that can come in does; on a ranking sorted by score no
      // better one could have.
      ensures InStep(manual.key, old(manual.trusted), ranking) ==>
        FirstEnters(Entrants(cfg, manual.key, old(manual.trusted), ranking, willing), Candidates(cfg, ranking), joined)
      ensures BestFirst(ranking) ==> BestFirst(Candidates(cfg, ranking))
      ensures joined.Some? ==> ComesIn(old(manual.Rows()), manual.Rows(), joined.value.address, evicted, now)
    {
      ghost var was := manual.Rows();
      if BestFirst(ranking) { CandidatesBestFirst(cfg, ranking); }
      var trusted := TrustedOf(ranking);
      var candidates := Candidates(cfg, ranking);
      ghost var enters := Entrants(cfg, manual.key, manual.trusted, ranking, willing);
      joined, evicted, refusals := ConsiderAll(candidates, trusted, ranking, willing, now, enters, LeftOut(cfg, ranking));
      if joined.None? && refusals == 0 { NobodyBeats(cfg, ranking, candidates); }
      if joined.Some? { PromotedComesIn(was, manual.Rows(), joined.value, evicted, now); }
    }

    method ConsiderAll(candidates: seq<Peer>, trusted: seq<Peer>, ranking: seq<Peer>, willing: Address -> Willing, now: int,
                       ghost enters: Peer -> bool, ghost passed: Peer -> bool)
      returns (joined: Option<Peer>, evicted: Option<Peer>, refusals: nat)
      requires manual.max == cfg.maxManualPeers && trusted == TrustedOf(ranking)
      requires enters == Entrants(cfg, manual.key, manual.trusted, ranking, willing) && passed == LeftOut(cfg, ranking)
      modifies manual
      ensures joined.None? ==> evicted.None? && manual.Rows() == old(manual.Rows())
      ensures joined.Some? ==>
        && joined.value in candidates
        && LetInFor(cfg, ranking, old(manual.Rows()), manual.Rows(), joined.value, evicted, now)
      ensures joined.None? && refusals == 0 ==> AllOf(passed, candidates, |candidates|)
      ensures InStep(manual.key, old(manual.trusted), ranking) ==> FirstEnters(enters, candidates, joined)
    {
      joined, evicted, refusals := None, None, 0;
      ghost var rows := manual.trusted;
      ghost var inStep := InStep(manual.key, rows, ranking);
      var i := 0;
      while i < |candidates|
        invariant 0 <= i <= |candidates| && joined.None? && evicted.None?
        invariant manual.Rows() == old(manual.Rows())
        invariant refusals == 0 ==> AllOf(passed, candidates, i)
        invariant inStep ==> NoneEnters(enters, candidates, i)
      {
        if inStep { NextEntersOrNot(enters, candidates, i); }
        var candidate := candidates[i];
        i := i + 1;
        var verdict, out := Consider(candidate, trusted, ranking, willing, now, enters, passed);
        match verdict
        case PassedOver =>
        case TurnedAway => refusals := refusals + 1;
        case Joined => return Some(candidate), out, refusals;
      }
    }

    // One turn of the loop over the candidates.
    method Consider(candidate: Peer, trusted: seq<Peer>, ranking: seq<Peer>, willing: Address -> Willing, now: int,
                    ghost enters: Peer -> bool, ghost passed: Peer -> bool)
      returns (verdict: Verdict, out: Option<Peer>)
      requires manual.max == cfg.maxManualPeers && trusted == TrustedOf(ranking)
      requires enters == Entrants(cfg, manual.key, manual.trusted, ranking, willing) && passed == LeftOut(cfg, ranking)
      modifies manual
      ensures !verdict.Joined? ==> out.None? && manual.Rows() == old(manual.Rows())
      ensures verdict.PassedOver? ==> passed(candidate)
      ensures verdict.Joined? ==> LetInFor(cfg, ranking, old(manual.Rows()), manual.Rows(), candidate, out, now)
      ensures InStep(manual.key, old(manual.trusted), ranking) ==> (verdict.Joined? <==> enters(candidate))
    {
      var may := willing(candidate.address);
      WeakestIsBeatenIff(cfg, ranking, candidate.score);
      if |trusted| < cfg.maxManualPeers {
        var ok, _ := LetIn(PromotionOf(candidate, None), ranking, may, now);
        if !ok { return TurnedAway, None; }
        return Joined, None;
      }
      var weakest := WeakestTrustedPeer(EvictableTrusted(trusted));
      if weakest.None? || !BeatsHolder(cfg, candidate.score, weakest.value.score) { return PassedOver, None; }
      var swapped, gone := LetIn(PromotionOf(candidate, weakest), ranking, may, now);
      if !swapped { return TurnedAway, None; }
      return Joined, gone;
    }

    method RetireOfflineManualPeers(ranking: seq<Peer>, willing: Address -> bool, now: int, parkedAt: Address -> int)
      returns (retired: nat)
      modifies manual
      ensures manual.Rows() == RetireAll(old(manual.Rows()), Retirees(cfg, ranking, now), parkedAt)
      ensures retired == |Retirees(cfg, ranking, now)|
      // Whoever is overdue loses the slot and nobody else does; with a record it is
      // parked, at its own reading of the clock.
      ensures RetiresTheOverdue(cfg, ranking, now, parkedAt, old(manual.Rows()), manual.Rows())
    {
      var gone := Retirees(cfg, ranking, now);
      OverdueGo(cfg, ranking, now, parkedAt, manual.Rows());
      RetireEach(gone, willing, parkedAt);
      retired := |gone|;
    }

    method RetireEach(gone: seq<Peer>, willing: Address -> bool, parkedAt: Address -> int)
      modifies manual
      ensures manual.Rows() == RetireAll(old(manual.Rows()), gone, parkedAt)
    {
      var i := 0;
      while i < |gone|
        invariant 0 <= i <= |gone|
        invariant RetireAll(old(manual.Rows()), gone, parkedAt) == RetireAll(manual.Rows(), gone[i..], parkedAt)
      {
        var p := gone[i];
        assert gone[i..][1..] == gone[i + 1..];
        ghost var before := manual.Rows();
        manual.RemoveTrustedPeer(p.address, willing(p.address), parkedAt(p.address));
        var _ := manual.ParkPeer(p, parkedAt(p.address));
        assert manual.Rows() == RetireOne(before, p, parkedAt);
        i := i + 1;
      }
    }

    // SELECT ... FROM parked_peer ORDER BY last_probe_at IS NOT NULL, last_probe_at ASC
    method ProbeOrder() returns (order: seq<Address>)
      ensures IsProbeOrder(order, manual.parked)
    {
      var parked := manual.parked;
      order := [];
      var todo := parked.Keys;
      while todo != {}
        invariant todo <= parked.Keys
        invariant forall a :: a in order <==> a in parked && a !in todo
        invariant forall i, j :: 0 <= i < j < |order| ==> order[i] != order[j]
        invariant forall i, j :: 0 <= i < j < |order| ==> NotAfter(parked[order[i]], parked[order[j]])
        invariant forall a, b :: a in order && b in todo ==> NotAfter(parked[a], parked[b])
      {
        var next :| next in todo;
        var rest := todo - {next};
        while rest != {}
          invariant next in todo && rest <= todo
          invariant forall b :: b in todo && b !in rest ==> NotAfter(parked[next], parked[b])
        {
          var b :| b in rest;
          rest := rest - {b};
          if !NotAfter(parked[next], parked[b]) { next := b; }
        }
        order := order + [next];
        todo := todo - {next};
      }
    }

    method ForgetExpired(now: int)
      modifies manual`parked
      ensures manual.parked == Retained(cfg, old(manual.parked), now)
    {
      manual.parked := Retained(cfg, manual.parked, now);
    }

    method Stamp(address: Address, answered: bool, now: int)
      modifies manual`parked
      ensures manual.parked == if address in old(manual.parked)
        then old(manual.parked)[address := Stamped(old(manual.parked)[address], answered, now)] else old(manual.parked)
    {
      if address in manual.parked {
        manual.parked := manual.parked[address := Stamped(manual.parked[address], answered, now)];
      }
    }

    // One parked peer that is due: knock, and let it in if it answers, nobody
    // else came in this tick, and it beats whoever would have to leave.
    method Knock(address: Address, row: ParkedRow, answered: bool, mayJoin: bool, score: real, ranking: seq<Peer>,
                 willing: Willing, now: int) returns (joined: bool, out: Option<Peer>)
      requires manual.max == cfg.maxManualPeers
      modifies manual
      ensures joined ==> answered && mayJoin
      ensures !joined ==> out.None? && manual.Rows() == old(manual.Rows()).(parked := WithStamp(old(manual.parked), address, answered, now))
      ensures joined ==> exists replace ::
        && manual.Rows() == ManualPeers.RowsAfter(old(manual.Rows()), ComingBack(address, row, replace), out, now)
        && (out.Some? ==> out == replace && out.value.address != address)
      ensures out.Some? ==>
        && out == WeakestTrustedPeer(EvictableTrusted(TrustedOf(ranking)))
        && BeatsHolder(cfg, Some(score), out.value.score)
      ensures joined ==> HadRoom(cfg, old(manual.trusted), address, out)
      ensures InStep(manual.key, old(manual.trusted), ranking) ==>
        (joined <==> answered && mayJoin
                     && CanEnter(cfg, manual.key, old(manual.trusted), ranking, address, Some(score), willing.add))
      ensures joined ==> ComesIn(old(manual.Rows()), manual.Rows(), address, out, now)
    {
      ghost var was := manual.Rows();
      WeakestIsBeatenIff(cfg, ranking, Some(score));
      if !answered || !mayJoin {
        Stamp(address, answered, now);
        return false, None;
      }
      var replace: Option<Peer> := None;
      if |TrustedOf(ranking)| >= cfg.maxManualPeers {
        var weakest := WeakestTrustedPeer(EvictableTrusted(TrustedOf(ranking)));
        if weakest.None? || !BeatsHolder(cfg, Some(score), weakest.value.score) {
          Stamp(address, true, now);
          return false, None;
        }
        replace := weakest;
      }
      var ok, evicted := LetIn(ComingBack(address, row, replace), ranking, willing, now);
      if !ok {
        Stamp(address, true, now);
        return false, None;
      }
      ReturnedComesIn(was, manual.Rows(), address, row, replace, evicted, now);
      return true, evicted;
    }

    method KnockOnAll(candidates: seq<Address>, ranking: seq<Peer>, reachable: Address -> bool, score: Address -> real,
                      willing: Address -> Willing, now: int)
      returns (joined: Option<Address>, out: Option<Peer>)
      requires manual.max == cfg.maxManualPeers
      requires forall a :: a in candidates ==> a in manual.parked
      requires forall i, j :: 0 <= i < j < |candidates| ==> candidates[i] != candidates[j]
      modifies manual
      ensures Visited(old(manual.parked), manual.parked, Firsts(candidates, |candidates|), reachable, joined, out, now)
      ensures CameIn(cfg, old(manual.Rows()), manual.Rows(), ranking, score, joined, out)
      ensures InStep(manual.key, old(manual.trusted), ranking) ==>
        (joined.None? <==>
           NoneReturns(cfg, manual.key, old(manual.trusted), ranking, Firsts(candidates, |candidates|), reachable, score, willing))
    {
      var parked := manual.parked;
      ghost var was := manual.Rows();
      joined, out := None, None;
      var i := 0;
      while i < |candidates|
        invariant 0 <= i <= |candidates|
        invariant Visited(was.parked, manual.parked, Firsts(candidates, i), reachable, joined, out, now)
        invariant CameIn(cfg, was, manual.Rows(), ranking, score, joined, out)
        invariant InStep(manual.key, was.trusted, ranking) ==>
          (joined.None? <==>
             NoneReturns(cfg, manual.key, was.trusted, ranking, Firsts(candidates, i), reachable, score, willing))
      {
        var a := candidates[i];
        OneMoreFirst(candidates, i);
        NotAmongFirsts(candidates, i);
        OneMoreReturns(cfg, manual.key, was.trusted, ranking, Firsts(candidates, i), a, reachable, score, willing);
        ghost var before := manual.Rows();
        var came, left := Knock(a, parked[a], reachable(a), joined.None?, score(a), ranking, willing(a), now);
        if came {
          Joins(cfg, was, before, manual.Rows(), Firsts(candidates, i), reachable, ranking, score, left, now, a);
          joined, out := Some(a), left;
        } else {
          StampVisits(was.parked, before.parked, Firsts(candidates, i), reachable, joined, out, now, a);
        }
        i := i + 1;
      }
    }

    method ReviveParkedPeers(ranking: seq<Peer>, viaProxy: bool, reachable: Address -> bool, score: Address -> real,
                             willing: Address -> Willing, now: int)
      returns (joined: Option<Address>, out: Option<Peer>, ghost order: seq<Address>)
      requires manual.max == cfg.maxManualPeers
      modifies manual
      ensures var kept := Retained(cfg, old(manual.parked), now);
        && IsProbeOrder(order, kept)
        && Visited(kept, manual.parked, KnockedOn(cfg, kept, order, viaProxy, now), reachable, joined, out, now)
      ensures CameIn(cfg, old(manual.Rows()), manual.Rows(), ranking, score, joined, out)
      // Somebody comes back whenever somebody knocked on answers and could.
      ensures InStep(manual.key, old(manual.trusted), ranking) ==>
        (joined.None? <==>
           NoneReturns(cfg, manual.key, old(manual.trusted), ranking,
                       KnockedOn(cfg, Retained(cfg, old(manual.parked), now), order, viaProxy, now), reachable, score, willing))
    {
      ForgetExpired(now);
      var rows := ProbeOrder();
      order := rows;
      var due := DueSet(cfg, manual.parked, now);
      var candidates := Probed(cfg.parkedPeerProbesPerTick, rows, due);
      if viaProxy { return None, None, order; }
      ProbedAreDistinct(cfg.parkedPeerProbesPerTick, rows, due);
      AllFirst(candidates);
      joined, out := KnockOnAll(candidates, ranking, reachable, score, willing, now);
    }

    // One tick. `rank` is the ranking as the tables stand; the snapshot the
    // later passes use is taken again only if the first one retired somebody.
    method Tick(enabled: bool, rank: Tables -> seq<Peer>, viaProxy: bool, reachable: Address -> bool,
                score: Address -> real, willing: Address -> Willing, times: Times)
      returns (joined: Option<Address>, out: Option<Peer>, ghost order: seq<Address>)
      requires manual.max == cfg.maxManualPeers
      modifies manual
      ensures !enabled ==> manual.Rows() == old(manual.Rows())
      ensures enabled ==>
        TickKeeps(cfg, Retirees(cfg, rank(old(manual.Rows())), times.retire), times, old(manual.Rows()), manual.Rows(), joined, out)
      // Once the offline are gone, what happens is one entry at most, decided on
      // the ranking of the tables as they then stand.
      ensures enabled ==>
        var retired := RetireAll(old(manual.Rows()), Retirees(cfg, rank(old(manual.Rows())), times.retire), times.parkedAt);
        Entered(cfg, retired, manual.Rows(), rank(retired), score, joined, out)
      // Those who lost the slot are the overdue.
      ensures enabled ==> ThroughTheOverdue(cfg, rank(old(manual.Rows())), times, old(manual.Rows()), manual.Rows(), joined, out)
      // Whoever was due has been knocked on, and nobody who could come in is passed
      // over for nobody.
      ensures enabled ==>
        var retired := RetireAll(old(manual.Rows()), Retirees(cfg, rank(old(manual.Rows())), times.retire), times.parkedAt);
        && StampsKnocked(cfg, retired.parked, manual.parked, order, viaProxy, reachable, joined, out, times.revive)
        && TriesEverybody(cfg, manual.key, retired, rank(retired), order, viaProxy, reachable, score, willing, times.revive, joined)
    {
      joined, out, order := None, None, [];
      if !enabled { return; }
      ghost var start := manual.Rows();
      var ranking := rank(manual.Rows());
      ghost var gone := Retirees(cfg, ranking, times.retire);
      var retired := RetireOfflineManualPeers(ranking, a => willing(a).evict, times.retire, times.parkedAt);
      ghost var between := manual.Rows();
      if retired > 0 { ranking := rank(manual.Rows()); }
      joined, out, order := ReviveOrPromote(ranking, viaProxy, reachable, score, willing, times.revive, times.promote);
      TickKept(cfg, gone, times, start, between, manual.Rows(), ranking, score, order, viaProxy, reachable, joined, out);
      OverdueGo(cfg, rank(start), times.retire, times.parkedAt, start);
      EntrantAndOverdue(cfg, rank(start), times, start, between, manual.Rows(), ranking, score, joined, out);
    }

    // A promotion only if nobody came back.
    method ReviveOrPromote(ranking: seq<Peer>, viaProxy: bool, reachable: Address -> bool, score: Address -> real,
                           willing: Address -> Willing, revive: int, promote: int)
      returns (joined: Option<Address>, out: Option<Peer>, ghost order: seq<Address>)
      requires manual.max == cfg.maxManualPeers
      modifies manual
      ensures Entered(cfg, old(manual.Rows()), manual.Rows(), ranking, score, joined, out)
      ensures StampsKnocked(cfg, old(manual.parked), manual.parked, order, viaProxy, reachable, joined, out, revive)
      ensures TriesEverybody(cfg, manual.key, old(manual.Rows()), ranking, order, viaProxy, reachable, score, willing, revive, joined)
    {
      ghost var was := manual.Rows();
      joined, out, order := ReviveParkedPeers(ranking, viaProxy, reachable, score, willing, revive);
      RevivedEntered(cfg, was, manual.Rows(), ranking, score, order, viaProxy, reachable, joined, out, revive);
      VisitedIsStamped(cfg, was.parked, manual.parked, order, viaProxy, reachable, joined, out, revive);
      if joined.None? {
        ghost var before := manual.Rows();
        var candidate, evicted, _ := PromoteBestCandidate(ranking, willing, promote);
        if candidate.Some? {
          PromotedEntered(cfg, was, before, manual.Rows(), ranking, score, candidate.value, evicted, promote);
          PromotionStamps(cfg, was.parked, before, manual.Rows(), order, viaProxy, reachable, candidate.value, evicted,
                          revive, promote);
          joined, out := Some(candidate.value.address), evicted;
        } else if InStep(manual.key, was.trusted, ranking) {
          NobodyToEnter(cfg, manual.key, was.trusted, ranking, willing);
        }
      }
    }
  }

  // The score a challenger is let in on: a parked peer's, or a candidate's own.
  ghost predicate Offers(cfg: Config, was: Tables, ranking: seq<Peer>, score: Address -> real, a: Address, s: Option<real>) {
    || (a in was.parked && s == Some(score(a)))
    || (exists c :: c in Candidates(cfg, ranking) && c.address == a && s == c.score)
  }

  ghost predicate Challenges(cfg: Config, was: Tables, ranking: seq<Peer>, score: Address -> real, a: Address, out: Peer) {
    exists s :: Offers(cfg, was, ranking, score, a, s) && BeatsHolder(cfg, s, out.score)
  }

  // Nobody came in, or one peer did, into a free slot or the slot of the weakest
  // holder that may be displaced, which it beats.
  ghost predicate Entered(cfg: Config, was: Tables, later: Tables, ranking: seq<Peer>, score: Address -> real,
                          joined: Option<Address>, out: Option<Peer>)
  {
    match joined
    case None => out.None? && later.trusted.Keys == was.trusted.Keys
    case Some(a) =>
      && later.trusted.Keys == was.trusted.Keys + {a} - Leaving(out)
      && HadRoom(cfg, was.trusted, a, out)
      && (a in was.parked || exists c :: c in Candidates(cfg, ranking) && c.address == a)
      && (out.Some? ==> out.value.address != a && out == WeakestTrustedPeer(EvictableTrusted(TrustedOf(ranking)))
                        && Challenges(cfg, was, ranking, score, a, out.value))
  }

  lemma RevivedEntered(cfg: Config, was: Tables, later: Tables, ranking: seq<Peer>, score: Address -> real, order: seq<Address>,
                       viaProxy: bool, reachable: Address -> bool, joined: Option<Address>, out: Option<Peer>, now: int)
    requires var kept := Retained(cfg, was.parked, now);
      Visited(kept, later.parked, KnockedOn(cfg, kept, order, viaProxy, now), reachable, joined, out, now)
    requires CameIn(cfg, was, later, ranking, score, joined, out)
    ensures Entered(cfg, was, later, ranking, score, joined, out)
  {
    if out.Some? { assert Offers(cfg, was, ranking, score, joined.value, Some(score(joined.value))); }
  }

  lemma PromotedEntered(cfg: Config, was: Tables, before: Tables, later: Tables, ranking: seq<Peer>, score: Address -> real,
                        candidate: Peer, out: Option<Peer>, now: int)
    requires before.trusted == was.trusted && candidate in Candidates(cfg, ranking)
    requires Promoted(before, later, candidate, out, now) && HadRoom(cfg, before.trusted, candidate.address, out)
    requires out.Some? ==>
      && out == WeakestTrustedPeer(EvictableTrusted(TrustedOf(ranking)))
      && BeatsHolder(cfg, candidate.score, out.value.score) && out.value.address != candidate.address
    ensures Entered(cfg, was, later, ranking, score, Some(candidate.address), out)
  {
    var replace :| later == ManualPeers.RowsAfter(before, PromotionOf(candidate, replace), out, now)
                   && (out.Some? ==> out == replace);
    JoinKeys(before, PromotionOf(candidate, replace), out, now);
    assert Offers(cfg, was, ranking, score, candidate.address, candidate.score);
  }

  // A snapshot taken inside the step: it tells rows from candidates, and its
  // scores are the ones the tables give.
  ghost predicate IsSnapshot(ranking: seq<Peer>, trusted: map<Address, TrustedRow>, score: Scores) {
    forall p :: p in ranking ==> (p.trusted <==> p.address in trusted) && p.score == score(p.address)
  }

  function MoveOf(a: Address, out: Option<Peer>): Move {
    if out.Some? then Displace(a, out.value.address) else Fill(a)
  }

  lemma JoinIsAMove(cfg: Config, trusted: map<Address, TrustedRow>, keys: set<Address>, ranking: seq<Peer>, scores: Scores,
                    a: Address, out: Option<Peer>)
    requires IsSnapshot(ranking, trusted, scores) && a !in trusted
    requires HadRoom(cfg, trusted, a, out) && keys == trusted.Keys + {a} - Leaving(out)
    requires out.Some? ==>
      out.value in TrustedOf(ranking) && out.value.address != a && BeatsHolder(cfg, scores(a), out.value.score)
    ensures Allowed(cfg, scores, trusted.Keys, MoveOf(a, out)) && keys == After(trusted.Keys, MoveOf(a, out))
  {
    match out
    case Some(p) =>
      TrustedIsARow(ranking, trusted, scores, p);
      SwapIsAMove(cfg, trusted.Keys, scores, a, p.address);
    case None =>
      assert |trusted| == |trusted.Keys|;
      FillIsAMove(cfg, trusted.Keys, scores, a);
  }

  lemma SwapIsAMove(cfg: Config, holders: set<Address>, scores: Scores, a: Address, leaves: Address)
    requires a !in holders && leaves in holders && BeatsHolder(cfg, scores(a), scores(leaves))
    ensures Allowed(cfg, scores, holders, Displace(a, leaves))
    ensures After(holders, Displace(a, leaves)) == holders + {a} - {leaves}
  {
  }

  lemma FillIsAMove(cfg: Config, holders: set<Address>, scores: Scores, a: Address)
    requires a !in holders && |holders| < cfg.maxManualPeers
    ensures Allowed(cfg, scores, holders, Fill(a)) && After(holders, Fill(a)) == holders + {a} - {}
  {
  }

  lemma TrustedIsARow(ranking: seq<Peer>, trusted: map<Address, TrustedRow>, scores: Scores, p: Peer)
    requires IsSnapshot(ranking, trusted, scores) && p in TrustedOf(ranking)
    ensures p.address in trusted && p.score == scores(p.address)
  {
  }

  // Every join by the rotation is one of the moves whose runs terminate.
  lemma RevivalIsAMove(cfg: Config, was: Tables, later: Tables, ranking: seq<Peer>, score: Address -> real, scores: Scores,
                       a: Address, out: Option<Peer>)
    requires CameIn(cfg, was, later, ranking, score, Some(a), out) && a !in was.trusted
    requires IsSnapshot(ranking, was.trusted, scores) && scores(a) == Some(score(a))
    ensures Allowed(cfg, scores, was.trusted.Keys, MoveOf(a, out))
    ensures later.trusted.Keys == After(was.trusted.Keys, MoveOf(a, out))
  {
    JoinIsAMove(cfg, was.trusted, later.trusted.Keys, ranking, scores, a, out);
  }

  lemma PromotionIsAMove(cfg: Config, was: Tables, later: Tables, ranking: seq<Peer>, scores: Scores, candidate: Peer,
                         replace: Option<Peer>, out: Option<Peer>, now: int)
    requires candidate in Candidates(cfg, ranking) && IsSnapshot(ranking, was.trusted, scores)
    requires later == ManualPeers.RowsAfter(was, PromotionOf(candidate, replace), out, now)
    requires HadRoom(cfg, was.trusted, candidate.address, out)
    requires out.Some? ==>
      && out == WeakestTrustedPeer(EvictableTrusted(TrustedOf(ranking))) && out.value.address != candidate.address
      && BeatsHolder(cfg, candidate.score, out.value.score)
    ensures Allowed(cfg, scores, was.trusted.Keys, MoveOf(candidate.address, out))
    ensures later.trusted.Keys == After(was.trusted.Keys, MoveOf(candidate.address, out))
  {
    JoinKeys(was, PromotionOf(candidate, replace), out, now);
    JoinIsAMove(cfg, was.trusted, later.trusted.Keys, ranking, scores, candidate.address, out);
  }

  // A pass that parks nobody new - whoever it displaces is still connected, or has
  // no record - is one of the ticks ParkedQueue reasons about, and a peer that
  // answered never comes out with more failures than it had.
  lemma RevivalIsAProbeTick(cfg: Config, before: Parked, after: Parked, order: seq<Address>, reachable: Address -> bool,
                            joined: Option<Address>, out: Option<Peer>, now: int)
    requires out.Some? ==> !Parks(out, out.value.address)
    requires var kept := Retained(cfg, before, now);
      && IsProbeOrder(order, kept)
      && Visited(kept, after, KnockedOn(cfg, kept, order, false, now), reachable, joined, out, now)
    ensures ProbeTick(cfg, before, after, order, now)
    ensures forall a :: a in after && reachable(a) ==> after[a].probeFailures <= before[a].probeFailures
  {
    var kept := Retained(cfg, before, now);
    var probed := Probed(cfg.parkedPeerProbesPerTick, order, DueSet(cfg, kept, now));
    assert KnockedOn(cfg, kept, order, false, now) == set a | a in probed;
    StampedOrLeftAlone(kept, after, probed, reachable, joined, out, now);
  }

  lemma StampedOrLeftAlone(kept: Parked, after: Parked, probed: seq<Address>, reachable: Address -> bool,
                           joined: Option<Address>, out: Option<Peer>, now: int)
    requires Visited(kept, after, (set a | a in probed), reachable, joined, out, now)
    requires out.Some? ==> !Parks(out, out.value.address)
    ensures forall a :: a in after ==> a in kept
    ensures forall a :: a in kept && a !in probed ==> a in after && after[a] == kept[a]
    ensures forall a :: a in after && a in probed ==> after[a].lastProbeAt == Some(now)
    ensures forall a :: a in after && reachable(a) ==> after[a].probeFailures <= kept[a].probeFailures
  {
    assert forall a :: !Parks(out, a);
  }

  ghost predicate IsAmong(gone: seq<Peer>, a: Address) { exists p :: p in gone && p.address == a }

  // peer.address is UNIQUE, and the ranking has one line for each.
  ghost predicate DistinctPeers(ranking: seq<Peer>) {
    forall i, j :: 0 <= i < j < |ranking| ==> ranking[i].address != ranking[j].address
  }

  // The retention this record buys is not over when the reviving pass reads the clock.
  predicate Outlasts(cfg: Config, p: Peer, times: Times) {
    (times.revive - times.parkedAt(p.address)) as real <= ParkedRetentionMs(cfg, p.firstPct)
  }

  // At most one peer joins; a holder goes only by being retired or displaced. A
  // displaced peer that is gone and has a record is parked. A retired one that
  // does not come back is parked at the end exactly if its retention lasted until
  // the reviving pass of the same tick, or it is the displaced one.
  ghost predicate TickKeeps(cfg: Config, gone: seq<Peer>, times: Times, was: Tables, later: Tables,
                            joined: Option<Address>, out: Option<Peer>)
  {
    && (forall a :: a in later.trusted ==> a in was.trusted || joined == Some(a))
    && (forall a :: a in was.trusted && a !in later.trusted ==> IsAmong(gone, a) || IsOut(out, a))
    && (out.Some? ==> Evictable(out.value) && joined.Some?)
    && (joined.Some? ==> joined.value in later.trusted)
    && (out.Some? && Parks(out, out.value.address) ==> out.value.address in later.parked)
    && (DistinctPeers(gone) ==>
          forall p :: p in gone && p.eligible > 0 && p.address != "" && joined != Some(p.address) ==>
            (p.address in later.parked <==> Outlasts(cfg, p, times) || Parks(out, p.address)))
  }

  lemma {:induction false} RetireesAreDistinct(cfg: Config, ranking: seq<Peer>, now: int)
    requires DistinctPeers(ranking)
    ensures DistinctPeers(Retirees(cfg, ranking, now))
  {
    if |ranking| > 0 {
      var rest := Retirees(cfg, ranking[1..], now);
      RetireesAreDistinct(cfg, ranking[1..], now);
      forall i | 0 <= i < |rest| ensures rest[i].address != ranking[0].address {
        assert rest[i] in ranking[1..];
        var k :| 1 <= k < |ranking| && ranking[k] == rest[i];
      }
    }
  }

  lemma {:induction false} RetireAllEffect(t: Tables, gone: seq<Peer>, parkedAt: Address -> int)
    ensures var u := RetireAll(t, gone, parkedAt);
      && (forall a :: a in u.trusted <==> a in t.trusted && !IsAmong(gone, a))
      && (forall a :: a in t.parked ==> a in u.parked && (u.parked[a] == t.parked[a] || u.parked[a].parkedAt == parkedAt(a)))
      && (forall p :: p in gone && p.eligible > 0 && p.address != "" ==>
            p.address in u.parked && u.parked[p.address].parkedAt == parkedAt(p.address))
    decreases |gone|
  {
    if |gone| > 0 {
      var mid := RetireOne(t, gone[0], parkedAt);
      RetireAllEffect(mid, gone[1..], parkedAt);
      forall a ensures IsAmong(gone, a) <==> gone[0].address == a || IsAmong(gone[1..], a) { AmongFirstOrRest(gone, a); }
    }
  }

  lemma AmongFirstOrRest(gone: seq<Peer>, a: Address)
    requires |gone| > 0
    ensures IsAmong(gone, a) <==> gone[0].address == a || IsAmong(gone[1..], a)
  {
    if IsAmong(gone, a) {
      var p :| p in gone && p.address == a;
      assert p == gone[0] || p in gone[1..];
    }
    if IsAmong(gone[1..], a) { var p :| p in gone[1..] && p.address == a; assert p in gone; }
    assert gone[0] in gone;
  }

  lemma {:induction false} OthersStayParked(t: Tables, gone: seq<Peer>, parkedAt: Address -> int, a: Address)
    requires !IsAmong(gone, a) && a in t.parked
    ensures a in RetireAll(t, gone, parkedAt).parked && RetireAll(t, gone, parkedAt).parked[a] == t.parked[a]
    decreases |gone|
  {
    if |gone| > 0 {
      AmongFirstOrRest(gone, a);
      OthersStayParked(RetireOne(t, gone[0], parkedAt), gone[1..], parkedAt, a);
    }
  }

  // A retired peer with a record is parked with that record, at its own reading.
  lemma {:induction false} RetiredRow(t: Tables, gone: seq<Peer>, parkedAt: Address -> int, p: Peer)
    requires DistinctPeers(gone) && p in gone && p.eligible > 0 && p.address != ""
    ensures var u := RetireAll(t, gone, parkedAt);
      && p.address in u.parked
      && u.parked[p.address].parkedAt == parkedAt(p.address) && u.parked[p.address].firstPct == p.firstPct
      && IsFreshRow(t.parked, u.parked[p.address], p, parkedAt(p.address))
    decreases |gone|
  {
    var mid := RetireOne(t, gone[0], parkedAt);
    if p == gone[0] {
      forall q | q in gone[1..] ensures q.address != p.address {
        var k :| 1 <= k < |gone| && gone[k] == q;
      }
      OthersStayParked(mid, gone[1..], parkedAt, p.address);
    } else {
      RetiredRow(mid, gone[1..], parkedAt, p);
    }
  }

  lemma TickKept(cfg: Config, gone: seq<Peer>, times: Times, start: Tables, between: Tables, later: Tables,
                 ranking: seq<Peer>, score: Address -> real, order: seq<Address>, viaProxy: bool, reachable: Address -> bool,
                 joined: Option<Address>, out: Option<Peer>)
    requires between == RetireAll(start, gone, times.parkedAt)
    requires Entered(cfg, between, later, ranking, score, joined, out)
    requires StampsKnocked(cfg, between.parked, later.parked, order, viaProxy, reachable, joined, out, times.revive)
    ensures TickKeeps(cfg, gone, times, start, later, joined, out)
  {
    RowsKept(cfg, gone, times, start, between, later, ranking, score, joined, out);
    if out.Some? && Parks(out, out.value.address) { assert joined != Some(out.value.address); }
    forall p | DistinctPeers(gone) && p in gone && p.eligible > 0 && p.address != "" && joined != Some(p.address)
      ensures p.address in later.parked <==> Outlasts(cfg, p, times) || Parks(out, p.address)
    {
      RetiredStaysIff(cfg, gone, times, start, between.parked, later.parked, joined, out, p);
    }
  }

  lemma RowsKept(cfg: Config, gone: seq<Peer>, times: Times, start: Tables, between: Tables, later: Tables,
                 ranking: seq<Peer>, score: Address -> real, joined: Option<Address>, out: Option<Peer>)
    requires between == RetireAll(start, gone, times.parkedAt)
    requires Entered(cfg, between, later, ranking, score, joined, out)
    ensures forall a :: a in later.trusted ==> a in start.trusted || joined == Some(a)
    ensures forall a :: a in start.trusted && a !in later.trusted ==> IsAmong(gone, a) || IsOut(out, a)
    ensures out.Some? ==> Evictable(out.value) && joined.Some? && joined != Some(out.value.address)
    ensures joined.Some? ==> joined.value in later.trusted
  {
    RetireAllEffect(start, gone, times.parkedAt);
    OutIsEvictable(cfg, between, later, ranking, score, joined, out);
  }

  lemma RetiredStaysIff(cfg: Config, gone: seq<Peer>, times: Times, start: Tables, parked: Parked, later: Parked,
                        joined: Option<Address>, out: Option<Peer>, p: Peer)
    requires DistinctPeers(gone) && p in gone && p.eligible > 0 && p.address != "" && joined != Some(p.address)
    requires parked == RetireAll(start, gone, times.parkedAt).parked
    requires forall a :: joined != Some(a) ==> (a in later <==> a in Retained(cfg, parked, times.revive) || Parks(out, a))
    ensures p.address in later <==> Outlasts(cfg, p, times) || Parks(out, p.address)
  {
    RetiredRow(start, gone, times.parkedAt, p);
    RetainedIff(cfg, parked, times.revive, p.address);
  }

  lemma OutIsEvictable(cfg: Config, was: Tables, later: Tables, ranking: seq<Peer>, score: Address -> real,
                       joined: Option<Address>, out: Option<Peer>)
    requires Entered(cfg, was, later, ranking, score, joined, out)
    ensures out.Some? ==> Evictable(out.value) && joined.Some?
  {
  }

  // ---- Who is lost in the tick that retires him ---------------------------------------

  // With a record, no longer a holder, not parked and not back either.
  ghost predicate Lost(p: Peer, later: Tables, joined: Option<Address>) {
    p.eligible > 0 && p.address != "" && p.address !in later.parked && joined != Some(p.address)
  }

  // Nobody is, whatever his record, as long as no parking lies further back than
  // the minimum retention when the reviving pass reads the clock.
  lemma NobodyIsLost(cfg: Config, gone: seq<Peer>, times: Times, was: Tables, later: Tables, joined: Option<Address>,
                     out: Option<Peer>)
    requires cfg.Legal() && DistinctPeers(gone) && TickKeeps(cfg, gone, times, was, later, joined, out)
    requires forall p :: p in gone ==>
      (times.revive - times.parkedAt(p.address)) as real <= cfg.parkedPeerMinRetentionDays * DAY_MS
    ensures forall p :: p in gone ==> !Lost(p, later, joined)
  {
    forall p | p in gone ensures !Lost(p, later, joined) {
      if p.eligible > 0 && p.address != "" { assert Outlasts(cfg, p, times); }
    }
  }

  // And that is what the settings have to grant: every record outlasts a gap
  // exactly if the minimum retention, or what no record buys, does.
  lemma EveryRecordOutlastsIff(cfg: Config, gap: int)
    requires cfg.Legal()
    ensures (forall pct: Option<real> :: pct.GetOr(0.0) >= 0.0 ==> gap as real <= ParkedRetentionMs(cfg, pct))
       <==> gap as real <= cfg.parkedPeerMinRetentionDays * DAY_MS
  {
    var nothing: Option<real> := None;
    NoRecordGetsTheMinimum(cfg);
    if gap as real <= cfg.parkedPeerMinRetentionDays * DAY_MS {
      forall pct: Option<real> | pct.GetOr(0.0) >= 0.0 ensures gap as real <= ParkedRetentionMs(cfg, pct) {
        BetterRecordsLastLonger(cfg, nothing, pct);
      }
    } else {
      assert nothing.GetOr(0.0) >= 0.0;
    }
  }

  lemma NoRecordGetsTheMinimum(cfg: Config)
    requires cfg.Legal()
    ensures ParkedRetentionMs(cfg, None) == cfg.parkedPeerMinRetentionDays * DAY_MS
    ensures ParkedRetentionMs(cfg, Some(0.0)) == cfg.parkedPeerMinRetentionDays * DAY_MS
  {
    NothingBuysNothing(cfg.parkedPeerRetentionDaysPerPct);
  }

  lemma NothingBuysNothing(price: real)
    ensures 0.0 * price == 0.0
  {
  }

  // The input that is lost: a minimum retention of 0, a retired peer that was there
  // for blocks and brought none first, and a millisecond between its parking and
  // the reviving pass.
  lemma RetiredAndForgotten(cfg: Config, p: Peer, times: Times, was: Tables, later: Tables)
    requires cfg.Legal() && cfg.parkedPeerMinRetentionDays == 0.0
    requires p.eligible > 0 && p.address != "" && p.firstPct == Some(0.0)
    requires times.revive == times.parkedAt(p.address) + 1
    requires TickKeeps(cfg, [p], times, was, later, None, None)
    ensures Lost(p, later, None)
  {
    NoRecordGetsTheMinimum(cfg);
    assert p in [p] && !Outlasts(cfg, p, times);
  }

  ghost function KnockedOn(cfg: Config, kept: Parked, order: seq<Address>, viaProxy: bool, now: int): set<Address> {
    if viaProxy then {} else set a | a in Probed(cfg.parkedPeerProbesPerTick, order, DueSet(cfg, kept, now))
  }

  // What the pass did to the manual set.
  ghost predicate CameIn(cfg: Config, was: Tables, later: Tables, ranking: seq<Peer>, score: Address -> real,
                         joined: Option<Address>, out: Option<Peer>)
  {
    match joined
    case None => out.None? && later.trusted == was.trusted && later.peers == was.peers
    case Some(a) =>
      && later.trusted.Keys == was.trusted.Keys + {a} - Leaving(out)
      && HadRoom(cfg, was.trusted, a, out)
      && (out.Some? ==> out.value.address != a && out == WeakestTrustedPeer(EvictableTrusted(TrustedOf(ranking)))
                        && BeatsHolder(cfg, Some(score(a)), out.value.score))
  }

  ghost function Leaving(out: Option<Peer>): set<Address> { if out.Some? then {out.value.address} else {} }

  lemma Joins(cfg: Config, was: Tables, before: Tables, after: Tables, done: set<Address>, reachable: Address -> bool,
              ranking: seq<Peer>, score: Address -> real, out: Option<Peer>, now: int, a: Address)
    requires Visited(was.parked, before.parked, done, reachable, None, None, now) && a in was.parked && a !in done && reachable(a)
    requires CameIn(cfg, was, before, ranking, score, None, None)
    requires exists replace :: && after == ManualPeers.RowsAfter(before, ComingBack(a, was.parked[a], replace), out, now)
                               && (out.Some? ==> out == replace && out.value.address != a)
    requires out.Some? ==>
      out == WeakestTrustedPeer(EvictableTrusted(TrustedOf(ranking))) && BeatsHolder(cfg, Some(score(a)), out.value.score)
    requires HadRoom(cfg, before.trusted, a, out)
    ensures Visited(was.parked, after.parked, done + {a}, reachable, Some(a), out, now)
    ensures CameIn(cfg, was, after, ranking, score, Some(a), out)
  {
    var replace :| && after == ManualPeers.RowsAfter(before, ComingBack(a, was.parked[a], replace), out, now)
                   && (out.Some? ==> out == replace && out.value.address != a);
    JoinVisits(was.parked, before, done, reachable, was.parked[a], replace, out, now, a);
    JoinKeys(before, ComingBack(a, was.parked[a], replace), out, now);
  }

  lemma AllFirst(s: seq<Address>)
    ensures Firsts(s, |s|) == set a | a in s
  {
    assert s[..|s|] == s;
  }

  lemma NotAmongFirsts(s: seq<Address>, i: nat)
    requires i < |s| && forall j, k :: 0 <= j < k < |s| ==> s[j] != s[k]
    ensures s[i] !in Firsts(s, i)
  {
  }

  lemma ProbedAreDistinct(k: nat, order: seq<Address>, due: set<Address>)
    requires forall i, j :: 0 <= i < j < |order| ==> order[i] != order[j]
    ensures var r := Probed(k, order, due);
      (forall a :: a in r ==> a in order && a in due) && (forall i, j :: 0 <= i < j < |r| ==> r[i] != r[j])
  {
  }

  lemma JoinKeys(t: Tables, request: Request, out: Option<Peer>, now: int)
    ensures ManualPeers.RowsAfter(t, request, out, now).trusted.Keys == t.trusted.Keys + {request.address} - Leaving(out)
  {
    UpsertSize(t.trusted, request.address, request.caption, request.options.kept, now);
  }

  // ---- Who is retired, in the columns -----------------------------------------------

  ghost predicate IsOverdue(cfg: Config, ranking: seq<Peer>, now: int, a: Address) {
    exists p :: p in ranking && p.address == a && Overdue(cfg, p, now)
  }

  ghost predicate RetiresTheOverdue(cfg: Config, ranking: seq<Peer>, now: int, parkedAt: Address -> int, was: Tables,
                                    later: Tables)
  {
    && (forall a :: a in later.trusted <==> a in was.trusted && !IsOverdue(cfg, ranking, now, a))
    && (forall a :: a in later.trusted ==> later.trusted[a] == was.trusted[a])
    && later.peers == was.peers
    && (forall p :: p in ranking && Overdue(cfg, p, now) && p.eligible > 0 && p.address != "" ==>
          p.address in later.parked && later.parked[p.address].parkedAt == parkedAt(p.address))
    && (DistinctPeers(ranking) ==>
          forall p :: p in ranking && Overdue(cfg, p, now) && p.eligible > 0 && p.address != "" ==>
            IsFreshRow(was.parked, later.parked[p.address], p, parkedAt(p.address)))
    && (forall a :: !IsOverdue(cfg, ranking, now, a) ==>
          (a in later.parked <==> a in was.parked) && (a in was.parked ==> later.parked[a] == was.parked[a]))
  }

  lemma AmongTheOverdue(cfg: Config, ranking: seq<Peer>, now: int, a: Address)
    ensures IsAmong(Retirees(cfg, ranking, now), a) <==> IsOverdue(cfg, ranking, now, a)
  {
    var gone := Retirees(cfg, ranking, now);
    forall p ensures p in gone <==> p in ranking && Overdue(cfg, p, now) { RetiresIff(cfg, p, now); }
    if IsAmong(gone, a) { var p :| p in gone && p.address == a; }
    if IsOverdue(cfg, ranking, now, a) { var p :| p in ranking && p.address == a && Overdue(cfg, p, now); assert p in gone; }
  }

  lemma {:induction false} RetiredRowsOnly(t: Tables, gone: seq<Peer>, parkedAt: Address -> int)
    ensures var u := RetireAll(t, gone, parkedAt);
      && u.peers == t.peers && (forall a :: a in u.trusted ==> a in t.trusted && u.trusted[a] == t.trusted[a])
      && (forall a :: a in u.parked ==> a in t.parked || IsAmong(gone, a))
    decreases |gone|
  {
    if |gone| > 0 {
      RetiredRowsOnly(RetireOne(t, gone[0], parkedAt), gone[1..], parkedAt);
      forall a ensures IsAmong(gone, a) <==> gone[0].address == a || IsAmong(gone[1..], a) { AmongFirstOrRest(gone, a); }
    }
  }

  lemma OverdueGo(cfg: Config, ranking: seq<Peer>, now: int, parkedAt: Address -> int, was: Tables)
    ensures RetiresTheOverdue(cfg, ranking, now, parkedAt, was, RetireAll(was, Retirees(cfg, ranking, now), parkedAt))
  {
    var gone := Retirees(cfg, ranking, now);
    RetireAllEffect(was, gone, parkedAt);
    RetiredRowsOnly(was, gone, parkedAt);
    forall a ensures IsAmong(gone, a) <==> IsOverdue(cfg, ranking, now, a) { AmongTheOverdue(cfg, ranking, now, a); }
    forall p | p in ranking && Overdue(cfg, p, now) ensures p in gone { RetiresIff(cfg, p, now); }
    if DistinctPeers(ranking) {
      RetireesAreDistinct(cfg, ranking, now);
      forall p | p in ranking && Overdue(cfg, p, now) && p.eligible > 0 && p.address != ""
        ensures IsFreshRow(was.parked, RetireAll(was, gone, parkedAt).parked[p.address], p, parkedAt(p.address))
      {
        RetiredRow(was, gone, parkedAt, p);
      }
    }
    forall a | !IsAmong(gone, a) && a in was.parked
      ensures a in RetireAll(was, gone, parkedAt).parked && RetireAll(was, gone, parkedAt).parked[a] == was.parked[a]
    {
      OthersStayParked(was, gone, parkedAt, a);
    }
  }

  // ---- Nobody is passed over ----------------------------------------------------------

  ghost predicate ThroughTheOverdue(cfg: Config, ranking: seq<Peer>, times: Times, was: Tables, later: Tables,
                                    joined: Option<Address>, out: Option<Peer>)
  {
    forall a :: a in later.trusted <==>
      joined == Some(a) || (a in was.trusted && !IsOverdue(cfg, ranking, times.retire, a) && !Goes(out, a))
  }

  lemma EntrantAndOverdue(cfg: Config, overdue: seq<Peer>, times: Times, was: Tables, between: Tables, later: Tables,
                          ranking: seq<Peer>, score: Address -> real, joined: Option<Address>, out: Option<Peer>)
    requires RetiresTheOverdue(cfg, overdue, times.retire, times.parkedAt, was, between)
    requires Entered(cfg, between, later, ranking, score, joined, out)
    ensures ThroughTheOverdue(cfg, overdue, times, was, later, joined, out)
  {
  }

  // parked_peer after the tick: the expired are gone, everybody knocked on has the
  // time and what came of it, the others are as they were.
  ghost predicate StampsKnocked(cfg: Config, parked: Parked, later: Parked, order: seq<Address>, viaProxy: bool,
                                reachable: Address -> bool, joined: Option<Address>, out: Option<Peer>, now: int)
  {
    var kept := Retained(cfg, parked, now);
    var knocked := KnockedOn(cfg, kept, order, viaProxy, now);
    && IsProbeOrder(order, kept)
    && (forall a :: joined != Some(a) ==> (a in later <==> a in kept || Parks(out, a)))
    && (forall a :: joined != Some(a) && a in kept && !Parks(out, a) ==> IsAfterKnock(kept[a], later[a], a in knocked, reachable(a), now))
    && (joined.Some? ==> joined.value !in later)
    && (joined.None? ==> out.None?)
  }

  ghost predicate IsAfterKnock(row: ParkedRow, later: ParkedRow, knocked: bool, answered: bool, now: int) {
    later == if knocked then row.(lastProbeAt := Some(now), probeFailures := if answered then 0 else row.probeFailures + 1)
             else row
  }

  lemma VisitedIsStamped(cfg: Config, parked: Parked, later: Parked, order: seq<Address>, viaProxy: bool,
                         reachable: Address -> bool, joined: Option<Address>, out: Option<Peer>, now: int)
    requires var kept := Retained(cfg, parked, now);
      IsProbeOrder(order, kept) && Visited(kept, later, KnockedOn(cfg, kept, order, viaProxy, now), reachable, joined, out, now)
    ensures StampsKnocked(cfg, parked, later, order, viaProxy, reachable, joined, out, now)
  {
    var kept := Retained(cfg, parked, now);
    StampedByVisit(kept, later, KnockedOn(cfg, kept, order, viaProxy, now), reachable, joined, out, now);
  }

  lemma StampedByVisit(kept: Parked, later: Parked, knocked: set<Address>, reachable: Address -> bool, joined: Option<Address>,
                       out: Option<Peer>, now: int)
    requires Visited(kept, later, knocked, reachable, joined, out, now)
    ensures forall a :: joined != Some(a) ==> (a in later <==> a in kept || Parks(out, a))
    ensures forall a :: joined != Some(a) && a in kept && !Parks(out, a) ==>
      IsAfterKnock(kept[a], later[a], a in knocked, reachable(a), now)
  {
    forall a | Parks(out, a) ensures a in later { assert out.value.address == a; }
  }

  ghost predicate TriesEverybody(cfg: Config, key: Address -> Key, was: Tables, ranking: seq<Peer>, order: seq<Address>,
                                 viaProxy: bool, reachable: Address -> bool, score: Address -> real,
                                 willing: Address -> Willing, now: int, joined: Option<Address>)
  {
    var knocked := KnockedOn(cfg, Retained(cfg, was.parked, now), order, viaProxy, now);
    InStep(key, was.trusted, ranking) ==>
      && (!NoneReturns(cfg, key, was.trusted, ranking, knocked, reachable, score, willing) ==>
            joined.Some? && joined.value in knocked && reachable(joined.value))
      && (joined.None? ==> NoCandidateEnters(cfg, key, was.trusted, ranking, willing))
  }

  ghost predicate NoCandidateEnters(cfg: Config, key: Address -> Key, trusted: map<Address, TrustedRow>, ranking: seq<Peer>,
                                    willing: Address -> Willing)
  {
    forall c :: c in Candidates(cfg, ranking) ==> !Enters(cfg, key, trusted, ranking, c, willing)
  }

  lemma NobodyToEnter(cfg: Config, key: Address -> Key, trusted: map<Address, TrustedRow>, ranking: seq<Peer>,
                      willing: Address -> Willing)
    requires FirstEnters(Entrants(cfg, key, trusted, ranking, willing), Candidates(cfg, ranking), None)
    ensures NoCandidateEnters(cfg, key, trusted, ranking, willing)
  {
  }

  lemma PromotionStamps(cfg: Config, parked: Parked, before: Tables, later: Tables, order: seq<Address>, viaProxy: bool,
                        reachable: Address -> bool, candidate: Peer, out: Option<Peer>, revive: int, promote: int)
    requires StampsKnocked(cfg, parked, before.parked, order, viaProxy, reachable, None, None, revive)
    requires Promoted(before, later, candidate, out, promote) && (out.Some? ==> out.value.address != candidate.address)
    ensures StampsKnocked(cfg, parked, later.parked, order, viaProxy, reachable, Some(candidate.address), out, revive)
  {
    PromotedParks(before, later, candidate, out, promote);
    StampsStay(cfg, parked, before.parked, later.parked, order, viaProxy, reachable, candidate.address, out, revive);
  }

  ghost predicate ParksAlso(before: Parked, later: Parked, a: Address, out: Option<Peer>) {
    && a !in later
    && (forall b :: b != a ==> (b in later <==> b in before || Parks(out, b)))
    && (forall b :: b != a && b in before && !Parks(out, b) ==> later[b] == before[b])
  }

  lemma PromotedParks(before: Tables, later: Tables, candidate: Peer, out: Option<Peer>, now: int)
    requires Promoted(before, later, candidate, out, now) && (out.Some? ==> out.value.address != candidate.address)
    ensures ParksAlso(before.parked, later.parked, candidate.address, out)
  {
    var replace :| later == ManualPeers.RowsAfter(before, PromotionOf(candidate, replace), out, now)
                   && (out.Some? ==> out == replace);
    var request := PromotionOf(candidate, replace);
    RowsAfterParks(before, request, out, now);
    assert forall b :: GetsParked(request, out, b) <==> Parks(out, b);
  }

  lemma StampsStay(cfg: Config, parked: Parked, before: Parked, later: Parked, order: seq<Address>, viaProxy: bool,
                   reachable: Address -> bool, a: Address, out: Option<Peer>, now: int)
    requires StampsKnocked(cfg, parked, before, order, viaProxy, reachable, None, None, now)
    requires ParksAlso(before, later, a, out)
    ensures StampsKnocked(cfg, parked, later, order, viaProxy, reachable, Some(a), out, now)
  {
    assert forall b :: !Parks(None, b);
  }
}
