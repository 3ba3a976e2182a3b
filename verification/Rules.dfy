/**
 * src/lib/peer-rotation/rules.js and src/lib/queries/peers.js: who may be
 * displaced, who is the weakest, and how long a record buys a peer.
 */
module Rules {
  import opened Basics
  import opened Wrappers
  import opened Settings
  import opened PeerTables

  const HOUR_MS := 3600000.0
  const DAY_MS := 86400000.0

  predicate Evictable(p: Peer) { !p.kept && !p.withinNewManualGrace }

  function EvictableTrusted(trusted: seq<Peer>): (r: seq<Peer>)
    ensures forall p :: p in r <==> p in trusted && !p.kept && !p.withinNewManualGrace
  {
    if |trusted| == 0 then []
    else (if Evictable(trusted[0]) then [trusted[0]] else []) + EvictableTrusted(trusted[1..])
  }

  // A missing score sorts below every measured one.
  function Worth(score: Option<real>): real { score.GetOr(-1.0) }

  // The reduce step: strictly lower score wins, offline breaks a tie.
  function Weaker(worst: Peer, p: Peer): Peer {
    if Worth(p.score) != Worth(worst.score) then (if Worth(p.score) < Worth(worst.score) then p else worst)
    else if !p.Live() && worst.Live() then p
    else worst
  }

  function WeakestFrom(worst: Peer, rest: seq<Peer>): (r: Peer)
    ensures r == worst || r in rest
    ensures forall p :: p in [worst] + rest ==> Worth(r.score) <= Worth(p.score)
    ensures forall p :: p in [worst] + rest && Worth(p.score) == Worth(r.score) && r.Live() ==> p.Live()
    decreases |rest|
  {
    if |rest| == 0 then worst else WeakestFrom(Weaker(worst, rest[0]), rest[1..])
  }

  function WeakestTrustedPeer(peers: seq<Peer>): (r: Option<Peer>)
    ensures r.None? <==> peers == []
    ensures r.Some? ==>
      && r.value in peers
      && (forall p :: p in peers ==> Worth(r.value.score) <= Worth(p.score))
      && (forall p :: p in peers && Worth(p.score) == Worth(r.value.score) && r.value.Live() ==> p.Live())
  {
    if |peers| == 0 then None
    else
      assert peers == [peers[0]] + peers[1..];
      Some(WeakestFrom(peers[0], peers[1..]))
  }

  predicate BeatsHolder(cfg: Config, challenger: Option<real>, holder: Option<real>) {
    Worth(challenger) - Worth(holder) > cfg.minSwapMarginPct
  }

  // Nobody beats the peer that beats him, and nobody himself.
  lemma BeatingIsOneWay(cfg: Config, a: Option<real>, b: Option<real>, c: Option<real>)
    requires cfg.Legal() && BeatsHolder(cfg, a, b)
    ensures !BeatsHolder(cfg, b, a) && a != b
    ensures BeatsHolder(cfg, b, c) ==> BeatsHolder(cfg, a, c)
  {
  }

  // Two clocks, and whichever started later counts.
  function OfflineForMs(peer: Peer, now: int): (r: Option<int>)
    ensures peer.Live() ==> r == None
    ensures r.Some? && peer.trustedSince.Some? ==> r.value <= now - peer.trustedSince.value
    ensures r.Some? && peer.offlineSinceMs.Some? ==> r.value <= peer.offlineSinceMs.value
    ensures r.None? ==> peer.Live() || (peer.trustedSince.None? && peer.offlineSinceMs.None?)
    ensures r.Some? ==>
      r == peer.offlineSinceMs || (peer.trustedSince.Some? && r.value == now - peer.trustedSince.value)
  {
    if peer.Live() then None
    else
      match (peer.offlineSinceMs, peer.trustedSince)
      case (None, None) => None
      case (None, Some(since)) => Some(now - since)
      case (Some(seen), None) => Some(seen)
      case (Some(seen), Some(since)) => Some(MinInt(seen, now - since))
  }

  function OfflineGraceMs(cfg: Config, firstPct: Option<real>): (ms: real)
    ensures cfg.Legal() ==> cfg.offlineGraceMinHours * HOUR_MS <= ms <= cfg.offlineGraceMaxHours * HOUR_MS
  {
    Min(cfg.offlineGraceMaxHours,
        Max(cfg.offlineGraceMinHours, firstPct.GetOr(0.0) * cfg.offlineGraceHoursPerPct)) * HOUR_MS
  }

  function ParkedRetentionMs(cfg: Config, firstPct: Option<real>): (ms: real)
    ensures cfg.Legal() ==> cfg.parkedPeerMinRetentionDays * DAY_MS <= ms <= cfg.parkedPeerMaxRetentionDays * DAY_MS
  {
    Min(cfg.parkedPeerMaxRetentionDays,
        Max(cfg.parkedPeerMinRetentionDays, firstPct.GetOr(0.0) * cfg.parkedPeerRetentionDaysPerPct)) * DAY_MS
  }

  // x / 0 in JavaScript: NaN for 0, which Math.min then passes on (None), and
  // infinity for anything positive, which Math.min cuts down to 1.
  function SpeedShare(cfg: Config, firstPct: Option<real>): Option<real> {
    var pct := firstPct.GetOr(0.0);
    if cfg.parkedPeerFullSpeedPct == 0.0 then (if pct == 0.0 then None else Some(1.0))
    else Some(Min(1.0, pct / cfg.parkedPeerFullSpeedPct))
  }

  function Slide(fast: real, slow: real, share: real): real { slow + (fast - slow) * share }

  function ProbeIntervalCapMs(cfg: Config, firstPct: Option<real>): Option<real> {
    var fast, slow := cfg.parkedPeerMaxProbeIntervalHours * HOUR_MS, cfg.parkedPeerSlowProbeIntervalHours * HOUR_MS;
    match SpeedShare(cfg, firstPct)
    case None => None
    case Some(share) => Some(Slide(fast, slow, share))
  }

  // A better record is never knocked on less often, and the gap stays between
  // the two settings.
  lemma BetterRecordsAreKnockedOnSooner(cfg: Config, a: Option<real>, b: Option<real>)
    requires cfg.Legal() && cfg.parkedPeerFullSpeedPct > 0.0
    requires 0.0 <= a.GetOr(0.0) <= b.GetOr(0.0)
    ensures ProbeIntervalCapMs(cfg, a).Some? && ProbeIntervalCapMs(cfg, b).Some?
    ensures cfg.parkedPeerMaxProbeIntervalHours * HOUR_MS <= ProbeIntervalCapMs(cfg, b).value
    ensures ProbeIntervalCapMs(cfg, b).value <= ProbeIntervalCapMs(cfg, a).value
    ensures ProbeIntervalCapMs(cfg, a).value <= cfg.parkedPeerSlowProbeIntervalHours * HOUR_MS
  {
    SharesAreOrdered(cfg, a, b);
    ScaledInOrder(cfg.parkedPeerMaxProbeIntervalHours, cfg.parkedPeerSlowProbeIntervalHours, HOUR_MS);
    Interpolation(cfg.parkedPeerMaxProbeIntervalHours * HOUR_MS, cfg.parkedPeerSlowProbeIntervalHours * HOUR_MS,
                  SpeedShare(cfg, a).value, SpeedShare(cfg, b).value);
  }

  lemma SharesAreOrdered(cfg: Config, a: Option<real>, b: Option<real>)
    requires cfg.parkedPeerFullSpeedPct > 0.0 && 0.0 <= a.GetOr(0.0) <= b.GetOr(0.0)
    ensures SpeedShare(cfg, a).Some? && SpeedShare(cfg, b).Some?
    ensures 0.0 <= SpeedShare(cfg, a).value <= SpeedShare(cfg, b).value <= 1.0
  {
    Quotients(a.GetOr(0.0), b.GetOr(0.0), cfg.parkedPeerFullSpeedPct);
  }

  lemma Quotients(a: real, b: real, d: real)
    requires 0.0 <= a <= b && d > 0.0
    ensures 0.0 <= a / d <= b / d
  {
  }

  lemma Scaled(a: real, x: real, y: real)
    requires 0.0 <= a && 0.0 <= x <= y
    ensures 0.0 <= a * x <= a * y
  {
  }

  lemma Interpolation(fast: real, slow: real, x: real, y: real)
    requires fast <= slow && 0.0 <= x <= y <= 1.0
    ensures fast <= Slide(fast, slow, y) <= Slide(fast, slow, x) <= slow
  {
    var gap := slow - fast;
    Scaled(gap, x, y);
    Scaled(gap, y, 1.0);
    SlideIs(fast, slow, x, gap);
    SlideIs(fast, slow, y, gap);
    assert gap * 1.0 == slow - fast;
  }

  lemma SlideIs(fast: real, slow: real, x: real, gap: real)
    requires gap == slow - fast
    ensures Slide(fast, slow, x) == slow - gap * x
  {
  }

  function Doubled(failures: nat): (r: real)
    ensures r >= 1.0
  {
    if failures == 0 then 1.0 else 2.0 * Doubled(failures - 1)
  }

  function Backoff(shortest: real, failures: nat): real { shortest * Doubled(failures) }

  // 2 ** failures is Infinity from here on.
  const INFINITE_FROM := 1024

  // The gap doubles with every failure up to the cap. Infinity times a positive
  // setting is cut down to the cap; times a setting of zero it is NaN (None),
  // and so is whatever has a NaN cap.
  function GapMs(cfg: Config, row: ParkedRow): Option<real> {
    match ProbeIntervalCapMs(cfg, row.firstPct)
    case None => None
    case Some(cap) =>
      if row.probeFailures < INFINITE_FROM then
        Some(Min(cap, Backoff(cfg.parkedPeerMinProbeIntervalMinutes * 60000.0, row.probeFailures)))
      else if cfg.parkedPeerMinProbeIntervalMinutes == 0.0 then None
      else Some(cap)
  }

  // Due at once when never probed. A NaN gap compares false: never due again.
  predicate IsDue(cfg: Config, row: ParkedRow, now: int) {
    match row.lastProbeAt
    case None => true
    case Some(last) => GapMs(cfg, row).Some? && (now - last) as real >= GapMs(cfg, row).value
  }

  // Waiting never makes a peer less due.
  lemma DueStaysDue(cfg: Config, row: ParkedRow, now: int, later: int)
    requires IsDue(cfg, row, now) && now <= later
    ensures IsDue(cfg, row, later)
  {
  }

  // Every peer comes due again - unless its gap is no number: the full-speed
  // setting is 0 and its record exactly 0, or the minimum interval is 0 and it
  // has failed to answer 1024 times.
  lemma EveryoneComesDueIff(cfg: Config, row: ParkedRow)
    requires cfg.Legal() && row.lastProbeAt.Some?
    ensures (exists now :: IsDue(cfg, row, now)) <==>
      && !(cfg.parkedPeerFullSpeedPct == 0.0 && row.firstPct.GetOr(0.0) == 0.0)
      && !(cfg.parkedPeerMinProbeIntervalMinutes == 0.0 && row.probeFailures >= INFINITE_FROM)
  {
    match GapMs(cfg, row)
    case None =>
    case Some(gap) =>
      var now := row.lastProbeAt.value + (gap.Floor + 1);
      assert IsDue(cfg, row, now);
  }

  // The two inputs. With a minimum interval of 0 an unanswered peer whose cap is a
  // number is due at every tick until it has failed 1024 times, and then never.
  lemma NoMinimumRunsOut(cfg: Config, row: ParkedRow, now: int)
    requires cfg.Legal() && cfg.parkedPeerMinProbeIntervalMinutes == 0.0 && row.lastProbeAt.Some?
    requires row.firstPct.GetOr(0.0) >= 0.0 && row.lastProbeAt.value <= now
    requires cfg.parkedPeerFullSpeedPct > 0.0 || row.firstPct.GetOr(0.0) > 0.0
    ensures IsDue(cfg, row, now) <==> row.probeFailures < INFINITE_FROM
  {
    if cfg.parkedPeerFullSpeedPct > 0.0 { BetterRecordsAreKnockedOnSooner(cfg, row.firstPct, row.firstPct); }
    if row.probeFailures < INFINITE_FROM { NothingTimes(row.probeFailures); }
  }

  lemma NothingTimes(failures: nat)
    ensures Backoff(0.0, failures) == 0.0
  {
  }

  lemma NoRecordAtFullSpeedZero(cfg: Config, row: ParkedRow, now: int)
    requires cfg.parkedPeerFullSpeedPct == 0.0 && row.firstPct.GetOr(0.0) == 0.0 && row.lastProbeAt.Some?
    ensures !IsDue(cfg, row, now)
  {
  }

  // A better record buys more of everything: a longer grace and a longer memory.
  lemma BetterRecordsLastLonger(cfg: Config, a: Option<real>, b: Option<real>)
    requires cfg.Legal() && a.GetOr(0.0) <= b.GetOr(0.0)
    ensures OfflineGraceMs(cfg, a) <= OfflineGraceMs(cfg, b)
    ensures ParkedRetentionMs(cfg, a) <= ParkedRetentionMs(cfg, b)
  {
    GraceGrows(cfg, a, b);
    RetentionGrows(cfg, a, b);
  }

  lemma GraceGrows(cfg: Config, a: Option<real>, b: Option<real>)
    requires 0.0 <= cfg.offlineGraceHoursPerPct && a.GetOr(0.0) <= b.GetOr(0.0)
    ensures OfflineGraceMs(cfg, a) <= OfflineGraceMs(cfg, b)
  {
    Bought(a.GetOr(0.0), b.GetOr(0.0), cfg.offlineGraceHoursPerPct, cfg.offlineGraceMinHours, cfg.offlineGraceMaxHours, HOUR_MS);
  }

  lemma RetentionGrows(cfg: Config, a: Option<real>, b: Option<real>)
    requires 0.0 <= cfg.parkedPeerRetentionDaysPerPct && a.GetOr(0.0) <= b.GetOr(0.0)
    ensures ParkedRetentionMs(cfg, a) <= ParkedRetentionMs(cfg, b)
  {
    Bought(a.GetOr(0.0), b.GetOr(0.0), cfg.parkedPeerRetentionDaysPerPct,
           cfg.parkedPeerMinRetentionDays, cfg.parkedPeerMaxRetentionDays, DAY_MS);
  }

  lemma Bought(x: real, y: real, price: real, least: real, most: real, unit: real)
    requires x <= y && 0.0 <= price && 0.0 < unit
    ensures Min(most, Max(least, x * price)) * unit <= Min(most, Max(least, y * price)) * unit
  {
    ScaledInOrder(x, y, price);
    Clamped(least, most, x * price, y * price);
    ScaledInOrder(Min(most, Max(least, x * price)), Min(most, Max(least, y * price)), unit);
  }

  lemma Clamped(least: real, most: real, u: real, v: real)
    requires u <= v
    ensures Min(most, Max(least, u)) <= Min(most, Max(least, v))
  {
  }

  lemma ScaledInOrder(x: real, y: real, k: real)
    requires x <= y && 0.0 <= k
    ensures x * k <= y * k
  {
  }

  // ---- What a record buys, in the settings ------------------------------------------

  // A time is long enough if it is the most there is to buy, or both the least
  // and what the record buys.
  ghost predicate LastsLongEnough(time: real, least: real, most: real, bought: real, unit: real) {
    time >= most * unit || (time >= least * unit && time >= bought * unit)
  }

  // A time is within what is bought if it is within the most, and within the
  // least or what the record buys.
  ghost predicate IsWithin(time: real, least: real, most: real, bought: real, unit: real) {
    time <= most * unit && (time <= least * unit || time <= bought * unit)
  }

  lemma ClampedOrder(time: real, least: real, most: real, bought: real, unit: real)
    requires unit > 0.0
    ensures time >= Min(most, Max(least, bought)) * unit <==> LastsLongEnough(time, least, most, bought, unit)
    ensures time <= Min(most, Max(least, bought)) * unit <==> IsWithin(time, least, most, bought, unit)
  {
    if least <= bought { ScaledInOrder(least, bought, unit); } else { ScaledInOrder(bought, least, unit); }
    if most <= Max(least, bought) {
      ScaledInOrder(most, Max(least, bought), unit);
    } else {
      ScaledInOrder(Max(least, bought), most, unit);
    }
  }

  // Hours of grace for every per cent of blocks brought first, between the bounds.
  ghost predicate GraceIsUp(cfg: Config, firstPct: Option<real>, ms: int) {
    LastsLongEnough(ms as real, cfg.offlineGraceMinHours, cfg.offlineGraceMaxHours,
                    firstPct.GetOr(0.0) * cfg.offlineGraceHoursPerPct, 3600000.0)
  }

  lemma GraceIsOver(cfg: Config, firstPct: Option<real>, ms: int)
    ensures ms as real >= OfflineGraceMs(cfg, firstPct) <==> GraceIsUp(cfg, firstPct, ms)
  {
    ClampedOrder(ms as real, cfg.offlineGraceMinHours, cfg.offlineGraceMaxHours,
                 firstPct.GetOr(0.0) * cfg.offlineGraceHoursPerPct, 3600000.0);
  }

  // Days of memory for every per cent, between the bounds.
  ghost predicate IsRemembered(cfg: Config, firstPct: Option<real>, ms: int) {
    IsWithin(ms as real, cfg.parkedPeerMinRetentionDays, cfg.parkedPeerMaxRetentionDays,
             firstPct.GetOr(0.0) * cfg.parkedPeerRetentionDaysPerPct, 86400000.0)
  }

  lemma RetentionLasts(cfg: Config, firstPct: Option<real>, ms: int)
    ensures ms as real <= ParkedRetentionMs(cfg, firstPct) <==> IsRemembered(cfg, firstPct, ms)
  {
    ClampedOrder(ms as real, cfg.parkedPeerMinRetentionDays, cfg.parkedPeerMaxRetentionDays,
                 firstPct.GetOr(0.0) * cfg.parkedPeerRetentionDaysPerPct, 86400000.0);
  }

  // Between the bounds the record buys exactly its price.
  lemma RecordBuysTime(cfg: Config, firstPct: Option<real>)
    ensures var hours := firstPct.GetOr(0.0) * cfg.offlineGraceHoursPerPct;
      cfg.offlineGraceMinHours <= hours <= cfg.offlineGraceMaxHours ==> OfflineGraceMs(cfg, firstPct) == hours * 3600000.0
    ensures var days := firstPct.GetOr(0.0) * cfg.parkedPeerRetentionDaysPerPct;
      cfg.parkedPeerMinRetentionDays <= days <= cfg.parkedPeerMaxRetentionDays ==>
        ParkedRetentionMs(cfg, firstPct) == days * 86400000.0
  {
    var hours, days := firstPct.GetOr(0.0) * cfg.offlineGraceHoursPerPct, firstPct.GetOr(0.0) * cfg.parkedPeerRetentionDaysPerPct;
    assert OfflineGraceMs(cfg, firstPct) == Min(cfg.offlineGraceMaxHours, Max(cfg.offlineGraceMinHours, hours)) * HOUR_MS;
    assert ParkedRetentionMs(cfg, firstPct) == Min(cfg.parkedPeerMaxRetentionDays, Max(cfg.parkedPeerMinRetentionDays, days)) * DAY_MS;
  }

  // ---- How long between two knocks ----------------------------------------------------

  // Every failure doubles the gap, up to the cap: this fixes it for any number.
  lemma FailuresDoubleTheGap(cfg: Config, row: ParkedRow, cap: real)
    requires cfg.Legal() && ProbeIntervalCapMs(cfg, row.firstPct) == Some(cap) && cap >= 0.0
    ensures row.probeFailures == 0 ==>
      GapMs(cfg, row) == Some(Min(cap, cfg.parkedPeerMinProbeIntervalMinutes * 60000.0))
    ensures row.probeFailures + 1 < 1024 ==>
      GapMs(cfg, row).Some? &&
      GapMs(cfg, row.(probeFailures := row.probeFailures + 1)) == Some(Min(cap, 2.0 * GapMs(cfg, row).value))
    ensures row.probeFailures >= 1024 && cfg.parkedPeerMinProbeIntervalMinutes > 0.0 ==> GapMs(cfg, row) == Some(cap)
  {
    if row.probeFailures + 1 < 1024 {
      BackoffDoubles(cfg.parkedPeerMinProbeIntervalMinutes * 60000.0, row.probeFailures);
    }
  }

  lemma BackoffDoubles(shortest: real, failures: nat)
    ensures Backoff(shortest, 0) == shortest
    ensures Backoff(shortest, failures + 1) == 2.0 * Backoff(shortest, failures)
    ensures shortest >= 0.0 ==> Backoff(shortest, failures) >= 0.0
  {
    var d := Doubled(failures);
    assert shortest * (2.0 * d) == 2.0 * (shortest * d);
    if shortest >= 0.0 { Scaled(shortest, 0.0, d); }
  }

  // The cap runs in a straight line from the slow interval at no record to the fast
  // one at the full-speed record, and stays there.
  lemma CapIsALine(cfg: Config, firstPct: Option<real>, cap: real)
    requires cfg.Legal() && cfg.parkedPeerFullSpeedPct > 0.0 && ProbeIntervalCapMs(cfg, firstPct) == Some(cap)
    ensures var pct, full := firstPct.GetOr(0.0), cfg.parkedPeerFullSpeedPct;
      var fast, slow := cfg.parkedPeerMaxProbeIntervalHours * 3600000.0, cfg.parkedPeerSlowProbeIntervalHours * 3600000.0;
      && (pct >= full ==> cap == fast)
      && (pct <= full ==> cap * full == slow * full + (fast - slow) * pct)
  {
    var pct, full := firstPct.GetOr(0.0), cfg.parkedPeerFullSpeedPct;
    var fast, slow := cfg.parkedPeerMaxProbeIntervalHours * HOUR_MS, cfg.parkedPeerSlowProbeIntervalHours * HOUR_MS;
    ShareOf(pct, full, pct / full);
    if pct >= full {
      assert cap == Slide(fast, slow, 1.0);
    } else {
      OnTheLine(fast - slow, slow, pct / full, pct, full);
    }
  }

  lemma ShareOf(pct: real, full: real, q: real)
    requires full > 0.0 && q == pct / full
    ensures q * full == pct && (q >= 1.0 <==> pct >= full) && (q <= 1.0 <==> pct <= full)
  {
  }

  lemma OnTheLine(gap: real, slow: real, q: real, pct: real, full: real)
    requires q * full == pct
    ensures (slow + gap * q) * full == slow * full + gap * pct
  {
    assert gap * q * full == gap * (q * full);
  }
}
