/**
 * src/lib/peer-rotation/parking.js: which parked peers a tick knocks on, and
 * that nobody who is due waits for ever.
 */
module ParkedQueue {
  import opened Wrappers
  import opened Settings
  import opened PeerTables
  import opened Rules

  type Parked = map<Address, ParkedRow>

  // DELETE FROM parked_peer WHERE parked_at < now - retention
  function Retained(cfg: Config, parked: Parked, now: int): Parked {
    map a | a in parked && !((parked[a].parkedAt as real) < now as real - ParkedRetentionMs(cfg, parked[a].firstPct)) :: parked[a]
  }

  // ORDER BY last_probe_at IS NOT NULL, last_probe_at ASC
  predicate NotAfter(a: ParkedRow, b: ParkedRow) {
    match (a.lastProbeAt, b.lastProbeAt)
    case (None, _) => true
    case (Some(_), None) => false
    case (Some(x), Some(y)) => x <= y
  }

  ghost predicate IsProbeOrder(order: seq<Address>, parked: Parked) {
    && (forall a :: a in order <==> a in parked)
    && (forall i, j :: 0 <= i < j < |order| ==> order[i] != order[j])
    && (forall i, j :: 0 <= i < j < |order| ==> NotAfter(parked[order[i]], parked[order[j]]))
  }

  function DueSet(cfg: Config, parked: Parked, now: int): set<Address> {
    set a | a in parked && IsDue(cfg, parked[a], now)
  }

  // Due first, then the few per tick.
  function DueIn(order: seq<Address>, due: set<Address>): (r: seq<Address>)
    ensures forall a :: a in r <==> a in order && a in due
    ensures (forall i, j :: 0 <= i < j < |order| ==> order[i] != order[j]) ==>
      forall i, j :: 0 <= i < j < |r| ==> r[i] != r[j]
  {
    if |order| == 0 then []
    else
      var rest := DueIn(order[1..], due);
      if order[0] in due then [order[0]] + rest else rest
  }

  function FirstOf(s: seq<Address>, k: nat): seq<Address> { if |s| <= k then s else s[..k] }

  function Probed(k: nat, order: seq<Address>, due: set<Address>): seq<Address> { FirstOf(DueIn(order, due), k) }

  // One tick knocks on k of the due ones, stamps or takes out whom it knocked
  // on, and leaves everybody else alone.
  ghost predicate Knocks(k: nat, kept: Parked, due: set<Address>, after: Parked, order: seq<Address>, now: int) {
    && IsProbeOrder(order, kept)
    && (forall a :: a in after ==> a in kept)
    && (forall a :: a in kept && a !in Probed(k, order, due) ==> a in after && after[a] == kept[a])
    && (forall a :: a in after && a in Probed(k, order, due) ==> after[a].lastProbeAt == Some(now))
  }

  // The expired are forgotten first.
  ghost predicate ProbeTick(cfg: Config, before: Parked, after: Parked, order: seq<Address>, now: int) {
    var kept := Retained(cfg, before, now);
    Knocks(cfg.parkedPeerProbesPerTick, kept, DueSet(cfg, kept, now), after, order, now)
  }

  // ---- Nobody starves ------------------------------------------------------

  // Everyone who may be knocked on before p.
  ghost function Ahead(parked: Parked, p: Address): set<Address>
    requires p in parked
  {
    set q | q in parked && q != p && NotAfter(parked[q], parked[p])
  }

  ghost predicate InThePast(row: ParkedRow, now: int) {
    match row.lastProbeAt
    case None => true
    case Some(last) => last < now
  }

  // Sorted input, sorted output: whoever comes before p in the due list is ahead of it.
  lemma {:induction false} DueKeepsOrder(parked: Parked, order: seq<Address>, due: set<Address>)
    requires forall a :: a in order ==> a in parked
    requires forall i, j :: 0 <= i < j < |order| ==> NotAfter(parked[order[i]], parked[order[j]])
    ensures forall i, j :: 0 <= i < j < |DueIn(order, due)| ==>
      NotAfter(parked[DueIn(order, due)[i]], parked[DueIn(order, due)[j]])
  {
    if |order| > 0 {
      var all, rest := DueIn(order, due), DueIn(order[1..], due);
      DueKeepsOrder(parked, order[1..], due);
      forall i, j | 0 <= i < j < |all| ensures NotAfter(parked[all[i]], parked[all[j]]) {
        if order[0] in due {
          assert all[j] == rest[j - 1];
          if i == 0 {
            assert rest[j - 1] in order[1..];
            var n :| 1 <= n < |order| && order[n] == all[j];
          } else {
            assert all[i] == rest[i - 1];
          }
        }
      }
    }
  }

  lemma {:induction false} DistinctCount(s: seq<Address>)
    requires forall i, j :: 0 <= i < j < |s| ==> s[i] != s[j]
    ensures |set a | a in s| == |s|
  {
    if |s| > 0 {
      var front, last := s[..|s| - 1], s[|s| - 1];
      assert s == front + [last];
      DistinctCount(front);
      assert (set a | a in s) == (set a | a in front) + {last};
      assert last !in front;
    }
  }

  // Everyone knocked on instead of p was ahead of it.
  lemma KnockedOnWereAhead(k: nat, kept: Parked, due: set<Address>, order: seq<Address>, p: Address)
    requires IsProbeOrder(order, kept) && p in kept && p in due && p !in Probed(k, order, due)
    ensures (set a | a in Probed(k, order, due)) <= Ahead(kept, p)
    ensures |set a | a in Probed(k, order, due)| == k
  {
    var list := DueIn(order, due);
    assert p in list;
    assert |list| > k && Probed(k, order, due) == list[..k];
    var at :| 0 <= at < |list| && list[at] == p;
    forall j | 0 <= j < k ensures list[j] != p { assert list[..k][j] == list[j]; }
    DueKeepsOrder(kept, order, due);
    DistinctCount(list[..k]);
    forall q | q in list[..k] ensures q in Ahead(kept, p) {
      var i :| 0 <= i < k && list[i] == q;
      assert NotAfter(kept[list[i]], kept[list[at]]);
    }
  }

  // A due peer that is passed over sees k others go from ahead of it to behind
  // it, and nobody come the other way.
  lemma PassedOverMovesUp(k: nat, kept: Parked, due: set<Address>, after: Parked, order: seq<Address>, now: int, p: Address)
    requires Knocks(k, kept, due, after, order, now)
    requires p in kept && p in due && InThePast(kept[p], now) && p !in Probed(k, order, due)
    ensures p in after && after[p] == kept[p]
    ensures |Ahead(after, p)| + k <= |Ahead(kept, p)|
  {
    var gone := set a | a in Probed(k, order, due);
    KnockedOnWereAhead(k, kept, due, order, p);
    assert forall q :: q in after && q in gone ==> after[q].lastProbeAt == Some(now);
    forall q | q in Ahead(after, p) ensures q in Ahead(kept, p) - gone {
    }
    Subset(Ahead(after, p), Ahead(kept, p) - gone);
    assert |Ahead(kept, p) - gone| == |Ahead(kept, p)| - |gone|;
  }

  lemma ForgettingOnlyHelps(before: Parked, kept: Parked, p: Address)
    requires p in kept && (forall a :: a in kept ==> a in before && kept[a] == before[a])
    ensures |Ahead(kept, p)| <= |Ahead(before, p)|
  {
    Subset(Ahead(kept, p), Ahead(before, p));
  }

  lemma {:induction false} Subset(a: set<Address>, b: set<Address>)
    requires a <= b
    ensures |a| <= |b|
  {
    if a != {} {
      var x :| x in a;
      Subset(a - {x}, b - {x});
    }
  }

  // One tick of a run: the table it found, the order it read it in, its time.
  datatype Tick = Tick(order: seq<Address>, now: int)

  ghost predicate ProbeRun(cfg: Config, tables: seq<Parked>, ticks: seq<Tick>) {
    && |tables| == |ticks| + 1
    && (forall t :: 0 <= t < |ticks| ==> ProbeTick(cfg, tables[t], tables[t + 1], ticks[t].order, ticks[t].now))
    && (forall t, u :: 0 <= t < u < |ticks| ==> ticks[t].now < ticks[u].now)
  }

  // The tick knocks on p, or forgets it because its retention ran out.
  ghost predicate Served(cfg: Config, table: Parked, tick: Tick, p: Address) {
    var kept := Retained(cfg, table, tick.now);
    p !in kept || p in Probed(cfg.parkedPeerProbesPerTick, tick.order, DueSet(cfg, kept, tick.now))
  }

  lemma PassedOverOnce(cfg: Config, before: Parked, after: Parked, tick: Tick, p: Address)
    requires ProbeTick(cfg, before, after, tick.order, tick.now) && !Served(cfg, before, tick, p)
    requires p in before && IsDue(cfg, before[p], tick.now) && InThePast(before[p], tick.now)
    ensures p in after && after[p] == before[p]
    ensures |Ahead(after, p)| + cfg.parkedPeerProbesPerTick <= |Ahead(before, p)|
  {
    var kept := Retained(cfg, before, tick.now);
    PassedOverMovesUp(cfg.parkedPeerProbesPerTick, kept, DueSet(cfg, kept, tick.now), after, tick.order, tick.now, p);
    ForgettingOnlyHelps(before, kept, p);
  }

  // Due since `start`, and still so.
  ghost predicate Waiting(cfg: Config, row: ParkedRow, start: int) { IsDue(cfg, row, start) && InThePast(row, start) }

  lemma WaitingGoesOn(cfg: Config, row: ParkedRow, start: int, now: int)
    requires Waiting(cfg, row, start) && start <= now
    ensures IsDue(cfg, row, now) && InThePast(row, now)
  {
    DueStaysDue(cfg, row, start, now);
  }

  lemma {:induction false} PassedOverSoFar(cfg: Config, tables: seq<Parked>, ticks: seq<Tick>, p: Address, start: int, t: nat)
    requires ProbeRun(cfg, tables, ticks) && t <= |ticks|
    requires p in tables[0] && Waiting(cfg, tables[0][p], start)
    requires forall u :: 0 <= u < |ticks| ==> start <= ticks[u].now
    requires forall u :: 0 <= u < t ==> !Served(cfg, tables[u], ticks[u], p)
    ensures p in tables[t] && tables[t][p] == tables[0][p]
    ensures |Ahead(tables[t], p)| + t * cfg.parkedPeerProbesPerTick <= |Ahead(tables[0], p)|
  {
    if t > 0 {
      PassedOverSoFar(cfg, tables, ticks, p, start, t - 1);
      WaitingGoesOn(cfg, tables[0][p], start, ticks[t - 1].now);
      assert tables[t - 1 + 1] == tables[t];
      PassedOverOnce(cfg, tables[t - 1], tables[t], ticks[t - 1], p);
      OneMore(t - 1, cfg.parkedPeerProbesPerTick);
    }
  }

  lemma OneMore(t: nat, k: nat)
    ensures (t + 1) * k == t * k + k
  {
  }

  // With k >= 1 knocks a tick, time moving forward and no peer newly parked,
  // every due parked peer is knocked on within ceil(n / k) ticks, n being the
  // number of parked peers - or is forgotten because its retention ran out.
  lemma NobodyStarves(cfg: Config, tables: seq<Parked>, ticks: seq<Tick>, p: Address)
    requires ProbeRun(cfg, tables, ticks) && |ticks| > 0
    requires p in tables[0] && IsDue(cfg, tables[0][p], ticks[0].now) && InThePast(tables[0][p], ticks[0].now)
    requires |tables[0]| <= |ticks| * cfg.parkedPeerProbesPerTick
    ensures exists t :: 0 <= t < |ticks| && Served(cfg, tables[t], ticks[t], p)
  {
    AheadIsFewer(tables[0], p);
    if forall t :: 0 <= t < |ticks| ==> !Served(cfg, tables[t], ticks[t], p) {
      PassedOverSoFar(cfg, tables, ticks, p, ticks[0].now, |ticks|);
      assert false;
    }
  }

  lemma AheadIsFewer(parked: Parked, p: Address)
    requires p in parked
    ensures |Ahead(parked, p)| < |parked|
  {
    Subset(Ahead(parked, p), parked.Keys - {p});
    assert |parked.Keys - {p}| == |parked| - 1;
  }

  // ---- Who is forgotten and who is knocked on ------------------------------------------

  // A parked peer is forgotten once it has been parked for longer than its record
  // buys: days for every per cent of blocks brought first, between the bounds.
  lemma ForgottenIff(cfg: Config, parked: Parked, now: int, a: Address)
    requires a in parked
    ensures a in Retained(cfg, parked, now) <==>
      IsRemembered(cfg, parked[a].firstPct, now - parked[a].parkedAt)
    ensures a in Retained(cfg, parked, now) ==> Retained(cfg, parked, now)[a] == parked[a]
  {
    RetainedIff(cfg, parked, now, a);
    RetentionLasts(cfg, parked[a].firstPct, now - parked[a].parkedAt);
  }

  lemma RetainedIff(cfg: Config, parked: Parked, now: int, a: Address)
    requires a in parked
    ensures a in Retained(cfg, parked, now) <==>
      (now - parked[a].parkedAt) as real <= ParkedRetentionMs(cfg, parked[a].firstPct)
    ensures a in Retained(cfg, parked, now) ==> Retained(cfg, parked, now)[a] == parked[a]
  {
  }

  lemma {:induction false} DueInParts(a: seq<Address>, b: seq<Address>, due: set<Address>)
    ensures DueIn(a + b, due) == DueIn(a, due) + DueIn(b, due)
  {
    if |a| == 0 {
      assert a + b == b;
    } else {
      assert (a + b)[1..] == a[1..] + b;
      DueInParts(a[1..], b, due);
    }
  }

  // Knocked on is whoever is due with fewer than k others due before it.
  lemma ProbedIff(k: nat, order: seq<Address>, due: set<Address>, i: nat)
    requires i < |order| && forall m, n :: 0 <= m < n < |order| ==> order[m] != order[n]
    ensures order[i] in Probed(k, order, due) <==> order[i] in due && |set a | a in order[..i] && a in due| < k
  {
    var before, behind := DueIn(order[..i], due), DueIn(order[i..], due);
    assert order == order[..i] + order[i..];
    DueInParts(order[..i], order[i..], due);
    DistinctCount(before);
    assert (set a | a in before) == set a | a in order[..i] && a in due;
    if order[i] in due { FrontOf(before, behind, order[i], k); }
  }

  // The first of the second part is within the front exactly if the first part leaves room.
  lemma FrontOf(before: seq<Address>, behind: seq<Address>, a: Address, k: nat)
    requires |behind| > 0 && behind[0] == a && a !in before && a !in behind[1..]
    ensures a in FirstOf(before + behind, k) <==> |before| < k
  {
    var all, front := before + behind, FirstOf(before + behind, k);
    assert all[|before|] == a;
    assert forall i :: |before| < i < |all| ==> all[i] == behind[1..][i - |before| - 1];
    if |before| < k { assert front[|before|] == a; }
    if a in front {
      var j :| 0 <= j < |front| && front[j] == a;
      assert all[j] == a;
    }
  }

  // Due is who was never knocked on, or not for as long as its gap; a gap that is
  // no number never passes.
  lemma DueAfterTheGap(cfg: Config, parked: Parked, now: int, a: Address)
    ensures a in DueSet(cfg, parked, now) <==>
      a in parked && (parked[a].lastProbeAt.None?
        || exists gap :: GapMs(cfg, parked[a]) == Some(gap) && parked[a].lastProbeAt.value as real + gap <= now as real)
  {
  }
}
