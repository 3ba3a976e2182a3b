/**
 * The last N races, kept two ways: src/lib/queries/peer-ranking.js caches the
 * per-peer counts under the newest race and its row count, and
 * scripts/backtest-score.js slides a window along the history. Both are held to
 * a recount of the newest N races.
 */
module RecentWindow {
  import opened Basics
  import opened Wrappers

  type PeerId = nat

  datatype Row = Row(peer: PeerId, first: bool)

  datatype Tally = Tally(eligible: int, first: int)
  {
    function Plus(other: Tally): Tally { Tally(eligible + other.eligible, first + other.first) }
    function Minus(other: Tally): Tally { Tally(eligible - other.eligible, first - other.first) }
  }

  const NOTHING := Tally(0, 0)

  type Race = seq<Row>

  function One(row: Row, p: PeerId): Tally {
    if row.peer == p then Tally(1, if row.first then 1 else 0) else NOTHING
  }

  function InRace(race: Race, p: PeerId): Tally {
    if |race| == 0 then NOTHING else One(race[0], p).Plus(InRace(race[1..], p))
  }

  function InRaces(races: seq<Race>, p: PeerId): Tally {
    if |races| == 0 then NOTHING else InRace(races[0], p).Plus(InRaces(races[1..], p))
  }

  function CountIn(m: map<PeerId, Tally>, p: PeerId): Tally { if p in m then m[p] else NOTHING }

  // The counts of exactly these races: no more, and nothing for an absent peer.
  ghost predicate Counts(m: map<PeerId, Tally>, races: seq<Race>) { forall p: PeerId :: CountsAt(m, races, p) }

  ghost predicate CountsAt(m: map<PeerId, Tally>, races: seq<Race>, p: PeerId) {
    CountIn(m, p) == InRaces(races, p) && (p in m <==> InRaces(races, p).eligible > 0)
  }

  lemma {:induction false} InRaceBounds(race: Race, p: PeerId)
    ensures 0 <= InRace(race, p).first <= InRace(race, p).eligible
  {
    if |race| > 0 { InRaceBounds(race[1..], p); }
  }

  lemma {:induction false} InRacesBounds(races: seq<Race>, p: PeerId)
    ensures 0 <= InRaces(races, p).first <= InRaces(races, p).eligible
  {
    if |races| > 0 {
      InRaceBounds(races[0], p);
      InRacesBounds(races[1..], p);
    }
  }

  lemma {:induction false} InRacesAppend(races: seq<Race>, race: Race, p: PeerId)
    ensures InRaces(races + [race], p) == InRaces(races, p).Plus(InRace(race, p))
  {
    if |races| == 0 {
      assert races + [race] == [race];
    } else {
      assert (races + [race])[1..] == races[1..] + [race];
      InRacesAppend(races[1..], race, p);
    }
  }

  // ---- The backtest's incremental counters ----------------------------------------

  function Bumped(m: map<PeerId, Tally>, row: Row, sign: int): map<PeerId, Tally> {
    var c := CountIn(m, row.peer);
    Put(m, row.peer, Tally(c.eligible + sign, if row.first then c.first + sign else c.first))
  }

  // An entry that has come back to nothing is deleted.
  function Put(m: map<PeerId, Tally>, p: PeerId, t: Tally): map<PeerId, Tally> {
    if t == NOTHING then m - {p} else m[p := t]
  }

  // Partway through adding or taking away a race.
  ghost predicate CountsWith(m: map<PeerId, Tally>, races: seq<Race>, part: Race, sign: int) {
    forall p: PeerId :: CountsWithAt(m, races, part, sign, p)
  }

  ghost predicate CountsWithAt(m: map<PeerId, Tally>, races: seq<Race>, part: Race, sign: int, p: PeerId) {
    CountIn(m, p) == Shifted(InRaces(races, p), InRace(part, p), sign) && (p in m <==> CountIn(m, p) != NOTHING)
  }

  function Shifted(t: Tally, amount: Tally, sign: int): Tally { if sign == 1 then t.Plus(amount) else t.Minus(amount) }

  lemma {:induction false} InRaceAppend(part: Race, row: Row, p: PeerId)
    ensures InRace(part + [row], p) == InRace(part, p).Plus(One(row, p))
  {
    if |part| == 0 {
      assert part + [row] == [row];
    } else {
      assert (part + [row])[1..] == part[1..] + [row];
      InRaceAppend(part[1..], row, p);
    }
  }

  lemma BumpCounts(m: map<PeerId, Tally>, races: seq<Race>, part: Race, row: Row, sign: int)
    requires sign == 1 || sign == -1
    requires CountsWith(m, races, part, sign)
    ensures CountsWith(Bumped(m, row, sign), races, part + [row], sign)
  {
    var after := Bumped(m, row, sign);
    forall p: PeerId ensures CountsWithAt(after, races, part + [row], sign, p) {
      assert CountsWithAt(m, races, part, sign, p);
      if p == row.peer {
        BumpedHere(m, row, sign);
      } else {
        BumpedElsewhere(m, row, sign, p);
        ShiftedByNothing(CountIn(m, p), sign);
      }
      BumpAt(m, after, races, part, row, sign, p);
    }
  }

  lemma BumpAt(m: map<PeerId, Tally>, after: map<PeerId, Tally>, races: seq<Race>, part: Race, row: Row, sign: int, p: PeerId)
    requires sign == 1 || sign == -1
    requires CountsWithAt(m, races, part, sign, p)
    requires CountIn(after, p) == Shifted(CountIn(m, p), One(row, p), sign)
    requires p in after <==> CountIn(after, p) != NOTHING
    ensures CountsWithAt(after, races, part + [row], sign, p)
  {
    InRaceAppend(part, row, p);
    ShiftedTwice(InRaces(races, p), InRace(part, p), One(row, p), sign);
  }

  lemma BumpedHere(m: map<PeerId, Tally>, row: Row, sign: int)
    requires sign == 1 || sign == -1
    ensures CountIn(Bumped(m, row, sign), row.peer) == Shifted(CountIn(m, row.peer), One(row, row.peer), sign)
    ensures row.peer in Bumped(m, row, sign) <==> CountIn(Bumped(m, row, sign), row.peer) != NOTHING
  {
    var c := CountIn(m, row.peer);
    PutHere(m, row.peer, Tally(c.eligible + sign, if row.first then c.first + sign else c.first));
  }

  lemma PutHere(m: map<PeerId, Tally>, p: PeerId, t: Tally)
    ensures CountIn(Put(m, p, t), p) == t && (p in Put(m, p, t) <==> t != NOTHING)
  {
  }

  lemma BumpedElsewhere(m: map<PeerId, Tally>, row: Row, sign: int, p: PeerId)
    requires p != row.peer
    ensures CountIn(Bumped(m, row, sign), p) == CountIn(m, p)
    ensures p in Bumped(m, row, sign) <==> p in m
  {
    var c := CountIn(m, row.peer);
    PutElsewhere(m, row.peer, Tally(c.eligible + sign, if row.first then c.first + sign else c.first), p);
  }

  lemma ShiftedByNothing(t: Tally, sign: int)
    ensures Shifted(t, NOTHING, sign) == t
  {
  }

  lemma PutElsewhere(m: map<PeerId, Tally>, p: PeerId, t: Tally, other: PeerId)
    requires other != p
    ensures CountIn(Put(m, p, t), other) == CountIn(m, other) && (other in Put(m, p, t) <==> other in m)
  {
  }

  lemma ShiftedTwice(t: Tally, amount: Tally, more: Tally, sign: int)
    ensures Shifted(Shifted(t, amount, sign), more, sign) == Shifted(t, amount.Plus(more), sign)
  {
  }

  lemma StartsFromCounts(m: map<PeerId, Tally>, races: seq<Race>, sign: int)
    requires Counts(m, races)
    ensures CountsWith(m, races, [], sign)
  {
    forall p: PeerId ensures CountsWithAt(m, races, [], sign, p) { StartsAt(m, races, sign, p); }
  }

  lemma StartsAt(m: map<PeerId, Tally>, races: seq<Race>, sign: int, p: PeerId)
    requires CountsAt(m, races, p)
    ensures CountsWithAt(m, races, [], sign, p)
  {
    InRacesBounds(races, p);
    assert InRace([], p) == NOTHING;
  }

  class Backtest {
    const WINDOW: nat
    var life: map<PeerId, Tally>
    var win: map<PeerId, Tally>
    var ring: seq<Race>

    constructor (window: nat)
      ensures WINDOW == window && life == map[] && win == map[] && ring == []
    {
      WINDOW, life, win, ring := window, map[], map[], [];
    }

    method Bump(m: map<PeerId, Tally>, race: Race, sign: int, ghost races: seq<Race>) returns (after: map<PeerId, Tally>)
      requires sign == 1 || sign == -1
      requires Counts(m, races)
      ensures CountsWith(after, races, race, sign)
    {
      after := m;
      StartsFromCounts(m, races, sign);
      var i := 0;
      assert race[..0] == [];
      while i < |race|
        invariant 0 <= i <= |race| && CountsWith(after, races, race[..i], sign)
      {
        BumpCounts(after, races, race[..i], race[i], sign);
        assert race[..i + 1] == race[..i] + [race[i]];
        after := Bumped(after, race[i], sign);
        i := i + 1;
      }
      assert race[..i] == race;
    }

    // Fold one race in: lifetime grows, the window slides.
    method FoldIn(race: Race, ghost past: seq<Race>)
      requires Counts(life, past) && ring == Last(past, WINDOW) && Counts(win, ring)
      modifies this
      ensures Counts(life, past + [race])
      ensures ring == Last(past + [race], WINDOW) && Counts(win, ring)
    {
      life := Bump(life, race, 1, past);
      AddedRace(life, past, race);
      win := Bump(win, race, 1, ring);
      AddedRace(win, ring, race);
      ghost var was := ring;
      ring := ring + [race];
      if |ring| > WINDOW {
        var oldest := ring[0];
        win := Bump(win, oldest, -1, ring);
        DroppedRace(win, ring);
        ring := ring[1..];
      }
    }

    method Replay(races: seq<Race>)
      requires life == map[] && win == map[] && ring == []
      modifies this
      ensures Counts(life, races)
      ensures ring == Last(races, WINDOW) && Counts(win, ring)
    {
      var i := 0;
      while i < |races|
        invariant 0 <= i <= |races|
        invariant Counts(life, races[..i]) && ring == Last(races[..i], WINDOW) && Counts(win, ring)
      {
        assert races[..i + 1] == races[..i] + [races[i]];
        FoldIn(races[i], races[..i]);
        i := i + 1;
      }
      assert races[..i] == races;
    }
  }

  lemma AddedRace(m: map<PeerId, Tally>, races: seq<Race>, race: Race)
    requires CountsWith(m, races, race, 1)
    ensures Counts(m, races + [race])
  {
    forall p: PeerId ensures CountsAt(m, races + [race], p) {
      assert CountsWithAt(m, races, race, 1, p);
      AddedAt(m, races, race, p);
    }
  }

  lemma AddedAt(m: map<PeerId, Tally>, races: seq<Race>, race: Race, p: PeerId)
    requires CountsWithAt(m, races, race, 1, p)
    ensures CountsAt(m, races + [race], p)
  {
    var all := InRaces(races + [race], p);
    InRacesAppend(races, race, p);
    InRacesBounds(races + [race], p);
    assert CountIn(m, p) == all;
    SomethingIff(all);
  }

  lemma SomethingIff(t: Tally)
    requires 0 <= t.first <= t.eligible
    ensures t != NOTHING <==> t.eligible > 0
  {
  }

  lemma DroppedRace(m: map<PeerId, Tally>, races: seq<Race>)
    requires |races| > 0 && CountsWith(m, races, races[0], -1)
    ensures Counts(m, races[1..])
  {
    forall p: PeerId ensures CountsAt(m, races[1..], p) {
      assert CountsWithAt(m, races, races[0], -1, p);
      DroppedAt(m, races, p);
    }
  }

  lemma DroppedAt(m: map<PeerId, Tally>, races: seq<Race>, p: PeerId)
    requires |races| > 0 && CountsWithAt(m, races, races[0], -1, p)
    ensures CountsAt(m, races[1..], p)
  {
    var rest := InRaces(races[1..], p);
    InRacesBounds(races[1..], p);
    TakenOff(InRace(races[0], p), rest);
    assert CountIn(m, p) == rest;
  }

  lemma TakenOff(gone: Tally, rest: Tally)
    requires 0 <= rest.first <= rest.eligible
    ensures Shifted(gone.Plus(rest), gone, -1) == rest
    ensures rest != NOTHING <==> rest.eligible > 0
  {
  }

  // ---- The ranking's cache -----------------------------------------------------------

  function PeersOf(race: Race): set<PeerId> {
    if |race| == 0 then {} else {race[0].peer} + PeersOf(race[1..])
  }

  function PeersIn(races: seq<Race>): set<PeerId> {
    if |races| == 0 then {} else PeersOf(races[0]) + PeersIn(races[1..])
  }

  // SELECT peer_id, COUNT(*), SUM(first) ... GROUP BY peer_id
  function GroupByPeer(races: seq<Race>): map<PeerId, Tally> {
    map p | p in PeersIn(races) :: InRaces(races, p)
  }

  lemma {:induction false} PresentInRace(race: Race, p: PeerId)
    ensures p in PeersOf(race) <==> InRace(race, p).eligible > 0
  {
    if |race| > 0 {
      PresentInRace(race[1..], p);
      InRaceBounds(race[1..], p);
    }
  }

  lemma {:induction false} PresentIffCounted(races: seq<Race>, p: PeerId)
    ensures p in PeersIn(races) <==> InRaces(races, p).eligible > 0
  {
    if |races| > 0 {
      PresentIffCounted(races[1..], p);
      PresentInRace(races[0], p);
      InRacesBounds(races[1..], p);
      InRaceBounds(races[0], p);
    }
  }

  lemma GroupingCounts(races: seq<Race>)
    ensures Counts(GroupByPeer(races), races)
  {
    forall p: PeerId ensures CountsAt(GroupByPeer(races), races, p) {
      PresentIffCounted(races, p);
      InRacesBounds(races, p);
    }
  }

  // An append-only past: races only follow, rows only join the newest one.
  ghost predicate Earlier(a: seq<Race>, b: seq<Race>) {
    0 < |a| <= |b| && a[..|a| - 1] == b[..|a| - 1] && a[|a| - 1] <= b[|a| - 1]
  }

  lemma SameHeadSamePast(a: seq<Race>, b: seq<Race>)
    requires Earlier(a, b) && |a| == |b| && |a[|a| - 1]| == |b[|b| - 1]|
    ensures a == b
  {
    var last := |a| - 1;
    assert a[last] == b[last][..|a[last]|] == b[last];
    assert a == a[..last] + [a[last]] && b == b[..last] + [b[last]];
  }

  class RankingWindow {
    const N: nat
    var races: seq<Race>
    var cacheKey: Option<(nat, nat)>           // newest race id, how many rows it holds
    var cache: map<PeerId, Tally>
    ghost var cachedAt: seq<Race>

    ghost predicate Valid()
      reads this
    {
      cacheKey.Some? ==>
        && Earlier(cachedAt, races)
        && cacheKey.value == (|cachedAt|, |cachedAt[|cachedAt| - 1]|)
        && Counts(cache, Last(cachedAt, N))
    }

    constructor (n: nat)
      ensures Valid() && N == n && races == []
    {
      N, races, cacheKey, cache, cachedAt := n, [], None, map[], [];
    }

    method AppendRace(race: Race)
      requires Valid()
      modifies this`races
      ensures Valid() && races == old(races) + [race]
    {
      races := races + [race];
    }

    method AppendRow(row: Row)
      requires Valid() && |races| > 0
      modifies this`races
      ensures Valid() && races == old(races)[|old(races)| - 1 := old(races)[|old(races)| - 1] + [row]]
    {
      races := races[|races| - 1 := races[|races| - 1] + [row]];
    }

    // Whatever was asked before and whatever was appended since.
    method RecentRelayStats() returns (byPeer: map<PeerId, Tally>)
      requires Valid()
      modifies this`cacheKey, this`cache, this`cachedAt
      ensures Valid()
      ensures Counts(byPeer, Last(races, N))
    {
      if |races| == 0 { return map[]; }
      var newest := (|races|, |races[|races| - 1]|);
      if cacheKey == Some(newest) {
        SameHeadSamePast(cachedAt, races);
        return cache;
      }
      byPeer := GroupByPeer(Last(races, N));
      GroupingCounts(Last(races, N));
      cacheKey, cache, cachedAt := Some(newest), byPeer, races;
    }
  }
}
