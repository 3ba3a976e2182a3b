/**
 * Many ticks in a row (src/lib/peer-rotation/index.js): while nobody retires,
 * nobody edits the set and the scores stand still, the rotation comes to rest.
 */
module TickRuns {
  import opened Wrappers
  import opened Settings
  import opened PeerTables
  import opened PeerSync
  import opened Rules
  import opened AddProtocol
  import opened Rotation
  import opened SwapTermination
  import opened Score

  // What one tick found and left, the ranking it went by, and who moved.
  datatype Pass = Pass(was: Tables, later: Tables, ranking: seq<Peer>, score: Address -> real, joined: Option<Address>,
                       out: Option<Peer>)

  // The ranking was taken inside the tick, and both kinds of challenger are
  // measured by the same scores.
  ghost predicate IsPass(cfg: Config, scores: Scores, p: Pass) {
    && Entered(cfg, p.was, p.later, p.ranking, p.score, p.joined, p.out)
    && IsSnapshot(p.ranking, p.was.trusted, scores)
    && (forall a :: a in p.was.parked ==> scores(a) == Some(p.score(a)))
  }

  // Parked rows, stars and records may change between two ticks; the set does not.
  ghost predicate ArePasses(cfg: Config, scores: Scores, passes: seq<Pass>) {
    && (forall i :: 0 <= i < |passes| ==> IsPass(cfg, scores, passes[i]))
    && (forall i :: 0 < i < |passes| ==> passes[i].was.trusted.Keys == passes[i - 1].later.trusted.Keys)
  }

  // A peer that is in already, and let in again, is no move.
  function MovesOf(p: Pass): seq<Move> {
    if p.joined.None? || p.joined.value in p.was.trusted then [] else [MoveOf(p.joined.value, p.out)]
  }

  function AllMoves(passes: seq<Pass>): seq<Move> {
    if |passes| == 0 then [] else MovesOf(passes[0]) + AllMoves(passes[1..])
  }

  function Evictions(passes: seq<Pass>): nat {
    if |passes| == 0 then 0 else (if passes[0].out.Some? then 1 else 0) + Evictions(passes[1..])
  }

  lemma ChallengerScore(cfg: Config, scores: Scores, p: Pass)
    requires IsPass(cfg, scores, p) && p.out.Some?
    ensures p.joined.Some? && p.joined.value !in p.was.trusted
    ensures BeatsHolder(cfg, scores(p.joined.value), p.out.value.score)
  {
    var a := p.joined.value;
    var s :| Offers(cfg, p.was, p.ranking, p.score, a, s) && BeatsHolder(cfg, s, p.out.value.score);
    assert s == scores(a);
  }

  // The moves of one pass are allowed, and lead from its set to the one it left.
  lemma PassMoves(cfg: Config, scores: Scores, p: Pass)
    requires IsPass(cfg, scores, p)
    ensures AllAllowed(cfg, scores, p.was.trusted.Keys, MovesOf(p))
    ensures Hold(p.was.trusted.Keys, MovesOf(p)) == p.later.trusted.Keys
    ensures Displacements(MovesOf(p)) == if p.out.Some? then 1 else 0
  {
    if p.joined.Some? {
      if p.out.Some? { ChallengerScore(cfg, scores, p); }
      if p.joined.value in p.was.trusted {
        assert p.later.trusted.Keys == p.was.trusted.Keys;
      } else {
        JoinIsAMove(cfg, p.was.trusted, p.later.trusted.Keys, p.ranking, scores, p.joined.value, p.out);
        var m := MoveOf(p.joined.value, p.out);
        OneMove(cfg, scores, p.was.trusted.Keys, m);
      }
    }
  }

  lemma OneMove(cfg: Config, scores: Scores, holders: set<Address>, m: Move)
    requires Allowed(cfg, scores, holders, m)
    ensures AllAllowed(cfg, scores, holders, [m]) && Hold(holders, [m]) == After(holders, m)
    ensures Displacements([m]) == if m.Displace? then 1 else 0
  {
    assert [m][1..] == [];
    assert Hold(After(holders, m), []) == After(holders, m);
    assert Displacements([]) == 0;
  }

  lemma {:induction false} MovesJoin(cfg: Config, scores: Scores, holders: set<Address>, a: seq<Move>, b: seq<Move>)
    requires AllAllowed(cfg, scores, holders, a) && AllAllowed(cfg, scores, Hold(holders, a), b)
    ensures AllAllowed(cfg, scores, holders, a + b) && Hold(holders, a + b) == Hold(Hold(holders, a), b)
    decreases |a|
  {
    if |a| == 0 {
      assert a + b == b;
    } else {
      FirstThenRest(a, b);
      MovesJoin(cfg, scores, After(holders, a[0]), a[1..], b);
    }
  }

  lemma FirstThenRest(a: seq<Move>, b: seq<Move>)
    requires |a| > 0
    ensures (a + b)[0] == a[0] && (a + b)[1..] == a[1..] + b
  {
  }

  lemma {:induction false} DisplacementsJoin(a: seq<Move>, b: seq<Move>)
    ensures Displacements(a + b) == Displacements(a) + Displacements(b)
  {
    if |a| == 0 {
      assert a + b == b;
    } else {
      FirstThenRest(a, b);
      DisplacementsJoin(a[1..], b);
    }
  }

  ghost function EndOf(start: set<Address>, passes: seq<Pass>): set<Address> {
    if |passes| == 0 then start else passes[|passes| - 1].later.trusted.Keys
  }

  lemma TailOfPasses(cfg: Config, scores: Scores, passes: seq<Pass>)
    requires ArePasses(cfg, scores, passes) && |passes| > 0
    ensures ArePasses(cfg, scores, passes[1..])
    ensures |passes| > 1 ==> passes[1..][0].was.trusted.Keys == passes[0].later.trusted.Keys
    ensures EndOf(passes[0].later.trusted.Keys, passes[1..]) == EndOf(passes[0].was.trusted.Keys, passes)
  {
    var rest := passes[1..];
    assert forall i :: 0 <= i < |rest| ==> rest[i] == passes[i + 1];
  }

  // A run of ticks is a sequence of allowed moves, one displacement per eviction.
  lemma {:induction false} TicksAreMoves(cfg: Config, scores: Scores, start: set<Address>, passes: seq<Pass>)
    requires ArePasses(cfg, scores, passes) && (|passes| > 0 ==> passes[0].was.trusted.Keys == start)
    ensures AllAllowed(cfg, scores, start, AllMoves(passes))
    ensures Hold(start, AllMoves(passes)) == EndOf(start, passes)
    ensures Displacements(AllMoves(passes)) == Evictions(passes)
    decreases |passes|
  {
    if |passes| > 0 {
      var mid := passes[0].later.trusted.Keys;
      PassMoves(cfg, scores, passes[0]);
      TailOfPasses(cfg, scores, passes);
      TicksAreMoves(cfg, scores, mid, passes[1..]);
      MovesJoin(cfg, scores, start, MovesOf(passes[0]), AllMoves(passes[1..]));
      DisplacementsJoin(MovesOf(passes[0]), AllMoves(passes[1..]));
    }
  }

  // Scores computed from records are percentages.
  ghost predicate FromRecords(cfg: Config, sqrt: real -> real, record: Address -> Record, scores: Scores)
    requires cfg.Legal()
  {
    forall a :: ScoredAt(cfg, sqrt, record, scores, a)
  }

  ghost predicate ScoredAt(cfg: Config, sqrt: real -> real, record: Address -> Record, scores: Scores, a: Address)
    requires cfg.Legal()
  {
    record(a).Counts() && scores(a) == PeerScore(cfg, sqrt, record(a))
  }

  lemma ScoresArePercentages(cfg: Config, sqrt: real -> real, record: Address -> Record, scores: Scores)
    requires cfg.Legal() && IsSqrt(sqrt) && FromRecords(cfg, sqrt, record, scores)
    ensures Percentages(scores)
  {
    forall a | scores(a).Some? ensures 0.0 <= scores(a).value <= 100.0 {
      assert ScoredAt(cfg, sqrt, record, scores, a);
      ScoreIsABlend(cfg, sqrt, record(a));
    }
  }

  // With the records as they stand, over any number of ticks, the evictions times
  // the margin stay within 101 points a slot.
  lemma EvictionsAreBounded(cfg: Config, sqrt: real -> real, record: Address -> Record, scores: Scores, start: set<Address>,
                            passes: seq<Pass>)
    requires cfg.Legal() && IsSqrt(sqrt) && FromRecords(cfg, sqrt, record, scores)
    requires ArePasses(cfg, scores, passes) && (|passes| > 0 ==> passes[0].was.trusted.Keys == start)
    requires |start| <= cfg.maxManualPeers
    ensures Evictions(passes) as real * cfg.minSwapMarginPct <= 101.0 * cfg.maxManualPeers as real
  {
    ScoresArePercentages(cfg, sqrt, record, scores);
    TicksAreMoves(cfg, scores, start, passes);
    MarginsAreBounded(cfg, scores, start, AllMoves(passes));
    EvictionsMultiply(cfg, passes);
  }

  lemma EvictionsMultiply(cfg: Config, passes: seq<Pass>)
    requires cfg.minSwapMarginPct >= 0.0
    requires Margins(cfg.minSwapMarginPct, Evictions(passes)) <= 101.0 * cfg.maxManualPeers as real
    ensures Evictions(passes) as real * cfg.minSwapMarginPct <= 101.0 * cfg.maxManualPeers as real
  {
    AtMost(Evictions(passes), cfg.minSwapMarginPct, 101.0 * cfg.maxManualPeers as real);
  }

  // Once the set has changed it is never again the one it started from.
  lemma TicksDoNotReturn(cfg: Config, sqrt: real -> real, record: Address -> Record, scores: Scores, start: set<Address>,
                         passes: seq<Pass>)
    requires cfg.Legal() && IsSqrt(sqrt) && FromRecords(cfg, sqrt, record, scores)
    requires ArePasses(cfg, scores, passes) && (|passes| > 0 ==> passes[0].was.trusted.Keys == start)
    requires |start| <= cfg.maxManualPeers
    ensures EndOf(start, passes) == start <==> AllMoves(passes) == []
  {
    ScoresArePercentages(cfg, sqrt, record, scores);
    TicksAreMoves(cfg, scores, start, passes);
    if AllMoves(passes) != [] { NoSetComesBack(cfg, scores, start, AllMoves(passes)); }
  }

  // And whatever the margin, with n addresses to draw from the set changes fewer
  // than 2 to the n times.
  lemma TicksStop(cfg: Config, sqrt: real -> real, record: Address -> Record, scores: Scores, start: set<Address>,
                  passes: seq<Pass>, pool: set<Address>)
    requires cfg.Legal() && IsSqrt(sqrt) && FromRecords(cfg, sqrt, record, scores)
    requires ArePasses(cfg, scores, passes) && (|passes| > 0 ==> passes[0].was.trusted.Keys == start)
    requires |start| <= cfg.maxManualPeers && start <= pool
    requires forall i :: 0 <= i < |passes| && passes[i].joined.Some? ==> passes[i].joined.value in pool
    ensures |AllMoves(passes)| < Power2(|pool|)
  {
    ScoresArePercentages(cfg, sqrt, record, scores);
    TicksAreMoves(cfg, scores, start, passes);
    JoinersAreAmong(passes, pool);
    MovesAreFinite(cfg, scores, start, AllMoves(passes), pool);
  }

  lemma {:induction false} JoinersAreAmong(passes: seq<Pass>, pool: set<Address>)
    requires forall i :: 0 <= i < |passes| && passes[i].joined.Some? ==> passes[i].joined.value in pool
    ensures Among(AllMoves(passes), pool)
  {
    if |passes| > 0 {
      assert forall i :: 0 <= i < |passes[1..]| ==> passes[1..][i] == passes[i + 1];
      JoinersAreAmong(passes[1..], pool);
    }
  }

  // A tick that retires nobody is such a pass.
  lemma QuietTickIsAPass(cfg: Config, scores: Scores, rank: Tables -> seq<Peer>, score: Address -> real, was: Tables,
                         later: Tables, joined: Option<Address>, out: Option<Peer>, times: Times)
    requires Retirees(cfg, rank(was), times.retire) == []
    requires var retired := RetireAll(was, Retirees(cfg, rank(was), times.retire), times.parkedAt);
      Entered(cfg, retired, later, rank(retired), score, joined, out)
    requires IsSnapshot(rank(was), was.trusted, scores) && forall a :: a in was.parked ==> scores(a) == Some(score(a))
    ensures IsPass(cfg, scores, Pass(was, later, rank(was), score, joined, out))
  {
    assert RetireAll(was, [], times.parkedAt) == was;
  }
}
