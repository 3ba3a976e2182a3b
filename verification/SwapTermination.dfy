/**
 * What the margin in src/lib/peer-rotation/rules.js buys: between retirements
 * and user edits, with the scores as they stand, displacements run out.
 */
module SwapTermination {
  import opened Wrappers
  import opened Settings
  import opened PeerTables
  import opened Rules

  // The two ways the rotation lets a peer in.
  datatype Move = Fill(joins: Address) | Displace(joins: Address, leaves: Address)

  type Scores = Address -> Option<real>

  ghost predicate Percentages(score: Scores) {
    forall a :: score(a).Some? ==> 0.0 <= score(a).value <= 100.0
  }

  predicate Allowed(cfg: Config, score: Scores, holders: set<Address>, m: Move) {
    match m
    case Fill(joins) => joins !in holders && |holders| < cfg.maxManualPeers
    case Displace(joins, leaves) =>
      joins !in holders && leaves in holders && BeatsHolder(cfg, score(joins), score(leaves))
  }

  function After(holders: set<Address>, m: Move): set<Address> {
    match m
    case Fill(joins) => holders + {joins}
    case Displace(joins, leaves) => holders - {leaves} + {joins}
  }

  function Hold(holders: set<Address>, moves: seq<Move>): set<Address>
    decreases |moves|
  {
    if |moves| == 0 then holders else Hold(After(holders, moves[0]), moves[1..])
  }

  ghost predicate AllAllowed(cfg: Config, score: Scores, holders: set<Address>, moves: seq<Move>)
    decreases |moves|
  {
    |moves| > 0 ==> Allowed(cfg, score, holders, moves[0]) && AllAllowed(cfg, score, After(holders, moves[0]), moves[1..])
  }

  function Displacements(moves: seq<Move>): nat {
    if |moves| == 0 then 0 else (if moves[0].Displace? then 1 else 0) + Displacements(moves[1..])
  }

  // ---- The total that only goes up -------------------------------------------

  ghost function Value(score: Scores, a: Address): real { Worth(score(a)) + 1.0 }

  ghost function Total(score: Scores, holders: set<Address>): real {
    if holders == {} then 0.0
    else
      var a :| a in holders;
      Value(score, a) + Total(score, holders - {a})
  }

  lemma {:induction false} TotalSplits(score: Scores, holders: set<Address>, a: Address)
    requires a in holders
    ensures Total(score, holders) == Value(score, a) + Total(score, holders - {a})
    decreases |holders|
  {
    var b :| b in holders && Total(score, holders) == Value(score, b) + Total(score, holders - {b});
    if b != a {
      TotalSplits(score, holders - {b}, a);
      TotalSplits(score, holders - {a}, b);
      assert holders - {b} - {a} == holders - {a} - {b};
    }
  }

  lemma {:induction false} TotalBounds(score: Scores, holders: set<Address>)
    requires Percentages(score)
    ensures 0.0 <= Total(score, holders) <= 101.0 * |holders| as real
    decreases |holders|
  {
    if holders != {} {
      var a :| a in holders;
      TotalSplits(score, holders, a);
      TotalBounds(score, holders - {a});
    }
  }

  lemma FillRaises(cfg: Config, score: Scores, holders: set<Address>, joins: Address)
    requires Percentages(score) && Allowed(cfg, score, holders, Fill(joins))
    ensures Total(score, After(holders, Fill(joins))) >= Total(score, holders)
    ensures |After(holders, Fill(joins))| == |holders| + 1 <= cfg.maxManualPeers
  {
    var after := holders + {joins};
    TotalSplits(score, after, joins);
    assert after - {joins} == holders;
  }

  // Every displacement raises the total by more than the margin.
  lemma DisplaceRaises(cfg: Config, score: Scores, holders: set<Address>, m: Move)
    requires m.Displace? && Allowed(cfg, score, holders, m)
    ensures Total(score, After(holders, m)) - Total(score, holders) > cfg.minSwapMarginPct
    ensures |After(holders, m)| == |holders|
  {
    var after := After(holders, m);
    TotalSplits(score, holders, m.leaves);
    TotalSplits(score, after, m.joins);
    assert after - {m.joins} == holders - {m.leaves};
  }

  ghost function Gain(cfg: Config, m: Move): real { if m.Displace? then cfg.minSwapMarginPct else 0.0 }

  lemma MoveRises(cfg: Config, score: Scores, holders: set<Address>, m: Move)
    requires cfg.Legal() && Percentages(score) && Allowed(cfg, score, holders, m) && |holders| <= cfg.maxManualPeers
    ensures var after := After(holders, m);
      && Total(score, after) >= Total(score, holders) + Gain(cfg, m)
      && |holders| <= |after| <= cfg.maxManualPeers
      && (|holders| < |after| || Total(score, holders) < Total(score, after))
  {
    if m.Fill? { FillRaises(cfg, score, holders, m.joins); } else { DisplaceRaises(cfg, score, holders, m); }
  }

  // n times the margin.
  ghost function Margins(margin: real, n: nat): real {
    if n == 0 then 0.0 else margin + Margins(margin, n - 1)
  }

  lemma {:induction false} MarginsIsAProduct(margin: real, n: nat)
    requires margin >= 0.0
    ensures Margins(margin, n) == n as real * margin
  {
    if n > 0 {
      MarginsIsAProduct(margin, n - 1);
      Distribute((n - 1) as real, margin);
    }
  }

  lemma {:induction false} MarginsAreNotNegative(margin: real, n: nat)
    requires margin >= 0.0
    ensures Margins(margin, n) >= 0.0
  {
    if n > 0 { MarginsAreNotNegative(margin, n - 1); }
  }

  lemma Distribute(x: real, y: real)
    ensures (x + 1.0) * y == x * y + y
  {
  }

  lemma OneMoreMove(cfg: Config, moves: seq<Move>)
    requires |moves| > 0
    ensures Margins(cfg.minSwapMarginPct, Displacements(moves))
         == Gain(cfg, moves[0]) + Margins(cfg.minSwapMarginPct, Displacements(moves[1..]))
  {
    var later := Displacements(moves[1..]);
    assert Displacements(moves) == if moves[0].Displace? then later + 1 else later;
  }

  lemma {:induction false} TotalRises(cfg: Config, score: Scores, holders: set<Address>, moves: seq<Move>)
    requires cfg.Legal() && Percentages(score) && AllAllowed(cfg, score, holders, moves)
    requires |holders| <= cfg.maxManualPeers
    ensures Total(score, Hold(holders, moves)) >= Total(score, holders) + Margins(cfg.minSwapMarginPct, Displacements(moves))
    ensures |holders| <= |Hold(holders, moves)| <= cfg.maxManualPeers
    ensures |moves| > 0 ==>
      |holders| < |Hold(holders, moves)| || Total(score, holders) < Total(score, Hold(holders, moves))
    decreases |moves|
  {
    if |moves| > 0 {
      OneMoreMove(cfg, moves);
      MoveRises(cfg, score, holders, moves[0]);
      TotalRises(cfg, score, After(holders, moves[0]), moves[1..]);
      MarginsAreNotNegative(cfg.minSwapMarginPct, Displacements(moves[1..]));
    }
  }

  // However fills and displacements follow each other, the displacements are
  // bounded by what the slots can hold in points divided by the margin.
  lemma DisplacementsAreBounded(cfg: Config, score: Scores, holders: set<Address>, moves: seq<Move>)
    requires cfg.Legal() && Percentages(score) && AllAllowed(cfg, score, holders, moves)
    requires |holders| <= cfg.maxManualPeers
    ensures Displacements(moves) as real * cfg.minSwapMarginPct <= 101.0 * cfg.maxManualPeers as real
  {
    MarginsAreBounded(cfg, score, holders, moves);
    MarginsMultiply(cfg, moves);
  }

  lemma MarginsMultiply(cfg: Config, moves: seq<Move>)
    requires cfg.minSwapMarginPct >= 0.0
    requires Margins(cfg.minSwapMarginPct, Displacements(moves)) <= 101.0 * cfg.maxManualPeers as real
    ensures Displacements(moves) as real * cfg.minSwapMarginPct <= 101.0 * cfg.maxManualPeers as real
  {
    AtMost(Displacements(moves), cfg.minSwapMarginPct, 101.0 * cfg.maxManualPeers as real);
  }

  lemma AtMost(n: nat, margin: real, bound: real)
    requires margin >= 0.0 && Margins(margin, n) <= bound
    ensures n as real * margin <= bound
  {
    MarginsIsAProduct(margin, n);
  }

  lemma MarginsAreBounded(cfg: Config, score: Scores, holders: set<Address>, moves: seq<Move>)
    requires cfg.Legal() && Percentages(score) && AllAllowed(cfg, score, holders, moves)
    requires |holders| <= cfg.maxManualPeers
    ensures Margins(cfg.minSwapMarginPct, Displacements(moves)) <= 101.0 * cfg.maxManualPeers as real
  {
    TotalRises(cfg, score, holders, moves);
    TotalBounds(score, holders);
    TotalBounds(score, Hold(holders, moves));
  }

  // And even at margin zero the rotation never comes back to a set it has left:
  // no cycle of swaps, of any length, is possible.
  lemma NoSetComesBack(cfg: Config, score: Scores, holders: set<Address>, moves: seq<Move>)
    requires cfg.Legal() && Percentages(score) && AllAllowed(cfg, score, holders, moves)
    requires |holders| <= cfg.maxManualPeers && |moves| > 0
    ensures Hold(holders, moves) != holders
  {
    TotalRises(cfg, score, holders, moves);
  }

  // Nobody takes the slot back from the peer that took it.
  lemma NoRevenge(cfg: Config, score: Scores, holders: set<Address>, joins: Address, leaves: Address)
    requires cfg.Legal() && Allowed(cfg, score, holders, Displace(joins, leaves))
    ensures !Allowed(cfg, score, After(holders, Displace(joins, leaves)), Displace(leaves, joins))
  {
  }

  // ---- At margin zero too ----------------------------------------------------------

  function Power2(n: nat): nat { if n == 0 then 1 else 2 * Power2(n - 1) }

  ghost function SetsSeen(holders: set<Address>, moves: seq<Move>): set<set<Address>>
    decreases |moves|
  {
    if |moves| == 0 then {holders} else {holders} + SetsSeen(After(holders, moves[0]), moves[1..])
  }

  lemma {:induction false} SeenIsHeld(cfg: Config, score: Scores, holders: set<Address>, moves: seq<Move>, s: set<Address>)
    returns (k: nat)
    requires AllAllowed(cfg, score, holders, moves) && s in SetsSeen(holders, moves)
    ensures k <= |moves| && s == Hold(holders, moves[..k]) && AllAllowed(cfg, score, holders, moves[..k])
    decreases |moves|
  {
    if s == holders {
      k := 0;
    } else {
      var later := SeenIsHeld(cfg, score, After(holders, moves[0]), moves[1..], s);
      k := later + 1;
      assert moves[..k][1..] == moves[1..][..later];
    }
  }

  lemma {:induction false} EachMoveIsANewSet(cfg: Config, score: Scores, holders: set<Address>, moves: seq<Move>)
    requires cfg.Legal() && Percentages(score) && AllAllowed(cfg, score, holders, moves)
    requires |holders| <= cfg.maxManualPeers
    ensures |SetsSeen(holders, moves)| == |moves| + 1
    decreases |moves|
  {
    if |moves| > 0 {
      var after, rest := After(holders, moves[0]), moves[1..];
      MoveRises(cfg, score, holders, moves[0]);
      EachMoveIsANewSet(cfg, score, after, rest);
      if holders in SetsSeen(after, rest) {
        var k := SeenIsHeld(cfg, score, after, rest, holders);
        var back := [moves[0]] + rest[..k];
        assert back[1..] == rest[..k];
        NoSetComesBack(cfg, score, holders, back);
      }
    }
  }

  ghost predicate Among(moves: seq<Move>, pool: set<Address>) {
    forall i :: 0 <= i < |moves| ==> moves[i].joins in pool
  }

  lemma {:induction false} SeenAreSubsets(holders: set<Address>, moves: seq<Move>, pool: set<Address>)
    requires holders <= pool && Among(moves, pool)
    ensures forall s :: s in SetsSeen(holders, moves) ==> s <= pool
    decreases |moves|
  {
    if |moves| > 0 {
      assert Among(moves[1..], pool) by { assert forall i :: 0 <= i < |moves[1..]| ==> moves[1..][i] == moves[i + 1]; }
      SeenAreSubsets(After(holders, moves[0]), moves[1..], pool);
    }
  }

  lemma {:induction false} SubsetsAreFew(family: set<set<Address>>, pool: set<Address>)
    requires forall s :: s in family ==> s <= pool
    ensures |family| <= Power2(|pool|)
    decreases |pool|
  {
    if pool == {} {
      OnlyTheEmptySet(family);
    } else {
      var x :| x in pool;
      var without, with := set s | s in family && x !in s, set s | s in family && x in s;
      var reduced := set s | s in with :: s - {x};
      assert family == without + with;
      SameNumber(with, x);
      SubsetsAreFew(without, pool - {x});
      SubsetsAreFew(reduced, pool - {x});
    }
  }

  lemma OnlyTheEmptySet(family: set<set<Address>>)
    requires forall s :: s in family ==> s <= {}
    ensures |family| <= 1
  {
    var empty: set<Address> := {};
    assert forall s :: s in family ==> s == empty;
    assert family == {} || family == {empty};
  }

  lemma {:induction false} SameNumber(with: set<set<Address>>, x: Address)
    requires forall s :: s in with ==> x in s
    ensures |set s | s in with :: s - {x}| == |with|
    decreases |with|
  {
    if with != {} {
      var t :| t in with;
      var fewer := with - {t};
      SameNumber(fewer, x);
      var all, less := set s | s in with :: s - {x}, set s | s in fewer :: s - {x};
      assert t - {x} !in less by {
        forall s | s in fewer ensures s - {x} != t - {x} { assert (s - {x}) + {x} == s && (t - {x}) + {x} == t; }
      }
      assert all == less + {t - {x}};
    } else {
      assert (set s | s in with :: s - {x}) == {};
    }
  }

  // Whatever the margin: with the peers that may hold a slot taken from a pool of
  // n, fills and displacements together are fewer than 2 to the n.
  lemma MovesAreFinite(cfg: Config, score: Scores, holders: set<Address>, moves: seq<Move>, pool: set<Address>)
    requires cfg.Legal() && Percentages(score) && AllAllowed(cfg, score, holders, moves)
    requires |holders| <= cfg.maxManualPeers && holders <= pool && Among(moves, pool)
    ensures |moves| < Power2(|pool|)
  {
    EachMoveIsANewSet(cfg, score, holders, moves);
    SeenAreSubsets(holders, moves, pool);
    SubsetsAreFew(SetsSeen(holders, moves), pool);
  }
}
