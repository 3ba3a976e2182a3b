/**
 * src/relay-profiler.js: which peer is credited with a block, read off the
 * whole-second last_block Core reports for each connection.
 */
module Attribution {
  import opened Basics
  import opened Wrappers

  const FIRST_WINDOW_MS := 2500

  // last_block in seconds; None when Core reports none.
  predicate IsFirstPeer(lastBlock: Option<int>, detectedAtMs: int) {
    match lastBlock
    case None => false
    case Some(s) =>
      var ms := s * 1000;
      ms > 0 && AbsInt(ms - detectedAtMs) <= FIRST_WINDOW_MS && ms <= detectedAtMs + 1000
  }

  // The second a moment falls into, which is all last_block keeps of it.
  function WholeSecond(ms: int): int { ms / 1000 }

  // A peer whose block reached Core `offset` ms after the detection on our clock,
  // any difference between the two clocks included.
  ghost predicate Credits(detectedAtMs: int, offset: int) {
    IsFirstPeer(Some(WholeSecond(detectedAtMs + offset)), detectedAtMs)
  }

  // Where the moment falls inside its second is chance. A deliverer is credited
  // whatever it is exactly from -1501 to +1000 ms, and never exactly from -2501
  // down and from +2000 up; in between it depends.
  lemma AlwaysCreditedIff(offset: int)
    ensures (forall d :: d >= 5000 && d + offset >= 5000 ==> Credits(d, offset)) <==> -1501 <= offset <= 1000
  {
    var early := 10999 + AbsInt(offset) * 1000 - offset;
    var late := 10000 + AbsInt(offset) * 1000 - offset;
    if offset < -1501 { assert !Credits(early, offset); }
    if offset > 1000 { assert !Credits(late, offset); }
  }

  lemma EverCreditedIff(offset: int)
    ensures (exists d :: d >= 5000 && d + offset >= 5000 && Credits(d, offset)) <==> -2501 < offset < 2000
  {
    if -2501 < offset <= 0 { assert Credits(10000 - offset, offset); }
    if 0 < offset < 2000 { assert Credits(10999 - offset, offset); }
  }
}
