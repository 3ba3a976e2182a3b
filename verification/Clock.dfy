/**
 * src/lib/rpc.js: how far Core's clock is from ours, read off the whole-second
 * Date header of its HTTP replies (section 5.6.7 of RFC 9110) and taken as the
 * median of the last 20 readings. Times are milliseconds, in exact arithmetic.
 */
module Clock {
  import opened Basics
  import opened Wrappers

  const CLOCK_SAMPLES := 20

  datatype Sample = Sample(offsetMs: real, rttMs: real, atMs: real)

  datatype Reading = Reading(offsetMs: int, samples: nat, maxRttMs: real, measuredAtMs: real)

  function SampleOf(coreMs: real, sentAtMs: real, receivedAtMs: real): Sample {
    Sample(coreMs - (sentAtMs + receivedAtMs) / 2.0 + 500.0, receivedAtMs - sentAtMs, receivedAtMs)
  }

  function Offsets(s: seq<Sample>): (r: seq<real>)
    ensures |r| == |s|
  {
    seq(|s|, i requires 0 <= i < |s| => s[i].offsetMs)
  }

  function Insert(x: real, s: seq<real>): seq<real> {
    if |s| == 0 || x <= s[0] then [x] + s else [s[0]] + Insert(x, s[1..])
  }

  function Sorted(s: seq<real>): seq<real> {
    if |s| == 0 then [] else Insert(s[0], Sorted(s[1..]))
  }

  // Math.round: to the nearest whole number, halves upwards.
  function Round(x: real): (r: int)
    ensures r as real - 0.5 <= x < r as real + 0.5
  {
    (x + 0.5).Floor
  }

  function MaxRtt(s: seq<Sample>): (m: real)
    requires |s| > 0
    ensures forall i :: 0 <= i < |s| ==> s[i].rttMs <= m
    ensures exists i :: 0 <= i < |s| && s[i].rttMs == m
  {
    if |s| == 1 then s[0].rttMs
    else
      var m := MaxRtt(s[..|s| - 1]);
      if m < s[|s| - 1].rttMs then s[|s| - 1].rttMs else m
  }

  function Estimate(s: seq<Sample>): Option<Reading> {
    if |s| == 0 then None
    else
      var sorted := Sorted(Offsets(s));
      SortedLength(Offsets(s));
      Some(Reading(Round(sorted[|sorted| / 2]), |s|, MaxRtt(s), s[|s| - 1].atMs))
  }

  class RpcClock {
    var clockSamples: seq<Sample>
    ghost var seen: seq<Sample>

    ghost predicate Valid()
      reads this
    {
      clockSamples == Last(seen, CLOCK_SAMPLES)
    }

    constructor ()
      ensures Valid() && seen == []
    {
      clockSamples, seen := [], [];
    }

    // A header that is missing or no date is passed over.
    method RecordClockSample(coreMs: Option<real>, sentAtMs: real, receivedAtMs: real)
      requires Valid()
      modifies this
      ensures Valid()
      ensures seen == old(seen) + if coreMs.Some? then [SampleOf(coreMs.value, sentAtMs, receivedAtMs)] else []
    {
      if coreMs.None? { return; }
      var sample := SampleOf(coreMs.value, sentAtMs, receivedAtMs);
      clockSamples := clockSamples + [sample];
      seen := seen + [sample];
      if |clockSamples| > CLOCK_SAMPLES { clockSamples := clockSamples[1..]; }
    }

    method ClockOffset() returns (r: Option<Reading>)
      requires Valid()
      ensures r == Estimate(Last(seen, CLOCK_SAMPLES))
      ensures r.None? <==> seen == []
      ensures r.Some? ==>
        && r.value.samples == (if |seen| < 20 then |seen| else 20) && r.value.measuredAtMs == seen[|seen| - 1].atMs
        && forall i :: 0 <= i < |seen| && |seen| - 20 <= i ==> seen[i].rttMs <= r.value.maxRttMs
    {
      if |clockSamples| == 0 { return None; }
      var sorted := Sorted(Offsets(clockSamples));
      SortedLength(Offsets(clockSamples));
      var maxRtt := clockSamples[0].rttMs;
      var i := 1;
      while i < |clockSamples|
        invariant 1 <= i <= |clockSamples|
        invariant maxRtt == MaxRtt(clockSamples[..i])
      {
        assert clockSamples[..i + 1][..i] == clockSamples[..i];
        if maxRtt < clockSamples[i].rttMs { maxRtt := clockSamples[i].rttMs; }
        i := i + 1;
      }
      assert clockSamples[..i] == clockSamples;
      r := Some(Reading(Round(sorted[|sorted| / 2]), |sorted|, maxRtt, clockSamples[|clockSamples| - 1].atMs));
    }
  }

  // ---- One sample ------------------------------------------------------------------------

  // What Core writes at the instant t of our clock when its own is offset ahead.
  function DateHeader(t: real, offset: real): real { 1000.0 * ((t + offset) / 1000.0).Floor as real }

  predicate Good(s: Sample, offset: real) {
    offset - 500.0 - s.rttMs / 2.0 <= s.offsetMs <= offset + 500.0 + s.rttMs / 2.0
  }

  // Written at some instant between sending and receiving, a sample is within
  // half a second and half its round trip of the true offset.
  lemma HonestSamplesAreGood(t: real, offset: real, sentAtMs: real, receivedAtMs: real)
    requires sentAtMs <= t <= receivedAtMs
    ensures Good(SampleOf(DateHeader(t, offset), sentAtMs, receivedAtMs), offset)
  {
    var x := (t + offset) / 1000.0;
    assert x - 1.0 < x.Floor as real <= x;
  }

  // ---- The median ------------------------------------------------------------------------

  ghost predicate Ascending(s: seq<real>) { forall i, j :: 0 <= i < j < |s| ==> s[i] <= s[j] }

  function Outside(s: seq<real>, lo: real, hi: real): nat {
    if |s| == 0 then 0 else (if lo <= s[0] <= hi then 0 else 1) + Outside(s[1..], lo, hi)
  }

  lemma {:induction false} InsertKeeps(x: real, s: seq<real>, lo: real, hi: real)
    requires Ascending(s)
    ensures Ascending(Insert(x, s)) && |Insert(x, s)| == |s| + 1
    ensures Outside(Insert(x, s), lo, hi) == Outside([x], lo, hi) + Outside(s, lo, hi)
    ensures forall y :: y in Insert(x, s) <==> y == x || y in s
  {
    if |s| == 0 || x <= s[0] {
      assert ([x] + s)[1..] == s;
    } else {
      InsertKeeps(x, s[1..], lo, hi);
      var r := Insert(x, s[1..]);
      assert ([s[0]] + r)[1..] == r;
    }
  }

  lemma {:induction false} SortedKeeps(s: seq<real>, lo: real, hi: real)
    ensures Ascending(Sorted(s)) && |Sorted(s)| == |s|
    ensures Outside(Sorted(s), lo, hi) == Outside(s, lo, hi)
  {
    if |s| > 0 {
      SortedKeeps(s[1..], lo, hi);
      InsertKeeps(s[0], Sorted(s[1..]), lo, hi);
    }
  }

  lemma SortedLength(s: seq<real>)
    ensures |Sorted(s)| == |s|
  {
    SortedKeeps(s, 0.0, 0.0);
  }

  lemma {:induction false} OutsideParts(a: seq<real>, b: seq<real>, lo: real, hi: real)
    ensures Outside(a + b, lo, hi) == Outside(a, lo, hi) + Outside(b, lo, hi)
  {
    if |a| == 0 {
      assert a + b == b;
    } else {
      assert (a + b)[1..] == a[1..] + b;
      OutsideParts(a[1..], b, lo, hi);
    }
  }

  lemma {:induction false} AllOutside(s: seq<real>, lo: real, hi: real)
    requires forall i :: 0 <= i < |s| ==> !(lo <= s[i] <= hi)
    ensures Outside(s, lo, hi) == |s|
  {
    if |s| > 0 { AllOutside(s[1..], lo, hi); }
  }

  lemma PartOutside(s: seq<real>, i: nat, j: nat, lo: real, hi: real)
    requires i <= j <= |s| && forall k :: i <= k < j ==> !(lo <= s[k] <= hi)
    ensures j - i <= Outside(s, lo, hi)
  {
    assert s == s[..i] + (s[i..j] + s[j..]);
    OutsideParts(s[..i], s[i..j] + s[j..], lo, hi);
    OutsideParts(s[i..j], s[j..], lo, hi);
    AllOutside(s[i..j], lo, hi);
  }

  // Too few strays cannot move the middle out of the range of the others.
  lemma MiddleIsInside(s: seq<real>, lo: real, hi: real)
    requires Ascending(s) && 2 * Outside(s, lo, hi) < |s|
    ensures lo <= s[|s| / 2] <= hi
  {
    var k := |s| / 2;
    if s[k] < lo {
      PartOutside(s, 0, k + 1, lo, hi);
    } else if s[k] > hi {
      PartOutside(s, k, |s|, lo, hi);
    }
  }

  function Bad(s: seq<Sample>, offset: real): nat {
    if |s| == 0 then 0 else (if Good(s[0], offset) then 0 else 1) + Bad(s[1..], offset)
  }

  lemma {:induction false} OnlyBadOnesStray(s: seq<Sample>, offset: real, rtt: real)
    requires forall i :: 0 <= i < |s| ==> s[i].rttMs <= rtt
    ensures Outside(Offsets(s), offset - 500.0 - rtt / 2.0, offset + 500.0 + rtt / 2.0) <= Bad(s, offset)
  {
    if |s| > 0 {
      OnlyBadOnesStray(s[1..], offset, rtt);
      assert Offsets(s)[1..] == Offsets(s[1..]);
    }
  }

  predicate Right(s: seq<Sample>, offset: real) {
    && Estimate(s).Some?
    && var r := Estimate(s).value;
       offset - 500.5 - r.maxRttMs / 2.0 <= r.offsetMs as real <= offset + 500.5 + r.maxRttMs / 2.0
  }

  // As long as the bad samples are in the minority, whatever they say, the
  // estimate is within half a second, half the longest round trip and rounding.
  lemma EstimateIsRight(s: seq<Sample>, offset: real)
    requires 2 * Bad(s, offset) < |s|
    ensures Right(s, offset)
  {
    var rtt := MaxRtt(s);
    var lo, hi := offset - 500.0 - rtt / 2.0, offset + 500.0 + rtt / 2.0;
    OnlyBadOnesStray(s, offset, rtt);
    SortedKeeps(Offsets(s), lo, hi);
    MiddleIsInside(Sorted(Offsets(s)), lo, hi);
  }

  // Half of them is already enough to carry the estimate anywhere.
  function Liars(n: nat, b: nat, offset: real, x: real): seq<Sample>
    requires b <= n
  {
    seq(n, i requires 0 <= i < n => Sample(if i < n - b then offset else x, 0.0, 0.0))
  }

  lemma {:induction false} AscendingIsSorted(s: seq<real>)
    requires Ascending(s)
    ensures Sorted(s) == s
  {
    if |s| > 0 { AscendingIsSorted(s[1..]); }
  }

  lemma HalfIsTooMany(n: nat, b: nat, offset: real, x: int)
    requires b <= n && n > 0 && 2 * b >= n && x as real > offset + 500.0
    ensures Bad(Liars(n, b, offset, x as real), offset) == b
    ensures Estimate(Liars(n, b, offset, x as real)).value.offsetMs == x
  {
    var s := Liars(n, b, offset, x as real);
    BadLiars(s, offset, n - b);
    AscendingIsSorted(Offsets(s));
    assert Offsets(s)[n / 2] == x as real;
  }

  lemma {:induction false} BadLiars(s: seq<Sample>, offset: real, good: nat)
    requires good <= |s|
    requires forall i :: 0 <= i < |s| ==> (Good(s[i], offset) <==> i < good)
    ensures Bad(s, offset) == |s| - good
  {
    if |s| > 0 { BadLiars(s[1..], offset, if good > 0 then good - 1 else 0); }
  }

  ghost predicate Withstands(n: nat, b: nat, offset: real) {
    forall s: seq<Sample> :: |s| == n && Bad(s, offset) == b ==> Right(s, offset)
  }

  // The bound is safe against b arbitrary samples out of n exactly below half.
  lemma WithstandsIffMinority(n: nat, b: nat, offset: real)
    requires b <= n && n > 0
    ensures Withstands(n, b, offset) <==> 2 * b < n
  {
    if 2 * b < n {
      forall s: seq<Sample> | |s| == n && Bad(s, offset) == b ensures Right(s, offset) { EstimateIsRight(s, offset); }
    } else {
      var x := offset.Floor + 502;
      var s := Liars(n, b, offset, x as real);
      HalfIsTooMany(n, b, offset, x);
      assert forall i :: 0 <= i < |s| ==> s[i].rttMs == 0.0;
      assert !Right(s, offset);
    }
  }
}
