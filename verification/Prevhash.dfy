/**
 * src/lib/prevhash.js: the spellings one block hash can arrive in, and the one
 * spelling a race is keyed by.
 *
 * A byte is kept as its two lower-case hexadecimal digits, so that decoding and
 * encoding hex text is a regrouping of characters.
 */
module Prevhash {
  import opened Text

  const HASH_BYTES := 32

  datatype Byte = Byte(hi: char, lo: char)

  predicate IsLowerHex(c: char) { '0' <= c <= '9' || 'a' <= c <= 'f' }

  predicate IsHexDigit(c: char) { IsLowerHex(c) || 'A' <= c <= 'F' }

  // The shape the source tests for before it does anything: 64 hex digits.
  predicate IsHash(s: string) {
    |s| == 2 * HASH_BYTES && forall i :: 0 <= i < |s| ==> IsHexDigit(s[i])
  }

  ghost predicate IsBytes(b: seq<Byte>) {
    |b| == HASH_BYTES && forall i :: 0 <= i < |b| ==> IsLowerHex(b[i].hi) && IsLowerHex(b[i].lo)
  }

  function FromHex(s: string): seq<Byte>
    requires |s| == 2 * HASH_BYTES
  {
    seq(HASH_BYTES, i requires 0 <= i < HASH_BYTES => Byte(LowerOf(s[2 * i]), LowerOf(s[2 * i + 1])))
  }

  function ToHex(b: seq<Byte>): string {
    seq(2 * |b|, i requires 0 <= i < 2 * |b| => if i % 2 == 0 then b[i / 2].hi else b[i / 2].lo)
  }

  // The three rearrangements of the 32 bytes.

  function Reversed(b: seq<Byte>): seq<Byte>
    requires |b| == HASH_BYTES
  {
    seq(HASH_BYTES, i requires 0 <= i < HASH_BYTES => b[HASH_BYTES - 1 - i])
  }

  function WordsSwapped(b: seq<Byte>): seq<Byte>
    requires |b| == HASH_BYTES
  {
    seq(HASH_BYTES, i requires 0 <= i < HASH_BYTES => b[4 * (i / 4) + 3 - i % 4])
  }

  function WordOrderReversed(b: seq<Byte>): seq<Byte>
    requires |b| == HASH_BYTES
  {
    seq(HASH_BYTES, i requires 0 <= i < HASH_BYTES => b[4 * (7 - i / 4) + i % 4])
  }

  // [...new Set(s)]: the first occurrence of each, in order.
  function Distinct(s: seq<string>): (r: seq<string>)
    ensures forall x :: x in r <==> x in s
    ensures forall i, j :: 0 <= i < j < |r| ==> r[i] != r[j]
    ensures |s| > 0 ==> |r| > 0 && r[0] == s[0]
  {
    if |s| == 0 then [] else
      var front := Distinct(s[..|s| - 1]);
      var last := s[|s| - 1];
      assert s == s[..|s| - 1] + [last];
      if last in front then front else front + [last]
  }

  function Encodings(hex: string): seq<string> {
    if !IsHash(hex) then [] else
      var b := FromHex(hex);
      Distinct([ToHex(b), ToHex(Reversed(b)), ToHex(WordsSwapped(b)), ToHex(WordOrderReversed(b)),
                ToHex(Reversed(WordsSwapped(b)))])
  }

  function EncodingSet(hex: string): set<string> { set e | e in Encodings(hex) }

  // JavaScript's default string order.
  predicate AtMost(a: string, b: string) {
    |a| == 0 || (|b| > 0 && (a[0] < b[0] || (a[0] == b[0] && AtMost(a[1..], b[1..]))))
  }

  lemma {:induction false} AtMostTotal(a: string, b: string)
    ensures AtMost(a, b) || AtMost(b, a)
  {
    if |a| > 0 && |b| > 0 { AtMostTotal(a[1..], b[1..]); }
  }

  lemma {:induction false} AtMostAntisymmetric(a: string, b: string)
    requires AtMost(a, b) && AtMost(b, a)
    ensures a == b
  {
    if |a| > 0 {
      AtMostAntisymmetric(a[1..], b[1..]);
      assert a == [a[0]] + a[1..] && b == [b[0]] + b[1..];
    }
  }

  lemma {:induction false} AtMostTransitive(a: string, b: string, c: string)
    requires AtMost(a, b) && AtMost(b, c)
    ensures AtMost(a, c)
  {
    if |a| > 0 && a[0] == b[0] == c[0] { AtMostTransitive(a[1..], b[1..], c[1..]); }
  }

  // all.sort()[0]
  function Least(s: seq<string>): (r: string)
    requires |s| > 0
    ensures r in s
    ensures forall x :: x in s ==> AtMost(r, x)
  {
    AtMostTotal(s[0], s[0]);
    if |s| == 1 then s[0] else
      var rest := Least(s[1..]);
      AtMostTotal(s[0], rest);
      assert forall x :: x in s ==> x == s[0] || x in s[1..];
      if AtMost(s[0], rest) then
        assert forall x :: x in s[1..] ==> AtMost(s[0], x) by {
          forall x | x in s[1..] ensures AtMost(s[0], x) { AtMostTransitive(s[0], rest, x); }
        }
        s[0]
      else rest
  }

  function Canonical(hex: string): string {
    var all := Encodings(hex);
    if |all| > 0 then Least(all) else hex
  }

  lemma WordSwappedAt(b: seq<Byte>, i: nat)
    requires |b| == HASH_BYTES && i % 4 == 0 && i < HASH_BYTES
    ensures i + 4 <= HASH_BYTES
    ensures WordsSwapped(b)[i] == b[i + 3] && WordsSwapped(b)[i + 1] == b[i + 2]
    ensures WordsSwapped(b)[i + 2] == b[i + 1] && WordsSwapped(b)[i + 3] == b[i]
  {
    assert i == 4 * (i / 4);
  }

  // ---- The source's loops, against the functions above -------------------

  // subarray(i, i + 4).reverse()
  method ReverseSlice(b: array<Byte>, i: nat)
    requires i + 4 <= b.Length
    modifies b
    ensures b[i] == old(b[i + 3]) && b[i + 1] == old(b[i + 2])
    ensures b[i + 2] == old(b[i + 1]) && b[i + 3] == old(b[i])
    ensures forall k :: 0 <= k < b.Length && !(i <= k < i + 4) ==> b[k] == old(b[k])
  {
    b[i], b[i + 3] := b[i + 3], b[i];
    b[i + 1], b[i + 2] := b[i + 2], b[i + 1];
  }

  method SwapBytesInsideWords(b: array<Byte>)
    requires b.Length == HASH_BYTES
    modifies b
    ensures b[..] == WordsSwapped(old(b[..]))
  {
    ghost var was := b[..];
    ghost var target := WordsSwapped(was);
    assert IsSwapOf(target, was) by {
      forall w | 0 <= w < 8 ensures IsSwapAt(target, was, w) { WordSwappedAt(was, 4 * w); }
    }
    SwapWords(b, target);
  }

  ghost predicate IsSwapAt(target: seq<Byte>, was: seq<Byte>, w: int)
    requires |target| == |was| == HASH_BYTES && 0 <= w < 8
  {
    && target[4 * w] == was[4 * w + 3] && target[4 * w + 1] == was[4 * w + 2]
    && target[4 * w + 2] == was[4 * w + 1] && target[4 * w + 3] == was[4 * w]
  }

  ghost predicate IsSwapOf(target: seq<Byte>, was: seq<Byte>)
    requires |target| == |was| == HASH_BYTES
  {
    forall w :: 0 <= w < 8 ==> IsSwapAt(target, was, w)
  }

  method SwapWords(b: array<Byte>, ghost target: seq<Byte>)
    requires b.Length == HASH_BYTES == |target|
    requires IsSwapOf(target, b[..])
    modifies b
    ensures b[..] == target
  {
    ghost var was := b[..];
    ghost var w := 0;
    var i := 0;
    while i < HASH_BYTES
      invariant 0 <= w <= 8 && i == 4 * w
      invariant DoneUpTo(target, was, b[..], i)
    {
      assert IsSwapAt(target, was, w);
      ghost var before := b[..];
      ReverseSlice(b, i);
      DoneOneMore(target, was, before, b[..], i);
      i, w := i + 4, w + 1;
    }
  }

  // The first i bytes are the target's, the rest still the original's.
  ghost predicate DoneUpTo(target: seq<Byte>, was: seq<Byte>, now: seq<Byte>, i: nat) {
    && |was| == |now| == |target| == HASH_BYTES && i <= HASH_BYTES
    && (forall k :: 0 <= k < i ==> now[k] == target[k])
    && (forall k :: i <= k < HASH_BYTES ==> now[k] == was[k])
  }

  lemma DoneOneMore(target: seq<Byte>, was: seq<Byte>, before: seq<Byte>, after: seq<Byte>, i: nat)
    requires DoneUpTo(target, was, before, i) && i + 4 <= HASH_BYTES == |after|
    requires target[i] == was[i + 3] && target[i + 1] == was[i + 2]
    requires target[i + 2] == was[i + 1] && target[i + 3] == was[i]
    requires after[i] == before[i + 3] && after[i + 1] == before[i + 2]
    requires after[i + 2] == before[i + 1] && after[i + 3] == before[i]
    requires forall k :: 0 <= k < HASH_BYTES && !(i <= k < i + 4) ==> after[k] == before[k]
    ensures DoneUpTo(target, was, after, i + 4)
  {
  }

  method ReverseWordOrder(b: seq<Byte>) returns (r: seq<Byte>)
    requires |b| == HASH_BYTES
    ensures r == WordOrderReversed(b)
  {
    r := [];
    var i := 0;
    while i < HASH_BYTES
      invariant 0 <= i <= HASH_BYTES && i % 4 == 0 && |r| == i
      invariant forall k :: 0 <= k < i ==> r[k] == b[i - 4 - 4 * (k / 4) + k % 4]
    {
      ghost var before := r;
      r := b[i..i + 4] + r;
      assert forall k :: 4 <= k < i + 4 ==> r[k] == before[k - 4];
      i := i + 4;
    }
  }

  method EncodingsOf(hex: string) returns (out: seq<string>)
    ensures out == Encodings(hex)
  {
    if !IsHash(hex) { return []; }
    var b := FromHex(hex);
    var swapped := new Byte[HASH_BYTES](i requires 0 <= i < HASH_BYTES => b[i]);
    assert swapped[..] == b;
    SwapBytesInsideWords(swapped);
    var reordered := ReverseWordOrder(b);
    out := Distinct([ToHex(b), ToHex(Reversed(b)), ToHex(swapped[..]), ToHex(reordered), ToHex(Reversed(swapped[..]))]);
  }

  // ---- The four rearrangements are a group ------------------------------

  lemma HexRoundTrip(b: seq<Byte>)
    requires IsBytes(b)
    ensures IsHash(ToHex(b)) && FromHex(ToHex(b)) == b
  {
  }

  lemma HexIsLowered(s: string)
    requires IsHash(s)
    ensures IsBytes(FromHex(s)) && ToHex(FromHex(s)) == LowerCase(s)
  {
  }

  lemma PlacesInWords(i: nat)
    requires i < HASH_BYTES
    ensures var j := HASH_BYTES - 1 - i; j / 4 == 7 - i / 4 && j % 4 == 3 - i % 4
    ensures var j := 4 * (i / 4) + 3 - i % 4; 0 <= j < HASH_BYTES && j / 4 == i / 4 && j % 4 == 3 - i % 4
    ensures var j := 4 * (7 - i / 4) + i % 4; 0 <= j < HASH_BYTES && j / 4 == 7 - i / 4 && j % 4 == i % 4
  {
    var q, r := i / 4, i % 4;
    assert i == 4 * q + r && 0 <= q < 8;
    assert HASH_BYTES - 1 - i == 4 * (7 - q) + (3 - r);
  }

  lemma Involutions(b: seq<Byte>)
    requires |b| == HASH_BYTES
    ensures Reversed(Reversed(b)) == b
    ensures WordsSwapped(WordsSwapped(b)) == b
  {
    forall i | 0 <= i < HASH_BYTES ensures WordsSwapped(WordsSwapped(b))[i] == b[i] { PlacesInWords(i); }
  }

  lemma ProductIsWordOrder(b: seq<Byte>)
    requires |b| == HASH_BYTES
    ensures Reversed(WordsSwapped(b)) == WordOrderReversed(b)
    ensures WordsSwapped(Reversed(b)) == WordOrderReversed(b)
  {
    forall i | 0 <= i < HASH_BYTES
      ensures Reversed(WordsSwapped(b))[i] == WordOrderReversed(b)[i] == WordsSwapped(Reversed(b))[i]
    {
      PlacesInWords(i);
    }
  }

  lemma RearrangementsKeepDigits(b: seq<Byte>)
    requires IsBytes(b)
    ensures IsBytes(Reversed(b)) && IsBytes(WordsSwapped(b)) && IsBytes(WordOrderReversed(b))
  {
    forall i | 0 <= i < HASH_BYTES
      ensures WordsSwapped(b)[i] in b && WordOrderReversed(b)[i] in b && Reversed(b)[i] in b
    {
      PlacesInWords(i);
    }
  }

  lemma RearrangementsCommute(b: seq<Byte>)
    requires |b| == HASH_BYTES
    ensures Reversed(Reversed(b)) == b
    ensures WordsSwapped(WordsSwapped(b)) == b
    ensures WordOrderReversed(WordOrderReversed(b)) == b
    ensures Reversed(WordsSwapped(b)) == WordOrderReversed(b) == WordsSwapped(Reversed(b))
    ensures Reversed(WordOrderReversed(b)) == WordsSwapped(b) == WordOrderReversed(Reversed(b))
    ensures WordsSwapped(WordOrderReversed(b)) == Reversed(b) == WordOrderReversed(WordsSwapped(b))
  {
    Involutions(b);
    Involutions(WordsSwapped(b));
    Involutions(Reversed(b));
    ProductIsWordOrder(b);
    ProductIsWordOrder(WordsSwapped(b));
    ProductIsWordOrder(Reversed(b));
    ProductIsWordOrder(WordOrderReversed(b));
  }

  ghost function Orbit(b: seq<Byte>): set<seq<Byte>>
    requires IsBytes(b)
  {
    {b, Reversed(b), WordsSwapped(b), WordOrderReversed(b)}
  }

  lemma OrbitIsClosed(b: seq<Byte>, c: seq<Byte>)
    requires IsBytes(b) && c in Orbit(b)
    ensures IsBytes(c) && Orbit(c) == Orbit(b)
  {
    RearrangementsKeepDigits(b);
    RearrangementsCommute(b);
  }

  // Written out: the encodings are the hex texts of the orbit, and nothing else.
  lemma EncodingsAreTheOrbit(hex: string, e: string)
    requires IsHash(hex)
    ensures IsBytes(FromHex(hex))
    ensures e in Encodings(hex) <==> IsHash(e) && e == LowerCase(e) && FromHex(e) in Orbit(FromHex(hex))
  {
    var b := FromHex(hex);
    HexIsLowered(hex);
    RearrangementsKeepDigits(b);
    RearrangementsCommute(b);
    HexRoundTrip(b);
    HexRoundTrip(Reversed(b));
    HexRoundTrip(WordsSwapped(b));
    HexRoundTrip(WordOrderReversed(b));
    assert e in Encodings(hex) <==> e in {ToHex(b), ToHex(Reversed(b)), ToHex(WordsSwapped(b)), ToHex(WordOrderReversed(b))};
    if IsHash(e) { HexIsLowered(e); }
  }

  // Two hashes are the same block when one is a spelling of the other.
  ghost predicate SameBlock(a: string, b: string) {
    if IsHash(a) && IsHash(b) then IsBytes(FromHex(b)) && FromHex(a) in Orbit(FromHex(b)) else a == b
  }

  lemma SameSpellings(a: string, b: string)
    requires IsHash(a) && IsHash(b) && SameBlock(a, b)
    ensures EncodingSet(a) == EncodingSet(b)
  {
    OrbitIsClosed(FromHex(b), FromHex(a));
    forall e ensures e in Encodings(a) <==> e in Encodings(b) {
      EncodingsAreTheOrbit(a, e);
      EncodingsAreTheOrbit(b, e);
    }
  }

  lemma CanonicalIsAnEncoding(hex: string)
    requires IsHash(hex)
    ensures Canonical(hex) in Encodings(hex)
    ensures IsHash(Canonical(hex)) && SameBlock(Canonical(hex), hex)
  {
    EncodingsAreTheOrbit(hex, Canonical(hex));
  }

  // The key decides the block: equal keys exactly when the two texts spell the
  // same block. "Only if" is what keeps two blocks out of one race, "if" what
  // keeps one block out of two.
  lemma CanonicalDecides(a: string, b: string)
    ensures Canonical(a) == Canonical(b) <==> SameBlock(a, b)
  {
    if IsHash(a) { CanonicalIsAnEncoding(a); }
    if IsHash(b) { CanonicalIsAnEncoding(b); }
    if IsHash(a) && IsHash(b) {
      if SameBlock(a, b) {
        SameSpellings(a, b);
        assert Canonical(a) in EncodingSet(a) && Canonical(b) in EncodingSet(b);
        AtMostAntisymmetric(Canonical(a), Canonical(b));
      }
      if Canonical(a) == Canonical(b) {
        HexIsLowered(a);
        HexIsLowered(b);
        OrbitIsClosed(FromHex(a), FromHex(Canonical(a)));
        OrbitIsClosed(FromHex(b), FromHex(Canonical(b)));
      }
    }
  }

  lemma CanonicalIdempotent(hex: string)
    ensures Canonical(Canonical(hex)) == Canonical(hex)
  {
    if IsHash(hex) {
      CanonicalIsAnEncoding(hex);
      CanonicalDecides(Canonical(hex), hex);
    }
  }

  lemma CanonicalIgnoresCase(a: string, b: string)
    requires IsHash(a) && LowerCase(a) == LowerCase(b)
    ensures Canonical(a) == Canonical(b)
  {
    assert |LowerCase(b)| == |b|;
    forall i | 0 <= i < |b| ensures IsHexDigit(b[i]) && LowerOf(a[i]) == LowerOf(b[i]) {
      assert LowerCase(a)[i] == LowerCase(b)[i];
    }
    assert FromHex(a) == FromHex(b);
    HexIsLowered(b);
    CanonicalDecides(a, b);
  }
}
