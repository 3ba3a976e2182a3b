/**
 * Counting a needle in a reply while it streams past (src/lib/rpc.js,
 * timeCall): the body is never held, only the last few bytes of what came
 * before. A body is a string with one character per byte.
 */
module StreamCount {
  import opened Basics
  import opened Wrappers

  type Bytes = string

  predicate OccursAt(body: Bytes, needle: Bytes, i: nat) {
    i + |needle| <= |body| && body[i..i + |needle|] == needle
  }

  // How many times the needle occurs at position `from` or after it.
  function CountFrom(body: Bytes, needle: Bytes, from: nat): nat
    decreases |body| - from
  {
    if from >= |body| then 0
    else (if OccursAt(body, needle, from) then 1 else 0) + CountFrom(body, needle, from + 1)
  }

  function Occurrences(body: Bytes, needle: Bytes): nat { CountFrom(body, needle, 0) }

  ghost predicate NoOverlaps(body: Bytes, needle: Bytes) {
    forall i: nat, j: nat :: OccursAt(body, needle, i) && OccursAt(body, needle, j) && i < j ==> i + |needle| <= j
  }

  function Join(chunks: seq<Bytes>): Bytes {
    if |chunks| == 0 then [] else Join(chunks[..|chunks| - 1]) + chunks[|chunks| - 1]
  }

  // Buffer.indexOf(needle, from)
  function IndexOf(body: Bytes, needle: Bytes, from: nat): (r: Option<nat>)
    ensures r.Some? ==> from <= r.value < |body| && OccursAt(body, needle, r.value)
    decreases |body| - from
  {
    if from >= |body| then None
    else if OccursAt(body, needle, from) then Some(from)
    else IndexOf(body, needle, from + 1)
  }

  lemma {:induction false} IndexOfIsTheFirst(body: Bytes, needle: Bytes, from: nat)
    ensures var r := IndexOf(body, needle, from);
            forall i: nat :: from <= i < (if r.Some? then r.value else |body|) ==> !OccursAt(body, needle, i)
    decreases |body| - from
  {
    if from < |body| && !OccursAt(body, needle, from) { IndexOfIsTheFirst(body, needle, from + 1); }
  }

  // Each search goes on behind the last hit.
  function Greedy(body: Bytes, needle: Bytes, from: nat): nat
    requires |needle| > 0
    decreases if from <= |body| then |body| - from else 0, 1
  {
    FromHit(body, needle, IndexOf(body, needle, from))
  }

  function FromHit(body: Bytes, needle: Bytes, i: Option<nat>): nat
    requires |needle| > 0
    requires i.Some? ==> i.value < |body|
    decreases if i.Some? then |body| - i.value else 0, 0
  {
    if i.None? then 0 else 1 + Greedy(body, needle, i.value + |needle|)
  }

  // What is counted when the body arrives as these chunks.
  function Counted(needle: Bytes, chunks: seq<Bytes>): nat
    requires |needle| > 0
  {
    if |chunks| == 0 then 0
    else
      var before := chunks[..|chunks| - 1];
      Counted(needle, before) + Greedy(Last(Join(before), |needle| - 1) + chunks[|chunks| - 1], needle, 0)
  }

  class StreamingCounter {
    const needle: Bytes
    var hits: nat
    var tail: Bytes
    ghost var chunks: seq<Bytes>

    ghost predicate Valid()
      reads this
    {
      && |needle| > 0
      && tail == Last(Join(chunks), |needle| - 1)
      && hits == Counted(needle, chunks)
    }

    constructor (count: Bytes)
      requires |count| > 0
      ensures Valid() && needle == count && chunks == []
    {
      needle, hits, tail, chunks := count, 0, [], [];
    }

    method OnData(chunk: Bytes)
      requires Valid()
      modifies this
      ensures Valid() && chunks == old(chunks) + [chunk]
    {
      var buf := tail + chunk;
      var found := CountIn(buf, needle);
      KeptTail(Join(chunks), chunk, |needle| - 1);
      OneMoreChunk(needle, chunks, chunk);
      hits := hits + found;
      tail := Last(buf, |needle| - 1);
      chunks := chunks + [chunk];
    }
  }

  method CountIn(buf: Bytes, needle: Bytes) returns (found: nat)
    requires |needle| > 0
    ensures found == Greedy(buf, needle, 0)
  {
    found := 0;
    var i := IndexOf(buf, needle, 0);
    while i.Some?
      invariant i.Some? ==> i.value < |buf|
      invariant found + FromHit(buf, needle, i) == Greedy(buf, needle, 0)
      decreases if i.Some? then |buf| - i.value else -1
    {
      found := found + 1;
      i := IndexOf(buf, needle, i.value + |needle|);
    }
  }

  lemma OneMoreChunk(needle: Bytes, chunks: seq<Bytes>, chunk: Bytes)
    requires |needle| > 0
    ensures Join(chunks + [chunk]) == Join(chunks) + chunk
    ensures Counted(needle, chunks + [chunk])
         == Counted(needle, chunks) + Greedy(Last(Join(chunks), |needle| - 1) + chunk, needle, 0)
  {
    assert (chunks + [chunk])[..|chunks|] == chunks;
  }

  lemma KeptTail(seen: Bytes, chunk: Bytes, n: nat)
    ensures Last(Last(seen, n) + chunk, n) == Last(seen + chunk, n)
  {
  }

  // ---- One buffer: greedy hits against all occurrences -----------------------------

  lemma {:induction false} Fewer(body: Bytes, needle: Bytes, i: nat, j: nat)
    requires i <= j
    ensures CountFrom(body, needle, j) <= CountFrom(body, needle, i)
    ensures (forall k: nat :: i <= k < j ==> !OccursAt(body, needle, k))
      ==> CountFrom(body, needle, j) == CountFrom(body, needle, i)
    decreases j - i
  {
    if i < j { Fewer(body, needle, i + 1, j); }
  }

  lemma FewerByOne(body: Bytes, needle: Bytes, i: nat, b: nat, j: nat)
    requires i <= b < j && |needle| > 0 && OccursAt(body, needle, b)
    ensures CountFrom(body, needle, j) < CountFrom(body, needle, i)
  {
    Fewer(body, needle, i, b);
    Fewer(body, needle, b + 1, j);
  }

  lemma {:induction false} GreedyNeverOvercounts(body: Bytes, needle: Bytes, from: nat)
    requires |needle| > 0
    ensures Greedy(body, needle, from) <= CountFrom(body, needle, from)
    decreases |body| - from
  {
    var i := IndexOf(body, needle, from);
    if i.Some? {
      GreedyNeverOvercounts(body, needle, i.value + |needle|);
      FewerByOne(body, needle, from, i.value, i.value + |needle|);
    }
  }

  lemma {:induction false} GreedyFindsAll(body: Bytes, needle: Bytes, from: nat)
    requires |needle| > 0 && NoOverlaps(body, needle)
    ensures Greedy(body, needle, from) == CountFrom(body, needle, from)
    decreases |body| - from
  {
    var i := IndexOf(body, needle, from);
    IndexOfIsTheFirst(body, needle, from);
    if i.Some? {
      GreedyFindsAll(body, needle, i.value + |needle|);
      Fewer(body, needle, from, i.value);
      Fewer(body, needle, i.value + 1, i.value + |needle|);
    } else if from < |body| {
      Fewer(body, needle, from, |body|);
    }
  }

  lemma FirstHit(body: Bytes, needle: Bytes, from: nat, i: nat)
    requires |needle| > 0 && IndexOf(body, needle, from) == Some(i)
    ensures Greedy(body, needle, from) == 1 + Greedy(body, needle, i + |needle|)
    ensures CountFrom(body, needle, from) == 1 + CountFrom(body, needle, i + 1)
    ensures forall k: nat :: from <= k && OccursAt(body, needle, k) ==> i <= k
  {
    IndexOfIsTheFirst(body, needle, from);
    Fewer(body, needle, from, i);
  }

  lemma {:induction false} GreedyMissesOverlaps(body: Bytes, needle: Bytes, from: nat, a: nat, b: nat)
    requires |needle| > 0 && OccursAt(body, needle, a) && OccursAt(body, needle, b)
    requires from <= a < b < a + |needle|
    ensures Greedy(body, needle, from) < CountFrom(body, needle, from)
    decreases |body| - from
  {
    IndexOfIsTheFirst(body, needle, from);
    var i := IndexOf(body, needle, from).value;
    var next := i + |needle|;
    FirstHit(body, needle, from, i);
    if a >= next {
      GreedyMissesOverlaps(body, needle, next, a, b);
      MissedLater(body, needle, from, i);
    } else {
      PassedOver(body, needle, i, if a == i then b else a);
    }
  }

  lemma MissedLater(body: Bytes, needle: Bytes, from: nat, i: nat)
    requires |needle| > 0 && IndexOf(body, needle, from) == Some(i)
    requires Greedy(body, needle, i + |needle|) < CountFrom(body, needle, i + |needle|)
    ensures Greedy(body, needle, from) < CountFrom(body, needle, from)
  {
    FirstHit(body, needle, from, i);
    Fewer(body, needle, i + 1, i + |needle|);
  }

  // An occurrence that starts inside the hit is not counted.
  lemma PassedOver(body: Bytes, needle: Bytes, i: nat, b: nat)
    requires i < b < i + |needle| && OccursAt(body, needle, b)
    ensures Greedy(body, needle, i + |needle|) < CountFrom(body, needle, i + 1)
  {
    GreedyNeverOvercounts(body, needle, i + |needle|);
    FewerByOne(body, needle, i + 1, b, i + |needle|);
  }

  // ---- Many chunks ------------------------------------------------------------------

  lemma OccursInPrefix(seen: Bytes, chunk: Bytes, needle: Bytes, i: nat)
    requires i + |needle| <= |seen|
    ensures OccursAt(seen + chunk, needle, i) == OccursAt(seen, needle, i)
  {
    assert (seen + chunk)[i..i + |needle|] == seen[i..i + |needle|];
  }

  lemma OccursInSuffix(gone: Bytes, rest: Bytes, needle: Bytes, i: nat)
    ensures OccursAt(gone + rest, needle, |gone| + i) == OccursAt(rest, needle, i)
  {
    if i + |needle| <= |rest| {
      assert (gone + rest)[|gone| + i..|gone| + i + |needle|] == rest[i..i + |needle|];
    }
  }

  lemma {:induction false} CountInSuffix(gone: Bytes, rest: Bytes, needle: Bytes, i: nat)
    ensures CountFrom(gone + rest, needle, |gone| + i) == CountFrom(rest, needle, i)
    decreases |rest| - i
  {
    if i < |rest| {
      OccursInSuffix(gone, rest, needle, i);
      CountInSuffix(gone, rest, needle, i + 1);
    }
  }

  // What a new chunk adds is exactly what the kept tail and the chunk hold together.
  lemma {:induction false} NoneLostAtTheSeam(seen: Bytes, chunk: Bytes, needle: Bytes, i: nat)
    requires |needle| > 0
    requires i <= |seen| - |Last(seen, |needle| - 1)|
    ensures CountFrom(seen + chunk, needle, i)
         == CountFrom(seen, needle, i) + Occurrences(Last(seen, |needle| - 1) + chunk, needle)
    decreases |seen| - i
  {
    if i < |seen| - |Last(seen, |needle| - 1)| {
      OccursInPrefix(seen, chunk, needle, i);
      NoneLostAtTheSeam(seen, chunk, needle, i + 1);
    } else {
      CountAtTheSeam(seen, chunk, needle);
    }
  }

  lemma CountAtTheSeam(seen: Bytes, chunk: Bytes, needle: Bytes)
    requires |needle| > 0
    ensures var tail := Last(seen, |needle| - 1);
      && CountFrom(seen + chunk, needle, |seen| - |tail|) == Occurrences(tail + chunk, needle)
      && CountFrom(seen, needle, |seen| - |tail|) == 0
  {
    var tail := Last(seen, |needle| - 1);
    var k := |seen| - |tail|;
    assert seen[..k] + (tail + chunk) == seen + chunk;
    CountInSuffix(seen[..k], tail + chunk, needle, 0);
    TooShortToOccur(seen, needle, k);
  }

  lemma TooShortToOccur(seen: Bytes, needle: Bytes, k: nat)
    requires k <= |seen| < k + |needle|
    ensures CountFrom(seen, needle, k) == 0
  {
    Fewer(seen, needle, k, |seen|);
  }

  lemma {:induction false} StreamingNeverOvercounts(needle: Bytes, chunks: seq<Bytes>)
    requires |needle| > 0
    ensures Counted(needle, chunks) <= Occurrences(Join(chunks), needle)
  {
    if |chunks| > 0 {
      var before := chunks[..|chunks| - 1];
      var chunk := chunks[|chunks| - 1];
      StreamingNeverOvercounts(needle, before);
      NoneLostAtTheSeam(Join(before), chunk, needle, 0);
      GreedyNeverOvercounts(Last(Join(before), |needle| - 1) + chunk, needle, 0);
    }
  }

  lemma PartsDoNotOverlap(gone: Bytes, rest: Bytes, needle: Bytes)
    requires NoOverlaps(gone + rest, needle)
    ensures NoOverlaps(gone, needle) && NoOverlaps(rest, needle)
  {
    forall i: nat, j: nat | OccursAt(gone, needle, i) && OccursAt(gone, needle, j) && i < j
      ensures i + |needle| <= j
    {
      OccursInPrefix(gone, rest, needle, i);
      OccursInPrefix(gone, rest, needle, j);
    }
    forall i: nat, j: nat | OccursAt(rest, needle, i) && OccursAt(rest, needle, j) && i < j
      ensures i + |needle| <= j
    {
      OccursInSuffix(gone, rest, needle, i);
      OccursInSuffix(gone, rest, needle, j);
    }
  }

  lemma NoOverlapsAtTheSeam(seen: Bytes, chunk: Bytes, needle: Bytes, n: nat)
    requires NoOverlaps(seen + chunk, needle)
    ensures NoOverlaps(Last(seen, n) + chunk, needle)
  {
    var tail := Last(seen, n);
    var gone := seen[..|seen| - |tail|];
    assert gone + (tail + chunk) == seen + chunk;
    PartsDoNotOverlap(gone, tail + chunk, needle);
  }

  lemma ExactAtTheSeam(seen: Bytes, chunk: Bytes, needle: Bytes)
    requires |needle| > 0 && NoOverlaps(seen + chunk, needle)
    ensures Occurrences(seen + chunk, needle)
         == Occurrences(seen, needle) + Greedy(Last(seen, |needle| - 1) + chunk, needle, 0)
  {
    NoneLostAtTheSeam(seen, chunk, needle, 0);
    NoOverlapsAtTheSeam(seen, chunk, needle, |needle| - 1);
    GreedyFindsAll(Last(seen, |needle| - 1) + chunk, needle, 0);
  }

  lemma {:induction false} ExactWithoutOverlaps(needle: Bytes, chunks: seq<Bytes>)
    requires |needle| > 0 && NoOverlaps(Join(chunks), needle)
    ensures Counted(needle, chunks) == Occurrences(Join(chunks), needle)
  {
    if |chunks| > 0 {
      var before, chunk := chunks[..|chunks| - 1], chunks[|chunks| - 1];
      assert chunks == before + [chunk];
      OneMoreChunk(needle, before, chunk);
      PartsDoNotOverlap(Join(before), chunk, needle);
      ExactWithoutOverlaps(needle, before);
      ExactAtTheSeam(Join(before), chunk, needle);
    }
  }

  ghost predicate ExactHowever(needle: Bytes, body: Bytes)
    requires |needle| > 0
  {
    forall chunks: seq<Bytes> :: Join(chunks) == body ==> Counted(needle, chunks) == Occurrences(body, needle)
  }

  // The streamed count is the whole-body count, however the body is cut, exactly
  // for bodies in which no two occurrences overlap.
  lemma ExactIffNoOverlaps(needle: Bytes, body: Bytes)
    requires |needle| > 0
    ensures ExactHowever(needle, body) <==> NoOverlaps(body, needle)
  {
    if NoOverlaps(body, needle) {
      forall chunks: seq<Bytes> | Join(chunks) == body
        ensures Counted(needle, chunks) == Occurrences(body, needle)
      {
        ExactWithoutOverlaps(needle, chunks);
      }
    } else {
      InOnePiece(needle, body);
      var a: nat, b: nat :| OccursAt(body, needle, a) && OccursAt(body, needle, b) && a < b < a + |needle|;
      GreedyMissesOverlaps(body, needle, 0, a, b);
    }
  }

  lemma InOnePiece(needle: Bytes, body: Bytes)
    requires |needle| > 0
    ensures Join([body]) == body && Counted(needle, [body]) == Greedy(body, needle, 0)
  {
    assert [body][..0] == [];
    assert Join([]) == [] && Last([], |needle| - 1) + body == body;
    assert Counted(needle, [body]) == Counted(needle, []) + Greedy(body, needle, 0);
  }

  // ---- Byte by byte nothing is ever missed -------------------------------------------

  function Singles(body: Bytes): seq<Bytes> {
    if |body| == 0 then [] else Singles(body[..|body| - 1]) + [[body[|body| - 1]]]
  }

  lemma ShortBuffersDoNotOverlap(buf: Bytes, needle: Bytes)
    requires 0 < |needle| && |buf| <= |needle|
    ensures Greedy(buf, needle, 0) == Occurrences(buf, needle)
  {
    assert forall i: nat :: OccursAt(buf, needle, i) ==> i == 0;
    GreedyFindsAll(buf, needle, 0);
  }

  lemma ExactByteByByte(seen: Bytes, last: Bytes, needle: Bytes)
    requires |needle| > 0 && |last| == 1
    ensures Occurrences(seen + last, needle)
         == Occurrences(seen, needle) + Greedy(Last(seen, |needle| - 1) + last, needle, 0)
  {
    NoneLostAtTheSeam(seen, last, needle, 0);
    ShortBuffersDoNotOverlap(Last(seen, |needle| - 1) + last, needle);
  }

  lemma OneMoreByte(needle: Bytes, chunks: seq<Bytes>, seen: Bytes, last: Bytes)
    requires |needle| > 0 && |last| == 1
    requires Join(chunks) == seen && Counted(needle, chunks) == Occurrences(seen, needle)
    ensures Join(chunks + [last]) == seen + last
    ensures Counted(needle, chunks + [last]) == Occurrences(seen + last, needle)
  {
    OneMoreChunk(needle, chunks, last);
    ExactByteByByte(seen, last, needle);
  }

  lemma {:induction false} ByteByByteCountsAll(needle: Bytes, body: Bytes)
    requires |needle| > 0
    ensures Join(Singles(body)) == body
    ensures Counted(needle, Singles(body)) == Occurrences(body, needle)
  {
    if |body| > 0 {
      var seen, last := body[..|body| - 1], [body[|body| - 1]];
      assert body == seen + last;
      ByteByByteCountsAll(needle, seen);
      OneMoreByte(needle, Singles(seen), seen, last);
    } else {
      assert Singles(body) == [];
    }
  }

  // So the answer depends on the cut exactly when occurrences overlap.
  lemma CutDoesNotMatterIff(needle: Bytes, body: Bytes)
    requires |needle| > 0
    ensures CutDoesNotMatter(needle, body) <==> NoOverlaps(body, needle)
  {
    InOnePiece(needle, body);
    ByteByByteCountsAll(needle, body);
    ExactIffNoOverlaps(needle, body);
    if CutDoesNotMatter(needle, body) {
      assert Counted(needle, Singles(body)) == Counted(needle, [body]);
    }
  }

  ghost predicate CutDoesNotMatter(needle: Bytes, body: Bytes)
    requires |needle| > 0
  {
    forall chunks: seq<Bytes> :: Join(chunks) == body ==> Counted(needle, chunks) == Counted(needle, [body])
  }

  // ---- The needle in use --------------------------------------------------------------

  const TXID: Bytes := "\"txid\""

  // Two occurrences of it can share no more than one quote ...
  lemma TxidOverlapsByOneQuote(body: Bytes, i: nat, j: nat)
    requires OccursAt(body, TXID, i) && OccursAt(body, TXID, j) && i < j < i + |TXID|
    ensures j == i + 5
  {
    assert body[i..i + 6][j - i] == TXID[j - i] && body[j..j + 6][0] == TXID[0];
  }

  // ... and then the count does depend on the cut.
  lemma TxidCanOverlap()
    ensures !ExactHowever(TXID, "\"txid\"txid\"")
  {
    var body := "\"txid\"txid\"";
    assert body[0..6] == TXID && body[5..11] == TXID;
    assert OccursAt(body, TXID, 0) && OccursAt(body, TXID, 5);
    ExactIffNoOverlaps(TXID, body);
  }
}
