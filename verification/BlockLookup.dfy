/** src/lib/queries/blocks.js: finding the Stratum race of a block through every spelling of its hash. */
module BlockLookup {
  import opened Wrappers
  import opened Prevhash

  method StratumForBlock<Id>(races: map<string, Id>, blockHash: string) returns (found: Option<string>)
    ensures found.Some? ==> found.value in races && found.value in Encodings(blockHash)
    ensures found.None? ==> forall e :: e in Encodings(blockHash) ==> e !in races
  {
    var candidates := EncodingsOf(blockHash);
    var i := 0;
    while i < |candidates|
      invariant 0 <= i <= |candidates|
      invariant forall k :: 0 <= k < i ==> candidates[k] !in races
    {
      if candidates[i] in races { return Some(candidates[i]); }
      i := i + 1;
    }
    return None;
  }

  // A race keyed from any spelling a pool sent is among the ones tried.
  lemma AnySpellingLeadsToTheRace(sent: string, blockHash: string)
    requires IsHash(sent) && IsHash(blockHash)
    ensures Canonical(sent) in Encodings(blockHash) <==> SameBlock(sent, blockHash)
  {
    CanonicalIsAnEncoding(sent);
    EncodingsAreTheOrbit(blockHash, Canonical(sent));
    CanonicalDecides(Canonical(sent), blockHash);
    CanonicalIdempotent(sent);
    CanonicalDecides(sent, blockHash);
    if Canonical(sent) in Encodings(blockHash) {
      assert SameBlock(Canonical(sent), blockHash);
    }
    if SameBlock(sent, blockHash) {
      CanonicalIsAnEncoding(blockHash);
    }
  }

  // In a table of canonical keys there is only one race to find, so the order
  // in which the spellings are tried does not matter.
  lemma OnlyOneRaceToFind<Id>(races: map<string, Id>, blockHash: string, e: string)
    requires IsHash(blockHash)
    requires forall k :: k in races ==> Canonical(k) == k
    ensures e in Encodings(blockHash) && e in races <==> e == Canonical(blockHash) && e in races
  {
    CanonicalIsAnEncoding(blockHash);
    if e in Encodings(blockHash) && e in races {
      EncodingsAreTheOrbit(blockHash, e);
      CanonicalDecides(e, blockHash);
    }
  }
}
