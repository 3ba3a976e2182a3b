/**
 * The rows the manual-slot code reads and writes: trusted_peer, parked_peer,
 * and one line of the peer ranking. Every table is keyed by its UNIQUE address.
 */
module PeerTables {
  import opened Wrappers

  type Address = string
  type Key = string

  datatype TrustedRow = TrustedRow(caption: Option<string>, kept: bool, createdAt: int)

  datatype ParkedRow = ParkedRow(caption: Option<string>, firstPct: Option<real>, eligible: nat, parkedAt: int,
                                 lastProbeAt: Option<int>, probeFailures: nat)

  datatype Link = Offline | Inbound | Outbound(blockRelayOnly: bool) | Manual

  // One line of peerRanking().
  datatype Peer = Peer(
    address: Address,
    trusted: bool,
    trustedCaption: Option<string>,
    trustedSince: Option<int>,
    kept: bool,
    withinNewManualGrace: bool,
    everManual: bool,
    eligible: nat,
    first: nat,
    firstPct: Option<real>,
    score: Option<real>,
    link: Link,
    dialable: bool,                // not obscured, not a sibling app, not Tor, I2P or CJDNS
    offlineSinceMs: Option<int>)
  {
    predicate Live() { link != Offline }
  }

  // INSERT ... ON CONFLICT(address) DO UPDATE: a re-add keeps the join time and
  // can set the star but never clears it.
  function Upsert(trusted: map<Address, TrustedRow>, address: Address, caption: Option<string>, kept: bool, now: int)
    : map<Address, TrustedRow>
  {
    if address in trusted then
      trusted[address := trusted[address].(caption := caption, kept := kept || trusted[address].kept)]
    else
      trusted[address := TrustedRow(caption, kept, now)]
  }

  // parkPeer: nothing for a peer without a record; the label of an earlier
  // parking stays, everything else starts over.
  function Park(parked: map<Address, ParkedRow>, peer: Peer, now: int): map<Address, ParkedRow> {
    if peer.address == "" || peer.eligible == 0 then parked
    else
      var caption := if peer.address in parked then parked[peer.address].caption else peer.trustedCaption;
      parked[peer.address := ParkedRow(caption, peer.firstPct, peer.eligible, now, None, 0)]
  }

  // ---- Core's addnode list -----------------------------------------------

  datatype AddAnswer = Accepted | AlreadyAdded | Refused

  // Core knows an entry by where it leads, however it is spelled.
  predicate HasKey(nodes: seq<Address>, key: Address -> Key, k: Key) {
    exists i :: 0 <= i < |nodes| && key(nodes[i]) == k
  }

  function AddnodeAnswer(core: seq<Address>, key: Address -> Key, address: Address, willing: bool): AddAnswer {
    if !willing then Refused else if HasKey(core, key, key(address)) then AlreadyAdded else Accepted
  }

  function AfterAddnode(core: seq<Address>, key: Address -> Key, address: Address, willing: bool): seq<Address> {
    if AddnodeAnswer(core, key, address, willing) == Accepted then core + [address] else core
  }

  // addnode remove takes the entry written exactly so, if it answers at all.
  function AfterRemove(core: seq<Address>, address: Address, willing: bool): seq<Address> {
    if willing then Without(core, address) else core
  }

  function Without(core: seq<Address>, address: Address): (r: seq<Address>)
    ensures address !in r
    ensures forall a :: a in r <==> a in core && a != address
    ensures address !in core ==> r == core
  {
    if |core| == 0 then []
    else if core[0] == address then Without(core[1..], address)
    else [core[0]] + Without(core[1..], address)
  }

  lemma {:induction false} WithoutLast(core: seq<Address>, address: Address)
    requires address !in core
    ensures Without(core + [address], address) == core
  {
    if |core| > 0 {
      assert (core + [address])[1..] == core[1..] + [address];
      WithoutLast(core[1..], address);
    } else {
      assert (core + [address])[1..] == [];
    }
  }

  // ---- Removals Core did not hear about ----------------------------------

  const PENDING_REMOVAL_MS := 24 * 60 * 60 * 1000

  // pendingRemovals(): what is older than a day is forgotten on reading.
  function LiveRemovals(pending: map<Key, int>, now: int): map<Key, int> {
    map k | k in pending && now - pending[k] < PENDING_REMOVAL_MS :: pending[k]
  }

  // A refused addnode remove is remembered; "has not been added" is not a refusal.
  function Remembered(pending: map<Key, int>, key: Key, willing: bool, now: int): map<Key, int> {
    if willing then pending else LiveRemovals(pending, now)[key := now]
  }

  // Remembered with its time; what else is younger than a day stays, nothing else does.
  ghost predicate Remembers(was: map<Key, int>, later: map<Key, int>, key: Key, now: int) {
    && key in later && later[key] == now
    && (forall k :: k in was && k != key && now < was[k] + 86400000 ==> k in later && later[k] == was[k])
    && (forall k :: k in later && k != key ==> k in was && later[k] == was[k])
  }

  lemma RefusedIsRemembered(pending: map<Key, int>, key: Key, now: int)
    ensures Remembers(pending, Remembered(pending, key, false, now), key, now)
  {
  }

  ghost predicate DistinctKeys(trusted: map<Address, TrustedRow>, key: Address -> Key) {
    forall a, b :: a in trusted && b in trusted && key(a) == key(b) ==> a == b
  }

  lemma UpsertSize(trusted: map<Address, TrustedRow>, address: Address, caption: Option<string>, kept: bool, now: int)
    ensures Upsert(trusted, address, caption, kept, now).Keys == trusted.Keys + {address}
    ensures |Upsert(trusted, address, caption, kept, now)| == |trusted| + if address in trusted then 0 else 1
  {
    var after := Upsert(trusted, address, caption, kept, now);
    assert |after| == |after.Keys| && |trusted| == |trusted.Keys|;
    if address in trusted { assert after.Keys == trusted.Keys; } else { assert after.Keys == trusted.Keys + {address}; }
  }

  lemma DeleteSize(trusted: map<Address, TrustedRow>, address: Address)
    ensures |trusted - {address}| == |trusted| - if address in trusted then 1 else 0
  {
    var after := trusted - {address};
    assert after.Keys == trusted.Keys - {address};
    assert |after| == |after.Keys| && |trusted| == |trusted.Keys|;
  }
}
