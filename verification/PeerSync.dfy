/**
 * src/lib/peer-sync.js as one call runs it from start to finish: the tables and
 * Core's list are fields, the calls update them in place, and what Core answers
 * is a parameter.
 */
module PeerSync {
  import opened Wrappers
  import opened PeerTables
  import opened AddProtocol
  import opened Reconcile
  import opened Rules

  // Whether Core is willing to carry out each of the calls an add may make.
  datatype Willing = Willing(add: bool, takeBack: bool, evict: bool)

  datatype AddResult = NotOk | Ok(evicted: Option<Peer>, parked: bool)

  function TrustedOf(ranking: seq<Peer>): (r: seq<Peer>)
    ensures forall p :: p in r <==> p in ranking && p.trusted
  {
    if |ranking| == 0 then []
    else (if ranking[0].trusted then [ranking[0]] else []) + TrustedOf(ranking[1..])
  }

  function NotAt(peers: seq<Peer>, address: Address): (r: seq<Peer>)
    ensures forall p :: p in r <==> p in peers && p.address != address
  {
    if |peers| == 0 then []
    else (if peers[0].address != address then [peers[0]] else []) + NotAt(peers[1..], address)
  }

  // The peer an add at the cap would displace on its own account.
  function Displaceable(ranking: seq<Peer>, address: Address): Option<Peer> {
    WeakestTrustedPeer(NotAt(EvictableTrusted(TrustedOf(ranking)), address))
  }

  ghost predicate SameNode(trusted: map<Address, TrustedRow>, key: Address -> Key, address: Address, found: Option<Address>) {
    match found
    case None => forall a :: a in trusted ==> key(a) != key(address)
    case Some(a) => a in trusted && key(a) == key(address)
  }

  // Who makes room: the caller's choice, else the weakest that may be displaced.
  function VictimFor(max: nat, trusted: map<Address, TrustedRow>, request: Request, ranking: seq<Peer>): Decision {
    Decide(max, if request.address in trusted then Some(request.address) else None, |trusted|, request,
           Displaceable(ranking, request.address))
  }

  // ---- What a caller is promised, column by column ------------------------------

  // A holder that neither a star nor a new slot's grace protects, other than the
  // peer being added.
  ghost predicate Unprotected(p: Peer, address: Address) {
    p.trusted && !p.kept && !p.withinNewManualGrace && p.address != address
  }

  ghost predicate IsWeakestUnprotected(ranking: seq<Peer>, address: Address, v: Peer) {
    && v in ranking && Unprotected(v, address)
    && (forall p :: p in ranking && Unprotected(p, address) ==> v.score.GetOr(-1.0) <= p.score.GetOr(-1.0))
    && (forall p :: p in ranking && Unprotected(p, address) && p.score.GetOr(-1.0) == v.score.GetOr(-1.0) ==>
          v.link == Offline || p.link != Offline)
  }

  lemma DisplaceableIs(ranking: seq<Peer>, address: Address)
    ensures var v := Displaceable(ranking, address);
      && (v.Some? ==> IsWeakestUnprotected(ranking, address, v.value))
      && (v.None? ==> forall p :: p in ranking ==> !Unprotected(p, address))
  {
    var able := NotAt(EvictableTrusted(TrustedOf(ranking)), address);
    assert forall p :: p in able <==> p in ranking && Unprotected(p, address);
  }

  ghost predicate Names(request: Request) {
    request.options.replace.Some? && request.options.replace.value.address != request.address
  }

  ghost predicate HasVictim(request: Request, ranking: seq<Peer>) {
    Names(request) || (request.options.evictToFit && exists p :: p in ranking && Unprotected(p, request.address))
  }

  // Already a row, a free slot, or exactly full with somebody to make room.
  ghost predicate HasRoom(max: nat, trusted: map<Address, TrustedRow>, request: Request, ranking: seq<Peer>) {
    request.address in trusted || |trusted| < max || (|trusted| == max && HasVictim(request, ranking))
  }

  // Nobody has to go unless the slots are full; then the caller's choice goes
  // before anybody else, and failing that the weakest unprotected holder.
  ghost predicate MakesRoom(max: nat, trusted: map<Address, TrustedRow>, request: Request, ranking: seq<Peer>,
                            out: Option<Peer>)
  {
    if request.address in trusted || |trusted| < max then out.None?
    else if Names(request) then out == request.options.replace
    else request.options.evictToFit && out.Some? && IsWeakestUnprotected(ranking, request.address, out.value)
  }

  lemma VictimMakesRoom(max: nat, trusted: map<Address, TrustedRow>, request: Request, ranking: seq<Peer>)
    ensures var d := VictimFor(max, trusted, request, ranking);
      && (d.Go? ==> MakesRoom(max, trusted, request, ranking, d.victim))
      && (d.Go? && Fits(max, trusted, request.address, d.victim) <==> HasRoom(max, trusted, request, ranking))
  {
    DisplaceableIs(ranking, request.address);
  }

  // The rows after an add: the new one keeps what an old one had, the displaced
  // one goes, no other row changes.
  ghost predicate RowsMoved(was: Tables, later: Tables, request: Request, out: Option<Peer>, now: int) {
    && request.address in later.trusted
    && later.trusted[request.address] == (
         if request.address in was.trusted
         then TrustedRow(request.caption, request.options.kept || was.trusted[request.address].kept,
                         was.trusted[request.address].createdAt)
         else TrustedRow(request.caption, request.options.kept, now))
    && (forall a :: a != request.address ==> (a in later.trusted <==> a in was.trusted && !Goes(out, a)))
    && (forall a :: a != request.address && a in later.trusted ==> later.trusted[a] == was.trusted[a])
    && later.peers == was.peers + {request.address}
  }

  // The parked after an add: the newcomer is not among them any more, and the
  // displaced one is, with a fresh row, if it is gone, has a record and the
  // caller did not object.
  ghost predicate ParkedMoved(was: Tables, later: Tables, request: Request, out: Option<Peer>, now: int) {
    && request.address !in later.parked
    && (forall a :: a != request.address && !GetsParked(request, out, a) ==>
          (a in later.parked <==> a in was.parked) && (a in was.parked ==> later.parked[a] == was.parked[a]))
    && (forall a :: GetsParked(request, out, a) ==> a in later.parked && IsFreshRow(was.parked, later.parked[a], out.value, now))
  }

  ghost predicate Goes(out: Option<Peer>, a: Address) { out.Some? && out.value.address == a }

  ghost predicate GetsParked(request: Request, out: Option<Peer>, a: Address) {
    Goes(out, a) && request.options.parkEvicted && out.value.link == Offline && out.value.eligible > 0 && a != ""
  }

  // A parking starts over: no probe yet, no failure. Only an earlier label stays.
  ghost predicate IsFreshRow(was: map<Address, ParkedRow>, row: ParkedRow, p: Peer, now: int) {
    && row.firstPct == p.firstPct && row.eligible == p.eligible && row.parkedAt == now
    && row.lastProbeAt.None? && row.probeFailures == 0
    && row.caption == if p.address in was then was[p.address].caption else p.trustedCaption
  }

  // Core's list after an add: it has the node, and of what it had before only the
  // displaced peer is missing, if Core was willing.
  ghost predicate ListMoved(was: seq<Address>, later: seq<Address>, key: Address -> Key, address: Address, out: Option<Peer>,
                            willing: Willing)
  {
    && (forall a :: a in was && !(Goes(out, a) && willing.evict) ==> a in later)
    && (forall a :: a in later ==> a in was || a == address)
    && (forall a :: Goes(out, a) && willing.evict ==> a !in later)
    && (HasKey(later, key, key(address)) || (out.Some? && key(out.value.address) == key(address)))
  }

  lemma RowsAfterMoves(t: Tables, request: Request, out: Option<Peer>, now: int)
    requires out.Some? ==> out.value.address != request.address
    ensures RowsMoved(t, ManualPeers.RowsAfter(t, request, out, now), request, out, now)
  {
  }

  lemma RowsAfterParks(t: Tables, request: Request, out: Option<Peer>, now: int)
    requires out.Some? ==> out.value.address != request.address
    ensures ParkedMoved(t, ManualPeers.RowsAfter(t, request, out, now), request, out, now)
  {
  }

  lemma CoreAfterMoves(core: seq<Address>, key: Address -> Key, request: Request, out: Option<Peer>, willing: Willing)
    requires willing.add && (out.Some? ==> out.value.address != request.address)
    ensures ListMoved(core, ManualPeers.CoreAfter(core, key, request, out, willing), key, request.address, out, willing)
  {
    var later := ManualPeers.CoreAfter(core, key, request, out, willing);
    AddedIsListed(core, key, request.address);
    var added := AfterAddnode(core, key, request.address, true);
    var i :| 0 <= i < |added| && key(added[i]) == key(request.address);
    if added[i] in later { HasKeyOf(later, key, added[i]); }
  }

  lemma AddedIsListed(core: seq<Address>, key: Address -> Key, address: Address)
    ensures var added := AfterAddnode(core, key, address, true);
      && HasKey(added, key, key(address))
      && (forall a :: a in core ==> a in added) && (forall a :: a in added ==> a in core || a == address)
  {
    var added := AfterAddnode(core, key, address, true);
    if AddnodeAnswer(core, key, address, true) == Accepted { assert added[|core|] == address; }
  }

  // What is owed to Core after an add.
  ghost predicate OwedMoved(was: map<Key, int>, later: map<Key, int>, key: Address -> Key, out: Option<Peer>, willing: Willing,
                            now: int)
  {
    if out.Some? && !willing.evict then Remembers(was, later, key(out.value.address), now) else later == was
  }

  ghost predicate OnlySpelling(trusted: map<Address, TrustedRow>, key: Address -> Key, address: Address) {
    forall a :: a in trusted && key(a) == key(address) ==> a == address
  }

  // What an add needs of the tables.
  ghost predicate Admits(max: nat, key: Address -> Key, trusted: map<Address, TrustedRow>, request: Request,
                         ranking: seq<Peer>)
  {
    OnlySpelling(trusted, key, request.address) && HasRoom(max, trusted, request, ranking)
  }

  // All four tables and lists.
  ghost predicate AddDone(was: Tables, later: Tables, before: Books, after: Books, key: Address -> Key, request: Request,
                          out: Option<Peer>, willing: Willing, now: int)
  {
    && RowsMoved(was, later, request, out, now)
    && ParkedMoved(was, later, request, out, now)
    && ListMoved(before.core, after.core, key, request.address, out, willing)
    && OwedMoved(before.pending, after.pending, key, out, willing, now)
  }

  lemma AddIsDone(was: Tables, later: Tables, before: Books, after: Books, key: Address -> Key, request: Request,
                  out: Option<Peer>, willing: Willing, now: int)
    requires willing.add && (out.Some? ==> out.value.address != request.address)
    requires later == ManualPeers.RowsAfter(was, request, out, now)
    requires after.core == ManualPeers.CoreAfter(before.core, key, request, out, willing)
    requires after.pending == ManualPeers.PendingAfter(before.pending, key, out, willing, now)
    ensures AddDone(was, later, before, after, key, request, out, willing, now)
  {
    RowsAfterMoves(was, request, out, now);
    RowsAfterParks(was, request, out, now);
    CoreAfterMoves(before.core, key, request, out, willing);
    if out.Some? { RefusedIsRemembered(before.pending, key(out.value.address), now); }
  }

  lemma KeysStayDistinct(was: Tables, later: Tables, key: Address -> Key, request: Request, out: Option<Peer>, now: int)
    requires RowsMoved(was, later, request, out, now)
    requires DistinctKeys(was.trusted, key) && OnlySpelling(was.trusted, key, request.address)
    ensures DistinctKeys(later.trusted, key)
  {
  }

  class ManualPeers {
    const max: nat
    const key: Address -> Key
    var trusted: map<Address, TrustedRow>
    var parked: map<Address, ParkedRow>
    var peers: set<Address>
    var pending: map<Key, int>
    var core: seq<Address>

    constructor (max: nat, key: Address -> Key)
      ensures this.max == max && this.key == key
      ensures trusted == map[] && parked == map[] && peers == {} && pending == map[] && core == []
    {
      this.max, this.key := max, key;
      trusted, parked, peers, pending, core := map[], map[], {}, map[], [];
    }

    function Account(): Books
      reads this
    {
      Books(trusted, peers, pending, core)
    }

    function Rows(): Tables
      reads this
    {
      Tables(trusted, parked, peers)
    }

    // SELECT address FROM trusted_peer, .find by key: some row under the key.
    method FindSameNode(address: Address) returns (found: Option<Address>)
      ensures SameNode(trusted, key, address, found)
    {
      var todo := trusted.Keys;
      while todo != {}
        invariant todo <= trusted.Keys
        invariant forall a :: a in trusted && a !in todo ==> key(a) != key(address)
      {
        var a :| a in todo;
        if key(a) == key(address) { return Some(a); }
        todo := todo - {a};
      }
      return None;
    }

    method ParkPeer(peer: Peer, now: int) returns (done: bool)
      modifies this`parked
      ensures parked == Park(old(parked), peer, now)
      ensures done <==> peer.address != "" && peer.eligible > 0
      ensures done ==> peer.address in parked && IsFreshRow(old(parked), parked[peer.address], peer, now)
      ensures !done ==> parked == old(parked)
      ensures forall a :: a != peer.address ==> (a in parked <==> a in old(parked)) && (a in parked ==> parked[a] == old(parked)[a])
    {
      if peer.address == "" { return false; }
      if peer.eligible == 0 { return false; }
      var caption := if peer.address in parked then parked[peer.address].caption else peer.trustedCaption;
      parked := parked[peer.address := ParkedRow(caption, peer.firstPct, peer.eligible, now, None, 0)];
      return true;
    }

    method RemoveTrustedPeer(address: Address, willing: bool, now: int)
      modifies this`trusted, this`core, this`pending
      ensures trusted == old(trusted) - {address}
      ensures core == AfterRemove(old(core), address, willing)
      ensures pending == Remembered(old(pending), key(address), willing, now)
      // A removal that Core refuses is remembered; one it carries out leaves no entry.
      ensures willing ==> pending == old(pending) && address !in core
      ensures !willing ==> core == old(core) && Remembers(old(pending), pending, key(address), now)
      ensures forall a :: a in core <==> a in old(core) && !(willing && a == address)
      ensures address !in trusted
    {
      RefusedIsRemembered(pending, key(address), now);
      trusted := trusted - {address};
      if willing {
        core := Without(core, address);
      } else {
        var all := LiveRemovals(pending, now);
        pending := all[key(address) := now];
      }
    }

    method SetKept(address: Address, kept: bool) returns (changed: bool)
      modifies this`trusted
      ensures changed <==> address in old(trusted)
      ensures !changed ==> trusted == old(trusted)
      ensures changed ==> trusted == old(trusted)[address := old(trusted)[address].(kept := kept)]
    {
      if address !in trusted { return false; }
      trusted := trusted[address := trusted[address].(kept := kept)];
      return true;
    }

    // The rows and lists once an add has gone through, with its eviction.
    static ghost function RowsAfter(t: Tables, request: Request, victim: Option<Peer>, now: int): Tables {
      var written := RecordPeer(WriteRow(t, request, now), request.address);
      match victim
      case None => written
      case Some(v) => ParkVictim(DeleteRow(written, v.address), request, v, now)
    }

    static ghost function CoreAfter(core: seq<Address>, key: Address -> Key, request: Request, victim: Option<Peer>,
                                    willing: Willing): seq<Address>
    {
      var added := AfterAddnode(core, key, request.address, willing.add);
      match victim
      case None => added
      case Some(v) => AfterRemove(added, v.address, willing.evict)
    }

    static ghost function PendingAfter(pending: map<Key, int>, key: Address -> Key, victim: Option<Peer>, willing: Willing,
                                       now: int): map<Key, int>
    {
      match victim
      case None => pending
      case Some(v) => Remembered(pending, key(v.address), willing.evict, now)
    }

    method AddTrustedPeer(request: Request, ranking: seq<Peer>, willing: Willing, now: int) returns (r: AddResult)
      modifies this
      // All or nothing. What is left behind by a failed add is at most its own
      // addnode entry, when Core would not take it back.
      ensures r.NotOk? ==> Rows() == old(Rows()) && pending == old(pending)
      ensures r.NotOk? ==> core == old(core) || (core == old(core) + [request.address] && willing.add && !willing.takeBack)
      ensures r.Ok? ==>
        && MakesRoom(max, old(trusted), request, ranking, r.evicted)
        && AddDone(old(Rows()), Rows(), old(Account()), Account(), key, request, r.evicted, willing, now)
      ensures r.Ok? ==>
        && Rows() == RowsAfter(old(Rows()), request, r.evicted, now)
        && core == CoreAfter(old(core), key, request, r.evicted, willing)
        && pending == PendingAfter(old(pending), key, r.evicted, willing, now)
        && r.parked == (r.evicted.Some? && GetsParked(request, r.evicted, r.evicted.value.address))
      ensures r.Ok? ==> forall a :: a in old(trusted) && key(a) == key(request.address) ==> r.evicted.None?
      ensures r.Ok? ==> Fits(max, old(trusted), request.address, r.evicted)
      // Exactly when it goes through; and no node ever gets two rows.
      ensures DistinctKeys(old(trusted), key) ==>
        (r.Ok? <==> Admits(max, key, old(trusted), request, ranking) && willing.add)
      ensures DistinctKeys(old(trusted), key) ==> DistinctKeys(trusted, key)
    {
      ghost var was := Rows();
      VictimMakesRoom(max, trusted, request, ranking);
      r := Attempt(request, ranking, willing, now);
      if r.Ok? {
        if DistinctKeys(was.trusted, key) { KeysStayDistinct(was, Rows(), key, request, r.evicted, now); }
      }
    }

    // The decision before the first await, and then the call.
    method Attempt(request: Request, ranking: seq<Peer>, willing: Willing, now: int) returns (r: AddResult)
      modifies this
      ensures r.NotOk? ==> Rows() == old(Rows()) && pending == old(pending)
      ensures r.NotOk? ==> core == old(core) || (core == old(core) + [request.address] && willing.add && !willing.takeBack)
      ensures r.Ok? ==> var victim := VictimFor(max, old(trusted), request, ranking);
        && victim.Go? && r.evicted == victim.victim
        && Rows() == RowsAfter(old(Rows()), request, victim.victim, now)
        && core == CoreAfter(old(core), key, request, victim.victim, willing)
        && pending == PendingAfter(old(pending), key, victim.victim, willing, now)
        && r.parked == (r.evicted.Some? && GetsParked(request, r.evicted, r.evicted.value.address))
      ensures r.Ok? ==> willing.add
      ensures r.Ok? ==> AddDone(old(Rows()), Rows(), old(Account()), Account(), key, request, r.evicted, willing, now)
      ensures r.Ok? ==> forall a :: a in old(trusted) && key(a) == key(request.address) ==> r.evicted.None?
      ensures r.Ok? ==> Fits(max, old(trusted), request.address, r.evicted)
      ensures r.Ok? && DistinctKeys(old(trusted), key) ==> OnlySpelling(old(trusted), key, request.address)
      ensures DistinctKeys(old(trusted), key) ==>
        (r.Ok? <==>
          && OnlySpelling(old(trusted), key, request.address)
          && VictimFor(max, old(trusted), request, ranking).Go?
          && Fits(max, old(trusted), request.address, VictimFor(max, old(trusted), request, ranking).victim)
          && willing.add)
    {
      var same := FindSameNode(request.address);
      if same.Some? && same.value != request.address { return NotOk; }
      var victim: Option<Peer> := None;
      if same.None? {
        var replace := request.options.replace;
        if |trusted| >= max && replace.Some? && replace.value.address != request.address {
          victim := replace;
        } else if |trusted| >= max {
          if !request.options.evictToFit { return NotOk; }
          victim := Displaceable(ranking, request.address);
          if victim.None? { return NotOk; }
        }
      }
      assert same.None? ==> request.address !in trusted;
      assert VictimFor(max, trusted, request, ranking) == Go(victim);
      r := Dial(request, victim, willing, now);
    }

    // From the addnode on.
    method Dial(request: Request, victim: Option<Peer>, willing: Willing, now: int) returns (r: AddResult)
      requires victim.Some? ==> request.address !in trusted && victim.value.address != request.address
      modifies this
      ensures r.Ok? <==> willing.add && Fits(max, old(trusted), request.address, victim)
      ensures r.NotOk? ==> Rows() == old(Rows()) && pending == old(pending)
      ensures r.NotOk? ==> core == old(core) || (core == old(core) + [request.address] && willing.add && !willing.takeBack)
      ensures r.Ok? ==> r.evicted == victim && Rows() == RowsAfter(old(Rows()), request, victim, now)
      ensures r.Ok? ==> core == CoreAfter(old(core), key, request, victim, willing)
      ensures r.Ok? ==> pending == PendingAfter(old(pending), key, victim, willing, now)
      ensures r.Ok? ==> r.parked == (victim.Some? && GetsParked(request, victim, victim.value.address))
      ensures r.Ok? ==> AddDone(old(Rows()), Rows(), old(Account()), Account(), key, request, victim, willing, now)
    {
      ghost var was, before := Rows(), Account();
      var answer := AddnodeAnswer(core, key, request.address, willing.add);
      if answer == Refused { return NotOk; }
      if answer == Accepted { core := core + [request.address]; }

      var fits := request.address in trusted || |trusted| < Limit(max, victim);
      if !fits {
        if answer == Accepted {
          if willing.takeBack { HasKeyMiss(old(core), key, request.address); }
          core := AfterRemove(core, request.address, willing.takeBack);
        }
        return NotOk;
      }
      var done := Write(request, victim, willing.evict, now);
      AddIsDone(was, Rows(), before, Account(), key, request, victim, willing, now);
      return Ok(victim, done);
    }

    // The row is in; whoever makes room for it goes.
    method Write(request: Request, victim: Option<Peer>, willing: bool, now: int) returns (done: bool)
      modifies this
      ensures Rows() == RowsAfter(old(Rows()), request, victim, now)
      ensures core == if victim.Some? then AfterRemove(old(core), victim.value.address, willing) else old(core)
      ensures pending == if victim.Some? then Remembered(old(pending), key(victim.value.address), willing, now) else old(pending)
      ensures done == (victim.Some? && GetsParked(request, victim, victim.value.address))
    {
      trusted := Upsert(trusted, request.address, request.caption, request.options.kept, now);
      peers := peers + {request.address};
      parked := parked - {request.address};
      done := false;
      if victim.Some? {
        RemoveTrustedPeer(victim.value.address, willing, now);
        if request.options.parkEvicted && !victim.value.Live() { done := ParkPeer(victim.value, now); }
      }
    }

    // ---- Reconciling with Core -----------------------------------------------

    // SELECT ... ORDER BY created_at ASC
    method OldestFirst() returns (order: seq<Address>)
      ensures IsOldestFirst(order, trusted)
    {
      order := [];
      var todo := trusted.Keys;
      while todo != {}
        invariant todo <= trusted.Keys
        invariant forall a :: a in order <==> a in trusted && a !in todo
        invariant forall i, j :: 0 <= i < j < |order| ==> order[i] != order[j]
        invariant forall i, j :: 0 <= i < j < |order| ==> trusted[order[i]].createdAt <= trusted[order[j]].createdAt
        invariant forall a, b :: a in order && b in todo ==> trusted[a].createdAt <= trusted[b].createdAt
      {
        var oldest :| oldest in todo;
        var rest := todo - {oldest};
        while rest != {}
          invariant oldest in todo && rest <= todo
          invariant forall b :: b in todo && b !in rest ==> trusted[oldest].createdAt <= trusted[b].createdAt
        {
          var b :| b in rest;
          rest := rest - {b};
          if trusted[b].createdAt < trusted[oldest].createdAt { oldest := b; }
        }
        order := order + [oldest];
        todo := todo - {oldest};
      }
    }

    method AdoptExternalManualPeers(removes: Address -> bool, now: int) returns (nodes: seq<Address>)
      modifies this`trusted, this`peers, this`pending, this`core
      ensures nodes == old(core)
      ensures Account() == Adopt(max, key, now, removes, old(Account()))
    {
      nodes := core;
      ghost var was := Account();
      ghost var begun := Opened(key, now, was);
      var known := KeysOf(trusted, key);
      var work := LiveRemovals(pending, now);
      var changed := false;
      var i := 0;
      while i < |nodes|
        invariant 0 <= i <= |nodes| && pending == was.pending
        invariant AdoptAll(max, key, now, removes, begun, nodes) ==
                  AdoptAll(max, key, now, removes, Adopting(trusted, known, peers, work, changed, core), nodes[i..])
      {
        var node := nodes[i];
        assert nodes[i..][1..] == nodes[i + 1..];
        i := i + 1;
        if node == "" || key(node) in known { continue; }
        if key(node) in work {
          if removes(node) {
            core := Without(core, node);
            work := work - {key(node)};
            changed := true;
          }
          continue;
        }
        if |known| >= max { continue; }
        if node !in trusted { trusted := trusted[node := TrustedRow(None, true, now)]; }
        known := known + {key(node)};
        peers := peers + {node};
      }
      if changed { pending := work; }
    }

    method SyncTrustedToAddnode(listed: seq<Address>, adds: Address -> bool) returns (ghost order: seq<Address>)
      modifies this`core
      ensures IsOldestFirst(order, trusted)
      ensures Account() == Sync(max, key, listed, adds, old(Account()), order)
    {
      var rows := OldestFirst();
      order := rows;
      ghost var start := Syncing(core, Listed(key, listed, rows));
      var slotsUsed: nat := CountListed(listed, rows);
      var i := 0;
      while i < |rows|
        invariant 0 <= i <= |rows|
        invariant SyncAll(max, key, listed, adds, start, rows) ==
                  SyncAll(max, key, listed, adds, Syncing(core, slotsUsed), rows[i..])
      {
        assert rows[i..][1..] == rows[i + 1..];
        slotsUsed := SyncOneRow(listed, adds, rows[i], slotsUsed);
        i := i + 1;
      }
    }

    method SyncOneRow(listed: seq<Address>, adds: Address -> bool, address: Address, used: nat) returns (slotsUsed: nat)
      modifies this`core
      ensures Syncing(core, slotsUsed) == SyncOne(max, key, listed, adds, Syncing(old(core), used), address)
    {
      slotsUsed := used;
      if HasKey(listed, key, key(address)) { return; }
      if slotsUsed >= max { return; }
      if AddnodeAnswer(core, key, address, adds(address)) == Accepted {
        core := core + [address];
        slotsUsed := slotsUsed + 1;
      }
    }

    method CountListed(listed: seq<Address>, rows: seq<Address>) returns (n: nat)
      ensures n == Listed(key, listed, rows)
    {
      n := 0;
      var i := 0;
      while i < |rows|
        invariant 0 <= i <= |rows|
        invariant n + Listed(key, listed, rows[i..]) == Listed(key, listed, rows)
      {
        assert rows[i..][1..] == rows[i + 1..];
        if HasKey(listed, key, key(rows[i])) { n := n + 1; }
        i := i + 1;
      }
    }

    // The pass that runs on startup, every ten minutes and after a Core restart.
    method AdoptThenSync(removes: Address -> bool, adds: Address -> bool, now: int) returns (ghost order: seq<Address>)
      modifies this`trusted, this`peers, this`pending, this`core
      ensures IsOldestFirst(order, trusted)
      ensures Account() == Sync(max, key, old(core), adds, Adopt(max, key, now, removes, old(Account())), order)
      ensures InOrder(max, key, old(Account())) && removes == ALWAYS && adds == ALWAYS ==>
        Reconciled(max, key, now, old(Account()), Account())
    {
      ghost var was := Account();
      var nodes := AdoptExternalManualPeers(removes, now);
      order := SyncTrustedToAddnode(nodes, adds);
      if InOrder(max, key, was) && removes == ALWAYS && adds == ALWAYS { OnePassReconciles(max, key, now, was, order); }
    }
  }

  // ---- The protocol, run alone ------------------------------------------------------

  // The steps of one call with nothing in between, on what it read at its start.
  function Alone(max: nat, t: Tables, id: CallId, request: Request, ranking: seq<Peer>, willing: Willing, now: int): seq<Action> {
    [Begin(id, request, if request.address in t.trusted then Some(request.address) else None, |t.trusted|,
           Displaceable(ranking, request.address))] +
    ([AddnodeDone(id, willing.add)] + ([Commit(id, now)] + ([TakeBackDone(id, willing.takeBack)] +
    ([Record(id)] + ([DeleteVictim(id)] + ([VictimDone(id, willing.evict, now)] + []))))))
  }

  // From the transaction on.
  function Finished(max: nat, key: Address -> Key, s: AddProtocol.State, id: CallId, willing: Willing, now: int): AddProtocol.State {
    OnVictimDone(key, OnDeleteVictim(OnRecord(OnTakeBackDone(OnCommit(max, s, id, now), id, willing.takeBack), id), id), id,
                 willing.evict, now)
  }

  lemma RunAlone(max: nat, key: Address -> Key, s: AddProtocol.State, id: CallId, request: Request, ranking: seq<Peer>,
                 willing: Willing, now: int)
    ensures var begun := OnBegin(max, s, id, request, if request.address in s.tables.trusted then Some(request.address) else None,
                                 |s.tables.trusted|, Displaceable(ranking, request.address));
      Run(max, key, s, Alone(max, s.tables, id, request, ranking, willing, now)) ==
        Finished(max, key, OnAddnodeDone(key, begun, id, willing.add), id, willing, now)
  {
    var same := if request.address in s.tables.trusted then Some(request.address) else None;
    var a, b := Begin(id, request, same, |s.tables.trusted|, Displaceable(ranking, request.address)), AddnodeDone(id, willing.add);
    var c, d := Commit(id, now), TakeBackDone(id, willing.takeBack);
    var tail := [Record(id)] + ([DeleteVictim(id)] + ([VictimDone(id, willing.evict, now)] + []));
    var s1 := Next(max, key, s, a);
    var s2 := Next(max, key, s1, b);
    var s3 := Next(max, key, s2, c);
    RunOne(max, key, s, a, [b] + ([c] + ([d] + tail)));
    RunThree(max, key, s1, b, c, d, tail);
    RunThree(max, key, Next(max, key, s3, d), Record(id), DeleteVictim(id), VictimDone(id, willing.evict, now), []);
  }

  // What the call leaves, in the terms of the call.
  ghost predicate LeftBy(max: nat, key: Address -> Key, s: AddProtocol.State, t: AddProtocol.State, id: CallId, request: Request,
                         decision: Decision, willing: Willing, now: int)
  {
    id in t.calls &&
    if decision.Go? && willing.add && Fits(max, s.tables.trusted, request.address, decision.victim) then
      && t.calls[id].Added?
      && t.tables == ManualPeers.RowsAfter(s.tables, request, decision.victim, now)
      && t.core == ManualPeers.CoreAfter(s.core, key, request, decision.victim, willing)
      && t.pending == ManualPeers.PendingAfter(s.pending, key, decision.victim, willing, now)
    else
      && t.calls[id].Failed? && t.tables == s.tables && t.pending == s.pending
      && (t.core == s.core || (t.core == s.core + [request.address] && willing.add && !willing.takeBack))
  }

  lemma FinishesFitting(max: nat, key: Address -> Key, s: AddProtocol.State, id: CallId, request: Request, victim: Option<Peer>,
                        already: bool, willing: Willing, now: int)
    requires id in s.calls && s.calls[id] == Writing(request, victim, already)
    requires Fits(max, s.tables.trusted, request.address, victim)
    ensures var t := Finished(max, key, s, id, willing, now);
      && id in t.calls && t.calls[id].Added?
      && t.tables == ManualPeers.RowsAfter(s.tables, request, victim, now)
      && t.core == (if victim.Some? then AfterRemove(s.core, victim.value.address, willing.evict) else s.core)
      && t.pending == ManualPeers.PendingAfter(s.pending, key, victim, willing, now)
  {
    var s1 := OnCommit(max, s, id, now);
    assert s1 == Moved(s.(tables := WriteRow(s.tables, request, now)), id, Recording(request, victim));
    assert OnTakeBackDone(s1, id, willing.takeBack) == s1;
    var s2 := OnRecord(s1, id);
    match victim
    case None => assert Finished(max, key, s, id, willing, now) == s2;
    case Some(v) =>
      assert s2.calls[id] == Evicting(request, v);
      var s3 := OnDeleteVictim(s2, id);
      assert s3.calls[id] == Parking(request, v);
      assert Finished(max, key, s, id, willing, now) == OnVictimDone(key, s3, id, willing.evict, now);
  }

  lemma FinishesFailing(max: nat, key: Address -> Key, s: AddProtocol.State, id: CallId, willing: Willing, now: int)
    requires id in s.calls
    requires s.calls[id].Failed? ||
      (s.calls[id].Writing? && !Fits(max, s.tables.trusted, s.calls[id].request.address, s.calls[id].victim))
    ensures var t := Finished(max, key, s, id, willing, now);
      && id in t.calls && t.calls[id].Failed? && t.tables == s.tables && t.pending == s.pending
      && t.core == (if s.calls[id].Writing? && !s.calls[id].alreadyInCore
                    then AfterRemove(s.core, s.calls[id].request.address, willing.takeBack) else s.core)
  {
    var s2 := OnTakeBackDone(OnCommit(max, s, id, now), id, willing.takeBack);
    assert s2.calls[id].Failed? && s2.tables == s.tables && s2.pending == s.pending;
    assert Finished(max, key, s, id, willing, now) == s2;
  }

  // One call of the protocol with nobody else in between is the call above: it goes
  // through in the same cases and leaves the same tables and lists.
  lemma AloneIsTheCall(max: nat, key: Address -> Key, s: AddProtocol.State, id: CallId, request: Request, ranking: seq<Peer>,
                       willing: Willing, now: int)
    requires id !in s.calls && OnlySpelling(s.tables.trusted, key, request.address)
    ensures LeftBy(max, key, s, Run(max, key, s, Alone(max, s.tables, id, request, ranking, willing, now)), id, request,
                   VictimFor(max, s.tables.trusted, request, ranking), willing, now)
  {
    var decision := VictimFor(max, s.tables.trusted, request, ranking);
    var same := if request.address in s.tables.trusted then Some(request.address) else None;
    var begun := OnBegin(max, s, id, request, same, |s.tables.trusted|, Displaceable(ranking, request.address));
    var dialled := OnAddnodeDone(key, begun, id, willing.add);
    RunAlone(max, key, s, id, request, ranking, willing, now);
    if decision.Refuse? || !willing.add {
      assert dialled.calls[id].Failed? && dialled.tables == s.tables && dialled.pending == s.pending;
      FinishesFailing(max, key, dialled, id, willing, now);
    } else {
      var already := AddnodeAnswer(s.core, key, request.address, true) == AlreadyAdded;
      assert dialled.calls[id] == Writing(request, decision.victim, already);
      if Fits(max, s.tables.trusted, request.address, decision.victim) {
        FinishesFitting(max, key, dialled, id, request, decision.victim, already, willing, now);
      } else {
        FinishesFailing(max, key, dialled, id, willing, now);
        if !already {
          assert dialled.core == s.core + [request.address];
          if willing.takeBack { HasKeyMiss(s.core, key, request.address); }
        }
      }
    }
  }

  lemma HasKeyMiss(core: seq<Address>, key: Address -> Key, address: Address)
    requires !HasKey(core, key, key(address))
    ensures address !in core && Without(core + [address], address) == core
  {
    if address in core { HasKeyOf(core, key, address); assert false; }
    WithoutLast(core, address);
  }
}
