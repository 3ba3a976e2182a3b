/**
 * src/lib/peer-sync.js: addTrustedPeer, removeTrustedPeer and setKept as
 * concurrent calls, cut at every await and at the write transaction.
 *
 * Each call in flight has a program counter. What it decided before its first
 * await was read from a table that any number of other calls may have changed
 * since, so those reads are free choices here; only the transaction reads the
 * table it writes.
 */
module AddProtocol {
  import opened Wrappers
  import opened PeerTables

  type CallId = nat

  datatype Options = Options(evictToFit: bool, kept: bool, replace: Option<Peer>, parkEvicted: bool)

  datatype Request = Request(address: Address, caption: Option<string>, options: Options)

  datatype Decision = Refuse | Go(victim: Option<Peer>)

  // Everything addTrustedPeer settles before its first await. `same` is the row
  // found under the same key, `weakest` the weakest evictable peer.
  function Decide(max: nat, same: Option<Address>, count: nat, request: Request, weakest: Option<Peer>): Decision {
    var replace := request.options.replace;
    if same.Some? && same.value != request.address then Refuse
    else if same.Some? then Go(None)
    else if count >= max && replace.Some? && replace.value.address != request.address then Go(replace)
    else if count >= max then
      if !request.options.evictToFit || weakest.None? then Refuse else Go(weakest)
    else Go(None)
  }

  datatype Call =
    | Adding(request: Request, victim: Option<Peer>)
    | Writing(request: Request, victim: Option<Peer>, alreadyInCore: bool)
    | TakingBack(request: Request)
    | Recording(request: Request, victim: Option<Peer>)
    | Evicting(request: Request, out: Peer)
    | Parking(request: Request, out: Peer)
    | Added
    | Failed
    | Removing(address: Address)
    | Removed

  datatype Tables = Tables(trusted: map<Address, TrustedRow>, parked: map<Address, ParkedRow>, peers: set<Address>)

  datatype State = State(tables: Tables, core: seq<Address>, pending: map<Key, int>, calls: map<CallId, Call>)

  datatype Action =
    | Begin(id: CallId, request: Request, same: Option<Address>, count: nat, weakest: Option<Peer>)
    | AddnodeDone(id: CallId, willing: bool)
    | Commit(id: CallId, now: int)
    | TakeBackDone(id: CallId, willing: bool)
    | Record(id: CallId)
    | DeleteVictim(id: CallId)
    | VictimDone(id: CallId, willing: bool, now: int)
    | BeginRemove(id: CallId, address: Address)
    | RemoveDone(id: CallId, willing: bool, now: int)
    | SetKept(address: Address, kept: bool)

  // ---- The table steps, each one atomic ------------------------------------

  function Limit(max: nat, victim: Option<Peer>): nat { max + if victim.Some? then 1 else 0 }

  // The IMMEDIATE transaction: count again, then write, in one step.
  predicate Fits(max: nat, trusted: map<Address, TrustedRow>, address: Address, victim: Option<Peer>) {
    address in trusted || |trusted| < Limit(max, victim)
  }

  function WriteRow(t: Tables, request: Request, now: int): Tables {
    t.(trusted := Upsert(t.trusted, request.address, request.caption, request.options.kept, now))
  }

  function RecordPeer(t: Tables, address: Address): Tables {
    t.(peers := t.peers + {address}, parked := t.parked - {address})
  }

  function DeleteRow(t: Tables, address: Address): Tables { t.(trusted := t.trusted - {address}) }

  function ParkVictim(t: Tables, request: Request, victim: Peer, now: int): Tables {
    if request.options.parkEvicted && !victim.Live() then t.(parked := Park(t.parked, victim, now)) else t
  }

  function Star(t: Tables, address: Address, kept: bool): Tables {
    if address in t.trusted then t.(trusted := t.trusted[address := t.trusted[address].(kept := kept)]) else t
  }

  // ---- One action ----------------------------------------------------------

  function Moved(s: State, id: CallId, call: Call): State { s.(calls := s.calls[id := call]) }

  // An action whose call is not at the point it names does nothing.

  function OnBegin(max: nat, s: State, id: CallId, request: Request, same: Option<Address>, count: nat,
                   weakest: Option<Peer>): State
  {
    if id in s.calls then s
    else
      var decision := Decide(max, same, count, request, weakest);
      Moved(s, id, if decision.Refuse? then Failed else Adding(request, decision.victim))
  }

  function OnAddnodeDone(key: Address -> Key, s: State, id: CallId, willing: bool): State {
    if id in s.calls && s.calls[id].Adding? then
      var request, victim := s.calls[id].request, s.calls[id].victim;
      var answer := AddnodeAnswer(s.core, key, request.address, willing);
      if answer == Refused then Moved(s, id, Failed)
      else Moved(s.(core := AfterAddnode(s.core, key, request.address, willing)), id,
                 Writing(request, victim, answer == AlreadyAdded))
    else s
  }

  function OnCommit(max: nat, s: State, id: CallId, now: int): State {
    if id in s.calls && s.calls[id].Writing? then
      var request, victim := s.calls[id].request, s.calls[id].victim;
      if Fits(max, s.tables.trusted, request.address, victim)
      then Moved(s.(tables := WriteRow(s.tables, request, now)), id, Recording(request, victim))
      else Moved(s, id, if s.calls[id].alreadyInCore then Failed else TakingBack(request))
    else s
  }

  function OnTakeBackDone(s: State, id: CallId, willing: bool): State {
    if id in s.calls && s.calls[id].TakingBack? then
      Moved(s.(core := AfterRemove(s.core, s.calls[id].request.address, willing)), id, Failed)
    else s
  }

  function OnRecord(s: State, id: CallId): State {
    if id in s.calls && s.calls[id].Recording? then
      var request, victim := s.calls[id].request, s.calls[id].victim;
      Moved(s.(tables := RecordPeer(s.tables, request.address)), id,
            if victim.Some? then Evicting(request, victim.value) else Added)
    else s
  }

  function OnDeleteVictim(s: State, id: CallId): State {
    if id in s.calls && s.calls[id].Evicting? then
      Moved(s.(tables := DeleteRow(s.tables, s.calls[id].out.address)), id, Parking(s.calls[id].request, s.calls[id].out))
    else s
  }

  function OnVictimDone(key: Address -> Key, s: State, id: CallId, willing: bool, now: int): State {
    if id in s.calls && s.calls[id].Parking? then
      var victim := s.calls[id].out;
      Moved(s.(core := AfterRemove(s.core, victim.address, willing),
               pending := Remembered(s.pending, key(victim.address), willing, now),
               tables := ParkVictim(s.tables, s.calls[id].request, victim, now)), id, Added)
    else s
  }

  function OnBeginRemove(s: State, id: CallId, address: Address): State {
    if id in s.calls then s else Moved(s.(tables := DeleteRow(s.tables, address)), id, Removing(address))
  }

  function OnRemoveDone(key: Address -> Key, s: State, id: CallId, willing: bool, now: int): State {
    if id in s.calls && s.calls[id].Removing? then
      var address := s.calls[id].address;
      Moved(s.(core := AfterRemove(s.core, address, willing),
               pending := Remembered(s.pending, key(address), willing, now)), id, Removed)
    else s
  }

  function Next(max: nat, key: Address -> Key, s: State, a: Action): State {
    match a
    case Begin(id, request, same, count, weakest) => OnBegin(max, s, id, request, same, count, weakest)
    case AddnodeDone(id, willing) => OnAddnodeDone(key, s, id, willing)
    case Commit(id, now) => OnCommit(max, s, id, now)
    case TakeBackDone(id, willing) => OnTakeBackDone(s, id, willing)
    case Record(id) => OnRecord(s, id)
    case DeleteVictim(id) => OnDeleteVictim(s, id)
    case VictimDone(id, willing, now) => OnVictimDone(key, s, id, willing, now)
    case BeginRemove(id, address) => OnBeginRemove(s, id, address)
    case RemoveDone(id, willing, now) => OnRemoveDone(key, s, id, willing, now)
    case SetKept(address, kept) => s.(tables := Star(s.tables, address, kept))
  }

  function Run(max: nat, key: Address -> Key, s: State, actions: seq<Action>): State
    decreases |actions|
  {
    if |actions| == 0 then s else Run(max, key, Next(max, key, s, actions[0]), actions[1..])
  }

  // ---- The cap under interleaving --------------------------------------------

  // Between its insert and its delete.
  ghost predicate OwesADelete(c: Call) {
    match c
    case Recording(_, victim) => victim.Some?
    case Evicting(_, _) => true
    case _ => false
  }

  ghost function VictimOf(c: Call): Address
    requires OwesADelete(c)
  {
    match c
    case Recording(_, victim) => victim.value.address
    case Evicting(_, victim) => victim.address
  }

  ghost predicate NobodyOwes(s: State) { forall id :: id in s.calls ==> !OwesADelete(s.calls[id]) }

  // The one row over the cap is always spoken for.
  ghost predicate Spoken(s: State, id: CallId) {
    id in s.calls && OwesADelete(s.calls[id]) && VictimOf(s.calls[id]) in s.tables.trusted
  }

  ghost predicate WithinCap(max: nat, s: State) {
    |s.tables.trusted| > max ==> exists id :: Spoken(s, id)
  }

  // The hypothesis nothing in the code checks: when an evicting add writes, its
  // victim still is a row, and is not the address being added.
  ghost predicate VictimIsARow(s: State, a: Action) {
    a.Commit? && a.id in s.calls && s.calls[a.id].Writing? && s.calls[a.id].victim.Some?
    && s.calls[a.id].request.address !in s.tables.trusted ==>
      s.calls[a.id].victim.value.address in s.tables.trusted
  }

  ghost predicate VictimsAreRows(max: nat, key: Address -> Key, s: State, actions: seq<Action>)
    decreases |actions|
  {
    |actions| > 0 ==>
      VictimIsARow(s, actions[0]) && VictimsAreRows(max, key, Next(max, key, s, actions[0]), actions[1..])
  }

  // Which rows an action touches: the commit writes one, two kinds delete one.
  lemma RowsTouched(max: nat, key: Address -> Key, s: State, a: Action)
    ensures var t := Next(max, key, s, a);
      match a
      case Commit(id, now) => true
      case DeleteVictim(id) =>
        t == s || (id in s.calls && s.calls[id].Evicting? && t.tables.trusted == s.tables.trusted - {s.calls[id].out.address})
      case BeginRemove(id, address) => t == s || (id !in s.calls && t.tables.trusted == s.tables.trusted - {address})
      case SetKept(_, _) => t.tables.trusted.Keys == s.tables.trusted.Keys && t.calls == s.calls
      case _ => t.tables.trusted == s.tables.trusted
  {
  }

  lemma CommitTouches(max: nat, s: State, id: CallId, now: int)
    ensures var t := OnCommit(max, s, id, now);
      t.tables.trusted == s.tables.trusted ||
      (id in s.calls && s.calls[id].Writing?
       && Fits(max, s.tables.trusted, s.calls[id].request.address, s.calls[id].victim)
       && t.tables.trusted.Keys == s.tables.trusted.Keys + {s.calls[id].request.address}
       && |t.tables.trusted| == |s.tables.trusted| + if s.calls[id].request.address in s.tables.trusted then 0 else 1)
  {
    if id in s.calls && s.calls[id].Writing? {
      var request := s.calls[id].request;
      UpsertSize(s.tables.trusted, request.address, request.caption, request.options.kept, now);
    }
  }

  // Two rows over is unreachable, with no hypothesis at all.
  lemma StepNeverTwoOver(max: nat, key: Address -> Key, s: State, a: Action)
    requires |s.tables.trusted| <= max + 1
    ensures |Next(max, key, s, a).tables.trusted| <= max + 1
  {
    RowsTouched(max, key, s, a);
    var t := Next(max, key, s, a);
    match a
    case Commit(id, now) => CommitTouches(max, s, id, now);
    case DeleteVictim(id) => if t != s { DeleteSize(s.tables.trusted, s.calls[id].out.address); }
    case BeginRemove(id, address) => DeleteSize(s.tables.trusted, address);
    case SetKept(address, kept) => assert |t.tables.trusted| == |t.tables.trusted.Keys|;
    case _ =>
  }

  lemma WitnessStays(s: State, t: State, w: CallId)
    requires Spoken(s, w) && w in t.calls && t.calls[w] == s.calls[w]
    requires VictimOf(s.calls[w]) in t.tables.trusted
    ensures Spoken(t, w)
  {
  }

  lemma CommitWithinCap(max: nat, s: State, id: CallId, now: int)
    requires WithinCap(max, s) && |s.tables.trusted| <= max + 1 && VictimIsARow(s, Commit(id, now))
    ensures WithinCap(max, OnCommit(max, s, id, now))
  {
    var t := OnCommit(max, s, id, now);
    CommitTouches(max, s, id, now);
    if |t.tables.trusted| > max {
      if |s.tables.trusted| > max {
        var w :| Spoken(s, w);
        WitnessStays(s, t, w);
      } else {
        assert Spoken(t, id);
      }
    }
  }

  lemma DeleteWithinCap(max: nat, s: State, t: State, id: CallId, address: Address)
    requires WithinCap(max, s) && |s.tables.trusted| <= max + 1
    requires t.tables.trusted == s.tables.trusted - {address}
    requires forall w :: w in s.calls && w != id ==> w in t.calls && t.calls[w] == s.calls[w]
    requires id in s.calls && OwesADelete(s.calls[id]) ==> VictimOf(s.calls[id]) == address
    ensures WithinCap(max, t)
  {
    DeleteSize(s.tables.trusted, address);
    if |t.tables.trusted| > max {
      var w :| Spoken(s, w);
      assert address !in s.tables.trusted;
      WitnessStays(s, t, w);
    }
  }

  lemma QuietWithinCap(max: nat, s: State, t: State, id: CallId)
    requires WithinCap(max, s) && t.tables.trusted.Keys == s.tables.trusted.Keys
    requires forall w :: w in s.calls && w != id ==> w in t.calls && t.calls[w] == s.calls[w]
    requires id in s.calls && OwesADelete(s.calls[id]) ==>
      id in t.calls && OwesADelete(t.calls[id]) && VictimOf(t.calls[id]) == VictimOf(s.calls[id])
    ensures WithinCap(max, t)
  {
    assert |t.tables.trusted| == |t.tables.trusted.Keys| == |s.tables.trusted|;
    if |t.tables.trusted| > max {
      var w :| Spoken(s, w);
      assert Spoken(t, w);
    }
  }

  // Every other call keeps its place.
  lemma OthersStay(max: nat, key: Address -> Key, s: State, a: Action)
    requires !a.SetKept?
    ensures var t := Next(max, key, s, a);
      forall w :: w in s.calls && w != a.id ==> w in t.calls && t.calls[w] == s.calls[w]
  {
  }

  lemma OwesTheSame(max: nat, key: Address -> Key, s: State, a: Action)
    requires !a.SetKept? && !a.DeleteVictim? && a.id in s.calls && OwesADelete(s.calls[a.id])
    ensures var t := Next(max, key, s, a);
      a.id in t.calls && OwesADelete(t.calls[a.id]) && VictimOf(t.calls[a.id]) == VictimOf(s.calls[a.id])
  {
  }

  lemma StepWithinCap(max: nat, key: Address -> Key, s: State, a: Action)
    requires WithinCap(max, s) && |s.tables.trusted| <= max + 1 && VictimIsARow(s, a)
    ensures WithinCap(max, Next(max, key, s, a))
  {
    var t := Next(max, key, s, a);
    RowsTouched(max, key, s, a);
    if a.SetKept? {
      assert |t.tables.trusted| == |t.tables.trusted.Keys| == |s.tables.trusted|;
      if |s.tables.trusted| > max { var w :| Spoken(s, w); assert Spoken(t, w); }
    } else if a.Commit? {
      CommitWithinCap(max, s, a.id, a.now);
    } else {
      OthersStay(max, key, s, a);
      if a.DeleteVictim? {
        if t != s { DeleteWithinCap(max, s, t, a.id, s.calls[a.id].out.address); }
      } else if a.BeginRemove? {
        if t != s { DeleteWithinCap(max, s, t, a.id, a.address); }
      } else {
        if a.id in s.calls && OwesADelete(s.calls[a.id]) { OwesTheSame(max, key, s, a); }
        QuietWithinCap(max, s, t, a.id);
      }
    }
  }

  // Any number of adds, removes and padlock changes, interleaved in any way,
  // starting from at most `max` rows: never more than one over, and at most
  // `max` whenever no evicting add is between its insert and its delete -
  // provided every victim was still a row when its slot was written.
  lemma {:induction false} CapUnderInterleaving(max: nat, key: Address -> Key, s: State, actions: seq<Action>)
    requires |s.tables.trusted| <= max + 1 && WithinCap(max, s)
    ensures var t := Run(max, key, s, actions);
      && |t.tables.trusted| <= max + 1
      && (VictimsAreRows(max, key, s, actions) && NobodyOwes(t) ==> |t.tables.trusted| <= max)
    decreases |actions|
  {
    if |actions| > 0 {
      StepNeverTwoOver(max, key, s, actions[0]);
      var mid := Next(max, key, s, actions[0]);
      if VictimIsARow(s, actions[0]) {
        StepWithinCap(max, key, s, actions[0]);
        CapUnderInterleaving(max, key, mid, actions[1..]);
      } else {
        NeverTwoOver(max, key, mid, actions[1..]);
      }
    }
  }

  lemma {:induction false} NeverTwoOver(max: nat, key: Address -> Key, s: State, actions: seq<Action>)
    requires |s.tables.trusted| <= max + 1
    ensures |Run(max, key, s, actions).tables.trusted| <= max + 1
    decreases |actions|
  {
    if |actions| > 0 {
      StepNeverTwoOver(max, key, s, actions[0]);
      NeverTwoOver(max, key, Next(max, key, s, actions[0]), actions[1..]);
    }
  }

  // The hypothesis is exactly what is missing: one evicting add, run from its
  // write to its delete with nothing in between, ends within the cap if and
  // only if it had room anyway, was already a row, or its victim was one.
  lemma EvictionFitsIff(max: nat, t: Tables, request: Request, victim: Peer, now: int)
    requires |t.trusted| <= max && victim.address != request.address
    ensures Fits(max, t.trusted, request.address, Some(victim))
    ensures var after := DeleteRow(RecordPeer(WriteRow(t, request, now), request.address), victim.address);
      |after.trusted| <= max <==>
        |t.trusted| < max || request.address in t.trusted || victim.address in t.trusted
  {
    var written := WriteRow(t, request, now);
    UpsertSize(t.trusted, request.address, request.caption, request.options.kept, now);
    DeleteSize(written.trusted, victim.address);
  }

  // Once one row over with nothing pending, every add of a new address is
  // turned away: only a removal heals it.
  lemma OverTheCapNothingGetsIn(max: nat, t: Tables, request: Request, victim: Option<Peer>)
    requires |t.trusted| == max + 1 && request.address !in t.trusted
    ensures !Fits(max, t.trusted, request.address, victim)
  {
  }

  function Eviction(id: CallId, now: int): seq<Action> { [Commit(id, now), Record(id), DeleteVictim(id)] }

  lemma RunOne(max: nat, key: Address -> Key, s: State, a: Action, rest: seq<Action>)
    ensures Run(max, key, s, [a] + rest) == Run(max, key, Next(max, key, s, a), rest)
  {
    assert ([a] + rest)[1..] == rest;
  }

  lemma RunEviction(max: nat, key: Address -> Key, s: State, id: CallId, now: int, rest: seq<Action>)
    ensures Run(max, key, s, Eviction(id, now) + rest) == Run(max, key, Evicted(max, s, id, now), rest)
  {
    assert Eviction(id, now) + rest == [Commit(id, now)] + ([Record(id)] + ([DeleteVictim(id)] + rest));
    RunThree(max, key, s, Commit(id, now), Record(id), DeleteVictim(id), rest);
  }

  lemma RunThree(max: nat, key: Address -> Key, s: State, a: Action, b: Action, c: Action, rest: seq<Action>)
    ensures Run(max, key, s, [a] + ([b] + ([c] + rest))) ==
      Run(max, key, Next(max, key, Next(max, key, Next(max, key, s, a), b), c), rest)
  {
    var s1 := Next(max, key, s, a);
    RunOne(max, key, s, a, [b] + ([c] + rest));
    RunOne(max, key, s1, b, [c] + rest);
    RunOne(max, key, Next(max, key, s1, b), c, rest);
  }

  // From the write to the delete with nothing in between.
  function Evicted(max: nat, s: State, id: CallId, now: int): State {
    OnDeleteVictim(OnRecord(OnCommit(max, s, id, now), id), id)
  }

  lemma EvictionEffect(max: nat, s: State, id: CallId, now: int)
    requires id in s.calls && s.calls[id].Writing? && s.calls[id].victim.Some?
    requires Fits(max, s.tables.trusted, s.calls[id].request.address, s.calls[id].victim)
    ensures var request, victim := s.calls[id].request, s.calls[id].victim.value; var t := Evicted(max, s, id, now);
      && t.tables.trusted == WriteRow(s.tables, request, now).trusted - {victim.address}
      && t.calls == s.calls[id := Parking(request, victim)]
  {
    var request, victim := s.calls[id].request, s.calls[id].victim;
    var s1 := OnCommit(max, s, id, now);
    assert s1 == Moved(s.(tables := WriteRow(s.tables, request, now)), id, Recording(request, victim));
    var s2 := OnRecord(s1, id);
    assert s2.calls == s.calls[id := Evicting(request, victim.value)];
    assert s2.tables.trusted == s1.tables.trusted;
  }

  lemma EvictionSize(max: nat, s: State, id: CallId, now: int)
    requires id in s.calls && s.calls[id].Writing? && s.calls[id].victim.Some?
    requires Fits(max, s.tables.trusted, s.calls[id].request.address, s.calls[id].victim)
    requires s.calls[id].request.address !in s.tables.trusted
    requires s.calls[id].request.address != s.calls[id].victim.value.address
    ensures var victim := s.calls[id].victim.value.address; var t := Evicted(max, s, id, now);
      |t.tables.trusted| == |s.tables.trusted| + if victim in s.tables.trusted then 0 else 1
  {
    EvictionEffect(max, s, id, now);
    var request := s.calls[id].request;
    UpsertSize(s.tables.trusted, request.address, request.caption, request.options.kept, now);
    DeleteSize(WriteRow(s.tables, request, now).trusted, s.calls[id].victim.value.address);
  }

  // Without the hypothesis it fails, from every full table: two evicting adds
  // that settled on the same weakest peer leave one row too many for good,
  // because the second delete finds nothing to delete.
  lemma SameVictimTwiceBreaksTheCap(max: nat, key: Address -> Key, s: State, i: CallId, j: CallId, now: int)
    requires |s.tables.trusted| == max && i != j
    requires i in s.calls && s.calls[i].Writing? && s.calls[i].victim.Some?
    requires j in s.calls && s.calls[j].Writing? && s.calls[j].victim == s.calls[i].victim
    requires s.calls[i].victim.value.address in s.tables.trusted
    requires s.calls[i].request.address !in s.tables.trusted && s.calls[j].request.address !in s.tables.trusted
    requires s.calls[i].request.address != s.calls[j].request.address
    ensures var t := Run(max, key, s, Eviction(i, now) + Eviction(j, now));
      |t.tables.trusted| == max + 1 && (NobodyOwes(s) ==> NobodyOwes(t))
  {
    RunBoth(max, key, s, i, j, now);
    var mid := Evicted(max, s, i, now);
    FirstOfTheSame(max, s, i, now);
    assert mid.calls[j] == s.calls[j];
    SecondOfTheSame(max, mid, j, now);
    ParkingOwesNothing(s, mid, i);
    ParkingOwesNothing(mid, Evicted(max, mid, j, now), j);
  }

  ghost predicate BecomesParking(s: State, t: State, id: CallId) {
    && id in t.calls && t.calls[id].Parking? && t.calls.Keys == s.calls.Keys + {id}
    && forall w :: w in s.calls && w != id ==> t.calls[w] == s.calls[w]
  }

  lemma ParkingOwesNothing(s: State, t: State, id: CallId)
    requires BecomesParking(s, t, id)
    ensures NobodyOwes(s) ==> NobodyOwes(t)
  {
  }

  lemma FirstOfTheSame(max: nat, s: State, i: CallId, now: int)
    requires |s.tables.trusted| == max && i in s.calls && s.calls[i].Writing? && s.calls[i].victim.Some?
    requires s.calls[i].victim.value.address in s.tables.trusted && s.calls[i].request.address !in s.tables.trusted
    ensures var request, victim := s.calls[i].request, s.calls[i].victim.value; var t := Evicted(max, s, i, now);
      && |t.tables.trusted| == max && BecomesParking(s, t, i)
      && t.tables.trusted.Keys == s.tables.trusted.Keys + {request.address} - {victim.address}
  {
    EvictionEffect(max, s, i, now);
    EvictionSize(max, s, i, now);
    var request := s.calls[i].request;
    UpsertSize(s.tables.trusted, request.address, request.caption, request.options.kept, now);
  }

  lemma SecondOfTheSame(max: nat, s: State, j: CallId, now: int)
    requires |s.tables.trusted| == max && j in s.calls && s.calls[j].Writing? && s.calls[j].victim.Some?
    requires s.calls[j].victim.value.address !in s.tables.trusted && s.calls[j].request.address !in s.tables.trusted
    requires s.calls[j].victim.value.address != s.calls[j].request.address
    ensures var t := Evicted(max, s, j, now);
      |t.tables.trusted| == max + 1 && BecomesParking(s, t, j)
  {
    var t := Evicted(max, s, j, now);
    EvictionSize(max, s, j, now);
    EvictionEffect(max, s, j, now);
    OneCallParks(s, t, j, Parking(s.calls[j].request, s.calls[j].victim.value));
  }

  lemma OneCallParks(s: State, t: State, id: CallId, c: Call)
    requires c.Parking? && t.calls == s.calls[id := c]
    ensures BecomesParking(s, t, id)
  {
  }

  lemma RunBoth(max: nat, key: Address -> Key, s: State, i: CallId, j: CallId, now: int)
    ensures Run(max, key, s, Eviction(i, now) + Eviction(j, now)) == Evicted(max, Evicted(max, s, i, now), j, now)
  {
    var mid := Evicted(max, s, i, now);
    RunEviction(max, key, s, i, now, Eviction(j, now));
    assert Eviction(j, now) + [] == Eviction(j, now);
    RunEviction(max, key, mid, j, now, []);
  }

  // And it is reached from scratch: with no call in flight and the slots full, two
  // adds that both read the table as it is, settle on the same victim before
  // either writes, and are accepted by Core.
  function Opening(max: nat, i: CallId, j: CallId, first: Request, second: Request, victim: Peer): seq<Action> {
    [Begin(i, first, None, max, Some(victim)), Begin(j, second, None, max, Some(victim)),
     AddnodeDone(i, true), AddnodeDone(j, true)]
  }

  predicate WantsRoom(r: Request) { r.options.evictToFit && r.options.replace.None? }

  lemma OpeningReachesBothWrites(max: nat, key: Address -> Key, s: State, i: CallId, j: CallId, first: Request,
                                 second: Request, victim: Peer, rest: seq<Action>) returns (t: State)
    requires i != j && i !in s.calls && j !in s.calls && WantsRoom(first) && WantsRoom(second)
    ensures t.tables == s.tables && t.calls.Keys == s.calls.Keys + {i, j}
    ensures forall id :: id in s.calls ==> t.calls[id] == s.calls[id]
    ensures t.calls[i].Writing? && t.calls[i].request == first && t.calls[i].victim == Some(victim)
    ensures t.calls[j].Writing? && t.calls[j].request == second && t.calls[j].victim == Some(victim)
    ensures Run(max, key, s, Opening(max, i, j, first, second, victim) + rest) == Run(max, key, t, rest)
  {
    var a, b := Begin(i, first, None, max, Some(victim)), Begin(j, second, None, max, Some(victim));
    var c, d := AddnodeDone(i, true), AddnodeDone(j, true);
    assert Opening(max, i, j, first, second, victim) + rest == [a] + ([b] + ([c] + ([d] + rest)));
    var s1 := BeginsToAdd(max, s, i, first, victim);
    RunOne(max, key, s, a, [b] + ([c] + ([d] + rest)));
    var s2 := BeginsToAdd(max, s1, j, second, victim);
    RunOne(max, key, s1, b, [c] + ([d] + rest));
    t := BothGoToWrite(max, key, s2, i, j, rest);
  }

  lemma BothGoToWrite(max: nat, key: Address -> Key, s: State, i: CallId, j: CallId, rest: seq<Action>) returns (t: State)
    requires i != j && i in s.calls && j in s.calls && s.calls[i].Adding? && s.calls[j].Adding?
    ensures t.tables == s.tables && t.calls.Keys == s.calls.Keys
    ensures forall id :: id in s.calls && id != i && id != j ==> t.calls[id] == s.calls[id]
    ensures t.calls[i].Writing? && t.calls[i].request == s.calls[i].request && t.calls[i].victim == s.calls[i].victim
    ensures t.calls[j].Writing? && t.calls[j].request == s.calls[j].request && t.calls[j].victim == s.calls[j].victim
    ensures Run(max, key, s, [AddnodeDone(i, true)] + ([AddnodeDone(j, true)] + rest)) == Run(max, key, t, rest)
  {
    var mid := GoesToWrite(key, s, i);
    RunOne(max, key, s, AddnodeDone(i, true), [AddnodeDone(j, true)] + rest);
    t := GoesToWrite(key, mid, j);
    RunOne(max, key, mid, AddnodeDone(j, true), rest);
  }

  lemma BeginsToAdd(max: nat, s: State, id: CallId, request: Request, victim: Peer) returns (t: State)
    requires id !in s.calls && WantsRoom(request)
    ensures t == OnBegin(max, s, id, request, None, max, Some(victim))
    ensures t == s.(calls := s.calls[id := Adding(request, Some(victim))])
  {
    t := OnBegin(max, s, id, request, None, max, Some(victim));
  }

  lemma GoesToWrite(key: Address -> Key, s: State, id: CallId) returns (t: State)
    requires id in s.calls && s.calls[id].Adding?
    ensures t == OnAddnodeDone(key, s, id, true)
    ensures t.tables == s.tables && t.calls.Keys == s.calls.Keys
    ensures forall w :: w in s.calls && w != id ==> t.calls[w] == s.calls[w]
    ensures t.calls[id].Writing? && t.calls[id].request == s.calls[id].request && t.calls[id].victim == s.calls[id].victim
  {
    t := OnAddnodeDone(key, s, id, true);
  }

  lemma TwoAddsBreakTheCap(max: nat, key: Address -> Key, s: State, i: CallId, j: CallId, first: Request, second: Request,
                           victim: Peer, now: int)
    requires s.calls == map[] && |s.tables.trusted| == max && i != j && WantsRoom(first) && WantsRoom(second)
    requires victim.address in s.tables.trusted && first.address != second.address
    requires first.address !in s.tables.trusted && second.address !in s.tables.trusted
    ensures var t := Run(max, key, s, Opening(max, i, j, first, second, victim) + (Eviction(i, now) + Eviction(j, now)));
      |t.tables.trusted| == max + 1 && NobodyOwes(t)
  {
    var mid := OpeningReachesBothWrites(max, key, s, i, j, first, second, victim, Eviction(i, now) + Eviction(j, now));
    SameVictimTwiceBreaksTheCap(max, key, mid, i, j, now);
  }

  // ---- The star, between a choice and its delete -------------------------------

  ghost function TargetOf(c: Call): Option<Address> {
    match c
    case Adding(_, victim) => if victim.Some? then Some(victim.value.address) else None
    case Writing(_, victim, _) => if victim.Some? then Some(victim.value.address) else None
    case Recording(_, victim) => if victim.Some? then Some(victim.value.address) else None
    case Evicting(_, out) => Some(out.address)
    case _ => None
  }

  ghost predicate AimsAt(s: State, id: CallId, x: Address) { id in s.calls && TargetOf(s.calls[id]) == Some(x) }

  ghost predicate AimedAt(s: State, x: Address) { exists id :: AimsAt(s, id, x) }

  predicate Starred(s: State, x: Address) { x in s.tables.trusted && s.tables.trusted[x].kept }

  // Nobody removes x or takes its star off, and no add settles on x while it is starred.
  ghost predicate Respects(max: nat, s: State, a: Action, x: Address) {
    match a
    case BeginRemove(_, address) => address != x
    case SetKept(address, kept) => address == x ==> kept
    case Begin(_, request, same, count, weakest) =>
      var d := Decide(max, same, count, request, weakest);
      Starred(s, x) && d.Go? && d.victim.Some? ==> d.victim.value.address != x
    case _ => true
  }

  ghost predicate AllRespect(max: nat, key: Address -> Key, s: State, actions: seq<Action>, x: Address)
    decreases |actions|
  {
    |actions| > 0 ==>
      Respects(max, s, actions[0], x) && AllRespect(max, key, Next(max, key, s, actions[0]), actions[1..], x)
  }

  lemma RowStays(max: nat, key: Address -> Key, s: State, a: Action, x: Address)
    requires Starred(s, x) && !AimedAt(s, x) && Respects(max, s, a, x)
    ensures Starred(Next(max, key, s, a), x)
  {
    if a.DeleteVictim? { assert !AimsAt(s, a.id, x); }
  }

  lemma NoNewAim(max: nat, key: Address -> Key, s: State, a: Action, x: Address, id: CallId)
    requires Starred(s, x) && Respects(max, s, a, x) && AimsAt(Next(max, key, s, a), id, x)
    ensures AimsAt(s, id, x)
  {
    if !IsBy(a, id) { OthersLeaveMyCall(max, key, s, a, id); } else { OwnAim(max, key, s, a, id, x); }
  }

  lemma OwnAim(max: nat, key: Address -> Key, s: State, a: Action, id: CallId, x: Address)
    requires Starred(s, x) && Respects(max, s, a, x) && IsBy(a, id) && AimsAt(Next(max, key, s, a), id, x)
    ensures AimsAt(s, id, x)
  {
    match a
    case Begin(_, _, _, _, _) =>
    case AddnodeDone(_, _) =>
    case Commit(_, _) =>
    case TakeBackDone(_, _) =>
    case Record(_) =>
    case DeleteVictim(_) =>
    case VictimDone(_, _, _) =>
    case BeginRemove(_, _) =>
    case RemoveDone(_, _, _) =>
  }

  lemma {:induction false} UnaimedStarHolds(max: nat, key: Address -> Key, s: State, actions: seq<Action>, x: Address)
    requires Starred(s, x) && !AimedAt(s, x) && AllRespect(max, key, s, actions, x)
    ensures Starred(Run(max, key, s, actions), x)
    decreases |actions|
  {
    if |actions| > 0 {
      var t := Next(max, key, s, actions[0]);
      RowStays(max, key, s, actions[0], x);
      forall id ensures !AimsAt(t, id, x) { if AimsAt(t, id, x) { NoNewAim(max, key, s, actions[0], x, id); } }
      UnaimedStarHolds(max, key, t, actions[1..], x);
    }
  }

  // What is left of an add that has settled on a victim, when Core is willing.
  function Finish(c: Call, id: CallId, now: int): seq<Action> {
    match c
    case Adding(_, _) => [AddnodeDone(id, true)] + Eviction(id, now)
    case Writing(_, _, _) => Eviction(id, now)
    case Recording(_, _) => [Record(id), DeleteVictim(id)]
    case Evicting(_, _) => [DeleteVictim(id)]
    case _ => []
  }

  lemma WrittenThenGone(max: nat, key: Address -> Key, s: State, id: CallId, x: Address, now: int)
    requires |s.tables.trusted| <= max && AimsAt(s, id, x) && s.calls[id].Writing?
    ensures x !in Run(max, key, s, Eviction(id, now)).tables.trusted
  {
    assert Eviction(id, now) + [] == Eviction(id, now);
    RunEviction(max, key, s, id, now, []);
    EvictionEffect(max, s, id, now);
  }

  lemma RecordedThenGone(max: nat, key: Address -> Key, s: State, id: CallId, x: Address)
    requires AimsAt(s, id, x) && (s.calls[id].Recording? || s.calls[id].Evicting?)
    ensures s.calls[id].Recording? ==> x !in Run(max, key, s, [Record(id), DeleteVictim(id)]).tables.trusted
    ensures s.calls[id].Evicting? ==> x !in Run(max, key, s, [DeleteVictim(id)]).tables.trusted
  {
    if s.calls[id].Recording? {
      assert [Record(id), DeleteVictim(id)] == [Record(id)] + ([DeleteVictim(id)] + []);
      RunOne(max, key, s, Record(id), [DeleteVictim(id)] + []);
      var t := OnRecord(s, id);
      assert t.calls[id].Evicting? && t.calls[id].out.address == x;
      RunOne(max, key, t, DeleteVictim(id), []);
    } else {
      assert [DeleteVictim(id)] == [DeleteVictim(id)] + [];
      RunOne(max, key, s, DeleteVictim(id), []);
    }
  }

  lemma AimedIsDeleted(max: nat, key: Address -> Key, s: State, id: CallId, x: Address, now: int)
    requires |s.tables.trusted| <= max && AimsAt(s, id, x)
    ensures x !in Run(max, key, s, Finish(s.calls[id], id, now)).tables.trusted
  {
    match s.calls[id]
    case Adding(_, _) =>
      var t := GoesToWrite(key, s, id);
      RunOne(max, key, s, AddnodeDone(id, true), Eviction(id, now));
      WrittenThenGone(max, key, t, id, x, now);
    case Writing(_, _, _) => WrittenThenGone(max, key, s, id, x, now);
    case Recording(_, _) => RecordedThenGone(max, key, s, id, x);
    case Evicting(_, _) => RecordedThenGone(max, key, s, id, x);
  }

  // Nothing in it removes a row by hand, touches a star or settles on a victim.
  predicate GoesOn(a: Action) { !a.BeginRemove? && !a.SetKept? && !a.Begin? }

  lemma {:induction false} GoingOnRespects(max: nat, key: Address -> Key, s: State, actions: seq<Action>, x: Address)
    requires forall i :: 0 <= i < |actions| ==> GoesOn(actions[i])
    ensures AllRespect(max, key, s, actions, x)
    decreases |actions|
  {
    if |actions| > 0 {
      assert GoesOn(actions[0]);
      assert forall i :: 0 <= i < |actions[1..]| ==> actions[1..][i] == actions[i + 1];
      GoingOnRespects(max, key, Next(max, key, s, actions[0]), actions[1..], x);
    }
  }

  // Call numbers do not run out.
  lemma FreshId(calls: map<CallId, Call>) returns (id: CallId)
    ensures id !in calls
  {
    id := Beyond(calls.Keys);
  }

  lemma Beyond(ids: set<CallId>) returns (id: CallId)
    ensures forall i :: i in ids ==> i < id
  {
    if ids == {} { return 0; }
    var i :| i in ids;
    var rest := Beyond(ids - {i});
    id := if rest > i then rest else i + 1;
    assert forall j :: j in ids ==> j == i || j in ids - {i};
  }

  lemma AnotherRow(trusted: map<Address, TrustedRow>, x: Address) returns (other: Address)
    requires |trusted| > 1 && x in trusted
    ensures other in trusted && other != x
  {
    DeleteSize(trusted, x);
    assert (trusted - {x}).Keys != {};
    other :| other in trusted - {x};
  }

  lemma RemovesAnother(max: nat, key: Address -> Key, s: State, id: CallId, other: Address)
    requires id !in s.calls && other in s.tables.trusted
    ensures var t := Next(max, key, s, BeginRemove(id, other));
      && |t.tables.trusted| < |s.tables.trusted|
      && (forall a :: a in s.tables.trusted && a != other ==> a in t.tables.trusted && t.tables.trusted[a] == s.tables.trusted[a])
      && (forall i :: i in s.calls ==> i in t.calls && t.calls[i] == s.calls[i])
  {
    DeleteSize(s.tables.trusted, other);
  }

  lemma OneMoreRespects(max: nat, key: Address -> Key, s: State, a: Action, rest: seq<Action>, x: Address)
    requires Respects(max, s, a, x) && AllRespect(max, key, Next(max, key, s, a), rest, x)
    ensures AllRespect(max, key, s, [a] + rest, x)
  {
    assert ([a] + rest)[1..] == rest;
  }

  // Over the cap the add has no room to write in until other rows are removed.
  lemma AimedCanGo(max: nat, key: Address -> Key, s: State, id: CallId, x: Address) returns (actions: seq<Action>)
    requires max >= 1 && x in s.tables.trusted && AimsAt(s, id, x)
    ensures AllRespect(max, key, s, actions, x) && x !in Run(max, key, s, actions).tables.trusted
    decreases |s.tables.trusted|
  {
    if |s.tables.trusted| <= max {
      actions := Finish(s.calls[id], id, 0);
      AimedIsDeleted(max, key, s, id, x, 0);
      GoingOnRespects(max, key, s, actions, x);
    } else {
      var other := AnotherRow(s.tables.trusted, x);
      var free := FreshId(s.calls);
      RemovesAnother(max, key, s, free, other);
      var rest := AimedCanGo(max, key, Next(max, key, s, BeginRemove(free, other)), id, x);
      actions := [BeginRemove(free, other)] + rest;
      OneMoreRespects(max, key, s, BeginRemove(free, other), rest, x);
      RunOne(max, key, s, BeginRemove(free, other), rest);
    }
  }

  ghost predicate StarIsSafe(max: nat, key: Address -> Key, s: State, x: Address) {
    forall actions: seq<Action> :: AllRespect(max, key, s, actions, x) ==> Starred(Run(max, key, s, actions), x)
  }

  // A star protects from now on - against every interleaving in which nobody takes
  // it off or removes the peer, and no add settles on a starred one - if and only
  // if no add in flight has settled on this peer already.
  lemma StarProtectsIff(max: nat, key: Address -> Key, s: State, x: Address)
    requires max >= 1 && Starred(s, x)
    ensures StarIsSafe(max, key, s, x) <==> !AimedAt(s, x)
  {
    if AimedAt(s, x) {
      var id :| AimsAt(s, id, x);
      var actions := AimedCanGo(max, key, s, id, x);
      assert !Starred(Run(max, key, s, actions), x);
    } else {
      forall actions: seq<Action> | AllRespect(max, key, s, actions, x)
        ensures Starred(Run(max, key, s, actions), x)
      {
        UnaimedStarHolds(max, key, s, actions, x);
      }
    }
  }

  // ---- All or nothing --------------------------------------------------------

  predicate Undecided(c: Call) { c.Adding? || c.Writing? || c.TakingBack? || c.Failed? }

  // The action is one of this call's own.
  predicate IsBy(a: Action, id: CallId) { !a.SetKept? && a.id == id }

  // A call's own actions never change a table before it has committed, and a
  // call that has committed never fails.
  lemma OwnStep(max: nat, key: Address -> Key, s: State, a: Action, id: CallId)
    requires IsBy(a, id) && (id in s.calls ==> Undecided(s.calls[id]))
    ensures var t := Next(max, key, s, a);
      t.tables == s.tables || (id in t.calls && !Undecided(t.calls[id]))
  {
    match a
    case Begin(_, _, _, _, _) =>
    case AddnodeDone(_, _) =>
    case Commit(_, _) =>
    case TakeBackDone(_, _) =>
    case Record(_) =>
    case DeleteVictim(_) =>
    case VictimDone(_, _, _) =>
    case BeginRemove(_, _) =>
    case RemoveDone(_, _, _) =>
  }

  lemma DecidedStays(max: nat, key: Address -> Key, s: State, a: Action, id: CallId)
    requires id in s.calls && !Undecided(s.calls[id])
    ensures var t := Next(max, key, s, a); id in t.calls && !Undecided(t.calls[id])
  {
    match a
    case Begin(_, _, _, _, _) =>
    case AddnodeDone(_, _) =>
    case Commit(_, _) =>
    case TakeBackDone(_, _) =>
    case Record(_) =>
    case DeleteVictim(_) =>
    case VictimDone(_, _, _) =>
    case BeginRemove(_, _) =>
    case RemoveDone(_, _, _) =>
    case SetKept(_, _) =>
  }

  lemma {:induction false} DecidedForGood(max: nat, key: Address -> Key, s: State, actions: seq<Action>, id: CallId)
    requires id in s.calls && !Undecided(s.calls[id])
    ensures var t := Run(max, key, s, actions); id in t.calls && !Undecided(t.calls[id])
    decreases |actions|
  {
    if |actions| > 0 {
      DecidedStays(max, key, s, actions[0], id);
      DecidedForGood(max, key, Next(max, key, s, actions[0]), actions[1..], id);
    }
  }

  // Along the run, none of this call's actions changed a table.
  ghost predicate ChangedNothing(max: nat, key: Address -> Key, s: State, actions: seq<Action>, id: CallId)
    decreases |actions|
  {
    |actions| > 0 ==>
      var t := Next(max, key, s, actions[0]);
      (IsBy(actions[0], id) ==> t.tables == s.tables) && ChangedNothing(max, key, t, actions[1..], id)
  }

  lemma OthersLeaveMyCall(max: nat, key: Address -> Key, s: State, a: Action, id: CallId)
    requires !IsBy(a, id)
    ensures var t := Next(max, key, s, a); (id in t.calls <==> id in s.calls) && (id in s.calls ==> t.calls[id] == s.calls[id])
  {
    match a
    case Begin(_, _, _, _, _) =>
    case AddnodeDone(_, _) =>
    case Commit(_, _) =>
    case TakeBackDone(_, _) =>
    case Record(_) =>
    case DeleteVictim(_) =>
    case VictimDone(_, _, _) =>
    case BeginRemove(_, _) =>
    case RemoveDone(_, _, _) =>
    case SetKept(_, _) =>
  }

  // An add that ends not ok wrote nothing, whatever ran beside it.
  lemma {:induction false} FailedAddsChangeNothing(max: nat, key: Address -> Key, s: State, actions: seq<Action>, id: CallId)
    requires id in s.calls ==> Undecided(s.calls[id])
    requires var t := Run(max, key, s, actions); id in t.calls ==> Undecided(t.calls[id])
    ensures ChangedNothing(max, key, s, actions, id)
    decreases |actions|
  {
    if |actions| > 0 {
      var a, t := actions[0], Next(max, key, s, actions[0]);
      if IsBy(a, id) { OwnStep(max, key, s, a, id); } else { OthersLeaveMyCall(max, key, s, a, id); }
      if id in t.calls && !Undecided(t.calls[id]) {
        DecidedForGood(max, key, t, actions[1..], id);
        assert false;
      } else {
        FailedAddsChangeNothing(max, key, t, actions[1..], id);
      }
    }
  }

  // Somewhere along the run this call's own addnode was accepted.
  ghost predicate Issued(max: nat, key: Address -> Key, s: State, actions: seq<Action>, id: CallId)
    decreases |actions|
  {
    |actions| > 0 &&
    ((actions[0].AddnodeDone? && actions[0].id == id && id in s.calls && s.calls[id].Adding?
      && AddnodeAnswer(s.core, key, s.calls[id].request.address, actions[0].willing) == Accepted)
     || Issued(max, key, Next(max, key, s, actions[0]), actions[1..], id))
  }

  ghost predicate HoldsItsOwnEntry(s: State, id: CallId) {
    id in s.calls && (s.calls[id].TakingBack? || (s.calls[id].Writing? && !s.calls[id].alreadyInCore))
  }

  lemma OwnEntryComesFromAddnode(max: nat, key: Address -> Key, s: State, a: Action, id: CallId)
    requires HoldsItsOwnEntry(Next(max, key, s, a), id)
    ensures HoldsItsOwnEntry(s, id) ||
      (a.AddnodeDone? && a.id == id && id in s.calls && s.calls[id].Adding?
       && AddnodeAnswer(s.core, key, s.calls[id].request.address, a.willing) == Accepted)
  {
    match a
    case Begin(_, _, _, _, _) =>
    case AddnodeDone(_, _) =>
    case Commit(_, _) =>
    case TakeBackDone(_, _) =>
    case Record(_) =>
    case DeleteVictim(_) =>
    case VictimDone(_, _, _) =>
    case BeginRemove(_, _) =>
    case RemoveDone(_, _, _) =>
    case SetKept(_, _) =>
  }

  // A failing add takes back only an entry Core accepted from this same call.
  lemma {:induction false} TakesBackOnlyItsOwn(max: nat, key: Address -> Key, s: State, actions: seq<Action>, id: CallId)
    requires HoldsItsOwnEntry(Run(max, key, s, actions), id)
    ensures HoldsItsOwnEntry(s, id) || Issued(max, key, s, actions, id)
    decreases |actions|
  {
    if |actions| > 0 {
      var t := Next(max, key, s, actions[0]);
      TakesBackOnlyItsOwn(max, key, t, actions[1..], id);
      if HoldsItsOwnEntry(t, id) { OwnEntryComesFromAddnode(max, key, s, actions[0], id); }
    }
  }
}
