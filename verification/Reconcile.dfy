/**
 * src/lib/peer-sync.js: adoptExternalManualPeers and syncTrustedToAddnode, the
 * pass that brings our own manual set and Core's addnode list together - on
 * startup, every ten minutes, and as soon as Core is seen to have restarted.
 */
module Reconcile {
  import opened Wrappers
  import opened PeerTables

  datatype Books = Books(trusted: map<Address, TrustedRow>, peers: set<Address>, pending: map<Key, int>, core: seq<Address>)

  // ---- Adoption --------------------------------------------------------------

  // The loop's variables: `work` is the copy of the pending removals it edits.
  datatype Adopting = Adopting(trusted: map<Address, TrustedRow>, known: set<Key>, peers: set<Address>,
                               work: map<Key, int>, changed: bool, core: seq<Address>)

  function KeysOf(trusted: map<Address, TrustedRow>, key: Address -> Key): set<Key> {
    set a | a in trusted :: key(a)
  }

  function AdoptOne(max: nat, key: Address -> Key, now: int, removes: Address -> bool, a: Adopting, node: Address): Adopting {
    var k := key(node);
    if node == "" || k in a.known then a
    else if k in a.work then
      if removes(node) then a.(core := AfterRemove(a.core, node, true), work := a.work - {k}, changed := true) else a
    else if |a.known| >= max then a
    else TakenOn(key, now, a, node)
  }

  // INSERT OR IGNORE, protected: an addnode we did not issue is somebody's choice.
  function TakenOn(key: Address -> Key, now: int, a: Adopting, node: Address): Adopting {
    a.(trusted := if node in a.trusted then a.trusted else a.trusted[node := TrustedRow(None, true, now)],
       known := a.known + {key(node)}, peers := a.peers + {node})
  }

  function AdoptAll(max: nat, key: Address -> Key, now: int, removes: Address -> bool, a: Adopting, nodes: seq<Address>)
    : Adopting
    decreases |nodes|
  {
    if |nodes| == 0 then a
    else AdoptAll(max, key, now, removes, AdoptOne(max, key, now, removes, a, nodes[0]), nodes[1..])
  }

  function Opened(key: Address -> Key, now: int, b: Books): Adopting {
    Adopting(b.trusted, KeysOf(b.trusted, key), b.peers, LiveRemovals(b.pending, now), false, b.core)
  }

  function Closed(b: Books, a: Adopting): Books {
    Books(a.trusted, a.peers, if a.changed then a.work else b.pending, a.core)
  }

  function Adopt(max: nat, key: Address -> Key, now: int, removes: Address -> bool, b: Books): Books {
    Closed(b, AdoptAll(max, key, now, removes, Opened(key, now, b), b.core))
  }

  // ---- Synchronisation ---------------------------------------------------------

  datatype Syncing = Syncing(core: seq<Address>, slotsUsed: nat)

  // An error, "already added" included, takes no slot and adds nothing.
  function SyncOne(max: nat, key: Address -> Key, listed: seq<Address>, adds: Address -> bool, s: Syncing, address: Address)
    : Syncing
  {
    if HasKey(listed, key, key(address)) || s.slotsUsed >= max then s
    else if AddnodeAnswer(s.core, key, address, adds(address)) == Accepted then
      Syncing(s.core + [address], s.slotsUsed + 1)
    else s
  }

  function SyncAll(max: nat, key: Address -> Key, listed: seq<Address>, adds: Address -> bool, s: Syncing,
                   order: seq<Address>): Syncing
    decreases |order|
  {
    if |order| == 0 then s
    else SyncAll(max, key, listed, adds, SyncOne(max, key, listed, adds, s, order[0]), order[1..])
  }

  function Listed(key: Address -> Key, listed: seq<Address>, order: seq<Address>): nat {
    if |order| == 0 then 0
    else (if HasKey(listed, key, key(order[0])) then 1 else 0) + Listed(key, listed, order[1..])
  }

  // `listed` is the list adoption was given, before adoption changed anything;
  // `order` is the table, oldest first.
  function Sync(max: nat, key: Address -> Key, listed: seq<Address>, adds: Address -> bool, b: Books, order: seq<Address>)
    : Books
  {
    b.(core := SyncAll(max, key, listed, adds, Syncing(b.core, Listed(key, listed, order)), order).core)
  }

  // SELECT address FROM trusted_peer ORDER BY created_at ASC
  ghost predicate IsOldestFirst(order: seq<Address>, trusted: map<Address, TrustedRow>) {
    && (forall a :: a in order <==> a in trusted)
    && (forall i, j :: 0 <= i < j < |order| ==> order[i] != order[j])
    && (forall i, j :: 0 <= i < j < |order| ==> trusted[order[i]].createdAt <= trusted[order[j]].createdAt)
  }

  // ---- What one pass achieves when every RPC succeeds --------------------------

  ghost predicate DistinctNodes(nodes: seq<Address>, key: Address -> Key) {
    forall i, j :: 0 <= i < j < |nodes| ==> key(nodes[i]) != key(nodes[j])
  }

  const ALWAYS: Address -> bool := (a: Address) => true

  // Halfway through: `done` has been looked at, `rest` has not.

  ghost predicate RowsOk(max: nat, key: Address -> Key, b: Books, live: map<Key, int>, a: Adopting, done: seq<Address>) {
    && a.known == KeysOf(a.trusted, key) && |a.known| <= max && DistinctKeys(a.trusted, key)
    && (forall x :: x in b.trusted ==> x in a.trusted && a.trusted[x] == b.trusted[x])
    && (forall x :: x in a.trusted && x !in b.trusted ==> x in done && key(x) !in live && x in a.peers && x in a.core)
  }

  ghost predicate ListOk(max: nat, key: Address -> Key, a: Adopting, done: seq<Address>, rest: seq<Address>) {
    && (forall x :: x in a.core ==> x in done || x in rest)
    && (forall x :: x in rest ==> x in a.core)
    && (forall x :: x in done && key(x) in a.known ==> x in a.core)
    && (forall x :: x in done && x in a.core && x != "" && key(x) !in a.known ==> |a.known| == max && key(x) !in a.work)
  }

  ghost predicate WorkOk(key: Address -> Key, b: Books, live: map<Key, int>, a: Adopting, done: seq<Address>) {
    && (forall k :: k in a.work ==> k in live && a.work[k] == live[k])
    && (forall k :: k in live && k !in a.work ==> exists x :: x in done && key(x) == k)
    && b.peers <= a.peers
    && (!a.changed ==> a.work == live)
  }

  ghost predicate Halfway(max: nat, key: Address -> Key, b: Books, live: map<Key, int>, a: Adopting,
                          done: seq<Address>, rest: seq<Address>) {
    RowsOk(max, key, b, live, a, done) && ListOk(max, key, a, done, rest) && WorkOk(key, b, live, a, done)
  }

  lemma KeysGrow(trusted: map<Address, TrustedRow>, key: Address -> Key, node: Address, row: TrustedRow)
    requires DistinctKeys(trusted, key) && key(node) !in KeysOf(trusted, key)
    ensures node !in trusted && DistinctKeys(trusted[node := row], key)
    ensures KeysOf(trusted[node := row], key) == KeysOf(trusted, key) + {key(node)}
    ensures |KeysOf(trusted[node := row], key)| == |KeysOf(trusted, key)| + 1
  {
    assert node in trusted ==> key(node) in KeysOf(trusted, key);
    var more := trusted[node := row];
    forall k ensures k in KeysOf(more, key) <==> k in KeysOf(trusted, key) + {key(node)} {
      if k in KeysOf(trusted, key) { var a :| a in trusted && key(a) == k; assert a in more; }
      if k == key(node) { assert node in more; }
    }
  }

  lemma OneKeyLess(trusted: map<Address, TrustedRow>, key: Address -> Key, a: Address)
    requires DistinctKeys(trusted, key) && a in trusted
    ensures |KeysOf(trusted, key)| == |KeysOf(trusted - {a}, key)| + 1
  {
    var fewer := trusted - {a};
    assert key(a) !in KeysOf(fewer, key);
    KeysGrow(fewer, key, a, trusted[a]);
    assert fewer[a := trusted[a]] == trusted;
  }

  lemma {:induction false} KeysCount(trusted: map<Address, TrustedRow>, key: Address -> Key)
    requires DistinctKeys(trusted, key)
    ensures |KeysOf(trusted, key)| == |trusted|
    decreases |trusted|
  {
    if trusted == map[] {
      assert KeysOf(trusted, key) == {};
    } else {
      var a :| a in trusted;
      var fewer := trusted - {a};
      DeleteSize(trusted, a);
      KeysCount(fewer, key);
      OneKeyLess(trusted, key, a);
    }
  }

  // The node looked at shares its key with no other one.
  ghost predicate Apart(key: Address -> Key, done: seq<Address>, node: Address, rest: seq<Address>) {
    forall x :: x in done || x in rest ==> key(x) != key(node)
  }

  lemma SkipKeeps(max: nat, key: Address -> Key, b: Books, live: map<Key, int>, a: Adopting,
                  done: seq<Address>, node: Address, rest: seq<Address>)
    requires Halfway(max, key, b, live, a, done, [node] + rest)
    requires node == "" || key(node) in a.known || (key(node) !in a.work && |a.known| >= max)
    ensures Halfway(max, key, b, live, a, done + [node], rest)
  {
  }

  lemma RetryKeeps(max: nat, key: Address -> Key, b: Books, live: map<Key, int>, a: Adopting,
                   done: seq<Address>, node: Address, rest: seq<Address>)
    requires Halfway(max, key, b, live, a, done, [node] + rest) && Apart(key, done, node, rest)
    requires key(node) !in a.known && key(node) in a.work
    ensures Halfway(max, key, b, live, a.(core := AfterRemove(a.core, node, true), work := a.work - {key(node)}, changed := true),
                    done + [node], rest)
  {
    forall x | x in a.trusted && x !in b.trusted ensures x != node { assert key(x) in a.known; }
    assert forall x :: x in rest ==> x in [node] + rest;
  }

  lemma TakeOnKeepsRows(max: nat, key: Address -> Key, now: int, b: Books, live: map<Key, int>, a: Adopting,
                        done: seq<Address>, node: Address)
    requires RowsOk(max, key, b, live, a, done) && node in a.core
    requires key(node) !in a.known && key(node) !in live && |a.known| < max
    ensures RowsOk(max, key, b, live, TakenOn(key, now, a, node), done + [node])
  {
    KeysGrow(a.trusted, key, node, TrustedRow(None, true, now));
  }

  lemma TakeOnKeeps(max: nat, key: Address -> Key, now: int, b: Books, live: map<Key, int>, a: Adopting,
                    done: seq<Address>, node: Address, rest: seq<Address>)
    requires Halfway(max, key, b, live, a, done, [node] + rest) && Apart(key, done, node, rest)
    requires key(node) !in a.known && key(node) !in a.work && |a.known| < max
    ensures Halfway(max, key, b, live, TakenOn(key, now, a, node), done + [node], rest)
  {
    assert node in [node] + rest;
    assert key(node) !in live;
    TakeOnKeepsRows(max, key, now, b, live, a, done, node);
  }

  lemma AdoptOneKeepsHalfway(max: nat, key: Address -> Key, now: int, b: Books, live: map<Key, int>, a: Adopting,
                             done: seq<Address>, node: Address, rest: seq<Address>)
    requires Halfway(max, key, b, live, a, done, [node] + rest) && Apart(key, done, node, rest)
    ensures Halfway(max, key, b, live, AdoptOne(max, key, now, ALWAYS, a, node), done + [node], rest)
  {
    if node == "" || key(node) in a.known || (key(node) !in a.work && |a.known| >= max) {
      SkipKeeps(max, key, b, live, a, done, node, rest);
    } else if key(node) in a.work {
      RetryKeeps(max, key, b, live, a, done, node, rest);
    } else {
      TakeOnKeeps(max, key, now, b, live, a, done, node, rest);
    }
  }

  lemma {:induction false} AdoptAllEndsHalfway(max: nat, key: Address -> Key, now: int, b: Books, live: map<Key, int>,
                                               a: Adopting, done: seq<Address>, rest: seq<Address>)
    requires DistinctNodes(done + rest, key) && Halfway(max, key, b, live, a, done, rest)
    ensures Halfway(max, key, b, live, AdoptAll(max, key, now, ALWAYS, a, rest), done + rest, [])
    decreases |rest|
  {
    if rest == [] {
      assert done + rest == done;
    } else {
      var node, later := rest[0], rest[1..];
      assert rest == [node] + later;
      assert done + rest == (done + [node]) + later;
      NodesApart(key, done, node, later);
      AdoptOneKeepsHalfway(max, key, now, b, live, a, done, node, later);
      AdoptAllEndsHalfway(max, key, now, b, live, AdoptOne(max, key, now, ALWAYS, a, node), done + [node], later);
    }
  }

  lemma NodesApart(key: Address -> Key, done: seq<Address>, node: Address, rest: seq<Address>)
    requires DistinctNodes((done + [node]) + rest, key)
    ensures Apart(key, done, node, rest)
  {
    var all := (done + [node]) + rest;
    assert all[|done|] == node;
    forall x | x in done || x in rest ensures key(x) != key(node) {
      if x in done {
        var j :| 0 <= j < |done| && done[j] == x;
        assert all[j] == x;
      } else {
        var j :| 0 <= j < |rest| && rest[j] == x;
        assert all[|done| + 1 + j] == x;
      }
    }
  }

  ghost predicate InOrder(max: nat, key: Address -> Key, b: Books) {
    |b.trusted| <= max && DistinctKeys(b.trusted, key) && DistinctNodes(b.core, key)
  }

  // What adoption leaves: nothing of ours lost, nothing adopted that we had
  // asked Core to drop, and in Core outside our set only what does not fit.
  ghost predicate WellAdopted(max: nat, key: Address -> Key, now: int, b: Books, t: Books) {
    && |t.trusted| <= max && DistinctKeys(t.trusted, key)
    && (forall x :: x in b.trusted ==> x in t.trusted && t.trusted[x] == b.trusted[x])
    && (forall x :: x in t.trusted && x !in b.trusted ==>
          key(x) !in LiveRemovals(b.pending, now) && x in t.peers && x in t.core && x in b.core)
    && (forall x :: x in t.core ==> x in b.core)
    && (forall x :: x in b.core && key(x) in KeysOf(t.trusted, key) ==> x in t.core)
    && (forall x :: x in t.core && x != "" && key(x) !in KeysOf(t.trusted, key) ==>
          |t.trusted| == max && key(x) !in LiveRemovals(t.pending, now))
  }

  lemma AdoptionEndsHalfway(max: nat, key: Address -> Key, now: int, b: Books)
    requires InOrder(max, key, b)
    ensures Halfway(max, key, b, LiveRemovals(b.pending, now),
                    AdoptAll(max, key, now, ALWAYS, Opened(key, now, b), b.core), b.core, [])
  {
    KeysCount(b.trusted, key);
    assert [] + b.core == b.core;
    AdoptAllEndsHalfway(max, key, now, b, LiveRemovals(b.pending, now), Opened(key, now, b), [], b.core);
  }

  lemma HalfwayIsWell(max: nat, key: Address -> Key, now: int, b: Books, a: Adopting)
    requires Halfway(max, key, b, LiveRemovals(b.pending, now), a, b.core, [])
    ensures WellAdopted(max, key, now, b, Closed(b, a))
  {
    KeysCount(a.trusted, key);
  }

  lemma AdoptionLeaves(max: nat, key: Address -> Key, now: int, b: Books)
    requires InOrder(max, key, b)
    ensures WellAdopted(max, key, now, b, Adopt(max, key, now, ALWAYS, b))
  {
    AdoptionEndsHalfway(max, key, now, b);
    HalfwayIsWell(max, key, now, b, AdoptAll(max, key, now, ALWAYS, Opened(key, now, b), b.core));
  }

  // ---- Synchronisation -----------------------------------------------------------

  // After `done`, with `rest` to go: nothing was queued, and every row looked
  // at is in Core.
  ghost predicate Syncs(max: nat, key: Address -> Key, listed: seq<Address>, core: seq<Address>, s: Syncing,
                        done: seq<Address>, rest: seq<Address>) {
    && s.slotsUsed + |rest| <= max + Listed(key, listed, rest)
    && core <= s.core
    && (forall x :: x in s.core ==> x in core || x in done)
    && (forall x :: x in done ==> HasKey(s.core, key, key(x)))
    && (forall i :: |core| <= i < |s.core| ==> s.core[i] in done)
  }

  lemma HasKeyOf(nodes: seq<Address>, key: Address -> Key, x: Address)
    requires x in nodes
    ensures HasKey(nodes, key, key(x))
  {
    var i :| 0 <= i < |nodes| && nodes[i] == x;
  }

  lemma ListedAtMost(key: Address -> Key, listed: seq<Address>, order: seq<Address>)
    ensures Listed(key, listed, order) <= |order|
  {
  }

  lemma SyncOneKeeps(max: nat, key: Address -> Key, listed: seq<Address>, core: seq<Address>, s: Syncing,
                     done: seq<Address>, node: Address, rest: seq<Address>)
    requires Syncs(max, key, listed, core, s, done, [node] + rest) && Apart(key, done, node, rest)
    requires HasKey(listed, key, key(node)) <==> HasKey(core, key, key(node))
    ensures Syncs(max, key, listed, core, SyncOne(max, key, listed, ALWAYS, s, node), done + [node], rest)
    ensures !HasKey(listed, key, key(node)) ==> SyncOne(max, key, listed, ALWAYS, s, node).core == s.core + [node]
  {
    var t := SyncOne(max, key, listed, ALWAYS, s, node);
    assert ([node] + rest)[1..] == rest;
    ListedAtMost(key, listed, rest);
    if HasKey(listed, key, key(node)) {
      var i :| 0 <= i < |core| && key(core[i]) == key(node);
      assert s.core[i] == core[i];
    } else {
      assert !HasKey(s.core, key, key(node)) by {
        forall i | 0 <= i < |s.core| ensures key(s.core[i]) != key(node) {
          if i < |core| { assert s.core[i] == core[i]; }
        }
      }
      assert t.core == s.core + [node];
      forall x | x in done + [node] ensures HasKey(t.core, key, key(x)) {
        if x in done {
          var i :| 0 <= i < |s.core| && key(s.core[i]) == key(x);
          assert t.core[i] == s.core[i];
        } else {
          HasKeyOf(t.core, key, x);
        }
      }
    }
  }

  lemma {:induction false} SyncAllEnds(max: nat, key: Address -> Key, listed: seq<Address>, core: seq<Address>, s: Syncing,
                                       done: seq<Address>, rest: seq<Address>)
    requires DistinctNodes(done + rest, key) && Syncs(max, key, listed, core, s, done, rest)
    requires forall x :: x in rest ==> (HasKey(listed, key, key(x)) <==> HasKey(core, key, key(x)))
    ensures Syncs(max, key, listed, core, SyncAll(max, key, listed, ALWAYS, s, rest), done + rest, [])
    decreases |rest|
  {
    if rest == [] {
      assert done + rest == done;
    } else {
      var node, later := rest[0], rest[1..];
      assert rest == [node] + later && done + rest == (done + [node]) + later;
      NodesApart(key, done, node, later);
      SyncOneKeeps(max, key, listed, core, s, done, node, later);
      SyncAllEnds(max, key, listed, core, SyncOne(max, key, listed, ALWAYS, s, node), done + [node], later);
    }
  }

  lemma {:induction false} OrderSize(trusted: map<Address, TrustedRow>, order: seq<Address>)
    requires forall a :: a in order <==> a in trusted
    requires forall i, j :: 0 <= i < j < |order| ==> order[i] != order[j]
    ensures |order| == |trusted|
    decreases |order|
  {
    if order == [] {
      assert trusted == map[];
    } else {
      var last := order[|order| - 1];
      var front := order[..|order| - 1];
      assert order == front + [last];
      DeleteSize(trusted, last);
      forall a ensures a in front <==> a in trusted - {last} {
        if a in front { var i :| 0 <= i < |front| && front[i] == a; assert order[i] == a; }
        if a in trusted - {last} { assert a in order; }
      }
      OrderSize(trusted - {last}, front);
    }
  }

  lemma OrderIsDistinct(key: Address -> Key, trusted: map<Address, TrustedRow>, order: seq<Address>)
    requires DistinctKeys(trusted, key) && IsOldestFirst(order, trusted)
    ensures DistinctNodes(order, key)
  {
    forall i, j | 0 <= i < j < |order| ensures key(order[i]) != key(order[j]) {
      assert order[i] in trusted && order[j] in trusted;
    }
  }

  // Adoption read Core's list once; for our own rows the list it leaves says the same.
  lemma ListSaysTheSame(max: nat, key: Address -> Key, now: int, b: Books, t: Books, x: Address)
    requires WellAdopted(max, key, now, b, t) && x in t.trusted
    ensures HasKey(b.core, key, key(x)) <==> HasKey(t.core, key, key(x))
  {
    assert key(x) in KeysOf(t.trusted, key);
    if HasKey(b.core, key, key(x)) {
      var i :| 0 <= i < |b.core| && key(b.core[i]) == key(x);
      assert b.core[i] in t.core;
      HasKeyOf(t.core, key, b.core[i]);
    }
    if HasKey(t.core, key, key(x)) {
      var i :| 0 <= i < |t.core| && key(t.core[i]) == key(x);
      assert t.core[i] in b.core;
      HasKeyOf(b.core, key, t.core[i]);
    }
  }

  // What a whole pass leaves.
  ghost predicate Reconciled(max: nat, key: Address -> Key, now: int, b: Books, u: Books) {
    && |u.trusted| <= max && DistinctKeys(u.trusted, key)
    // nothing of ours is lost, and every manual peer is an addnode entry
    && (forall x :: x in b.trusted ==> x in u.trusted && u.trusted[x] == b.trusted[x])
    && (forall x :: x in u.trusted ==> HasKey(u.core, key, key(x)))
    // adopted: only what Core had, and never what we had asked it to drop
    && (forall x :: x in u.trusted && x !in b.trusted ==> x in b.core && key(x) !in LiveRemovals(b.pending, now))
    // left over in Core: only what does not fit
    && (forall x :: x in u.core && x != "" && key(x) !in KeysOf(u.trusted, key) ==>
          |u.trusted| == max && x in b.core && key(x) !in LiveRemovals(u.pending, now))
  }

  lemma SyncFinishes(max: nat, key: Address -> Key, now: int, b: Books, t: Books, order: seq<Address>)
    requires WellAdopted(max, key, now, b, t) && IsOldestFirst(order, t.trusted)
    ensures var u := Sync(max, key, b.core, ALWAYS, t, order);
      && u.trusted == t.trusted && u.pending == t.pending && u.peers == t.peers
      && (forall x :: x in u.trusted ==> HasKey(u.core, key, key(x)))
      && (forall x :: x in u.core ==> x in t.core || x in t.trusted)
  {
    forall x | x in order ensures HasKey(b.core, key, key(x)) <==> HasKey(t.core, key, key(x)) {
      ListSaysTheSame(max, key, now, b, t, x);
    }
    SyncEnds(max, key, b.core, t, order);
  }

  lemma SyncEnds(max: nat, key: Address -> Key, listed: seq<Address>, t: Books, order: seq<Address>)
    requires |t.trusted| <= max && DistinctKeys(t.trusted, key) && IsOldestFirst(order, t.trusted)
    requires forall x :: x in order ==> (HasKey(listed, key, key(x)) <==> HasKey(t.core, key, key(x)))
    ensures var u := Sync(max, key, listed, ALWAYS, t, order);
      && u == t.(core := u.core)
      && (forall x :: x in t.trusted ==> HasKey(u.core, key, key(x)))
      && (forall x :: x in u.core ==> x in t.core || x in t.trusted)
  {
    OrderIsDistinct(key, t.trusted, order);
    OrderSize(t.trusted, order);
    assert [] + order == order;
    SyncStarts(max, key, listed, t.core, order);
    SyncAllEnds(max, key, listed, t.core, Syncing(t.core, Listed(key, listed, order)), [], order);
    var s := SyncAll(max, key, listed, ALWAYS, Syncing(t.core, Listed(key, listed, order)), order);
    assert Syncs(max, key, listed, t.core, s, order, []);
  }

  lemma SyncStarts(max: nat, key: Address -> Key, listed: seq<Address>, core: seq<Address>, order: seq<Address>)
    requires |order| <= max
    ensures Syncs(max, key, listed, core, Syncing(core, Listed(key, listed, order)), [], order)
  {
  }

  // With every RPC succeeding, one adopt-then-sync pass over at most `max` rows
  // with distinct keys reconciles the two lists.
  lemma OnePassReconciles(max: nat, key: Address -> Key, now: int, b: Books, order: seq<Address>)
    requires InOrder(max, key, b) && IsOldestFirst(order, Adopt(max, key, now, ALWAYS, b).trusted)
    ensures Reconciled(max, key, now, b, Sync(max, key, b.core, ALWAYS, Adopt(max, key, now, ALWAYS, b), order))
  {
    var t := Adopt(max, key, now, ALWAYS, b);
    AdoptionLeaves(max, key, now, b);
    SyncFinishes(max, key, now, b, t, order);
    var u := Sync(max, key, b.core, ALWAYS, t, order);
    assert forall x :: x in t.trusted ==> key(x) in KeysOf(u.trusted, key);
    forall x | x in u.core && x != "" && key(x) !in KeysOf(u.trusted, key)
      ensures |u.trusted| == max && x in b.core && key(x) !in LiveRemovals(u.pending, now)
    {
      assert x in t.core || x in t.trusted;
    }
  }

  lemma {:induction false} AdoptsNothing(max: nat, key: Address -> Key, now: int, removes: Address -> bool, a: Adopting,
                                         nodes: seq<Address>)
    requires forall x :: x in nodes ==> x == "" || key(x) in a.known || (key(x) !in a.work && |a.known| >= max)
    ensures AdoptAll(max, key, now, removes, a, nodes) == a
    decreases |nodes|
  {
    if |nodes| > 0 {
      assert nodes[0] in nodes;
      assert AdoptOne(max, key, now, removes, a, nodes[0]) == a;
      assert forall x :: x in nodes[1..] ==> x in nodes;
      AdoptsNothing(max, key, now, removes, a, nodes[1..]);
    }
  }

  lemma {:induction false} SyncsNothing(max: nat, key: Address -> Key, listed: seq<Address>, adds: Address -> bool,
                                        s: Syncing, order: seq<Address>)
    requires forall x :: x in order ==> HasKey(listed, key, key(x))
    ensures SyncAll(max, key, listed, adds, s, order) == s
    decreases |order|
  {
    if |order| > 0 {
      assert order[0] in order;
      assert forall x :: x in order[1..] ==> x in order;
      SyncsNothing(max, key, listed, adds, s, order[1..]);
    }
  }

  // And then it is done: any later pass changes nothing at all, whether or not
  // Core answers it.
  lemma SecondPassChangesNothing(max: nat, key: Address -> Key, now: int, b: Books, u: Books, later: int,
                                 removes: Address -> bool, adds: Address -> bool, order: seq<Address>)
    requires Reconciled(max, key, now, b, u) && now <= later && IsOldestFirst(order, u.trusted)
    ensures Adopt(max, key, later, removes, u) == u
    ensures Sync(max, key, u.core, adds, u, order) == u
  {
    KeysCount(u.trusted, key);
    assert forall k :: k in LiveRemovals(u.pending, later) ==> k in LiveRemovals(u.pending, now);
    AdoptsNothing(max, key, later, removes, Opened(key, later, u), u.core);
    SyncsNothing(max, key, u.core, adds, Syncing(u.core, Listed(key, u.core, order)), order);
  }

  // A restarted Core has forgotten everything: the pass rebuilds exactly our set.
  lemma RestartRebuildsTheSet(max: nat, key: Address -> Key, now: int, b: Books, order: seq<Address>)
    requires InOrder(max, key, b) && b.core == [] && IsOldestFirst(order, b.trusted)
    ensures Adopt(max, key, now, ALWAYS, b) == b
    ensures var u := Sync(max, key, [], ALWAYS, b, order);
      (forall x :: x in u.core ==> x in b.trusted) && (forall x :: x in b.trusted ==> HasKey(u.core, key, key(x)))
  {
    assert AdoptAll(max, key, now, ALWAYS, Opened(key, now, b), []) == Opened(key, now, b);
    AdoptionLeaves(max, key, now, b);
    SyncFinishes(max, key, now, b, b, order);
  }

  // ---- A removal that Core refused ------------------------------------------------

  // A node whose removal is owed is not taken on, whatever Core answers now.
  lemma {:induction false} OwedIsNotAdopted(max: nat, key: Address -> Key, now: int, removes: Address -> bool, a: Adopting,
                                            nodes: seq<Address>, k: Key)
    requires DistinctNodes(nodes, key) && (k in a.work || forall x :: x in nodes ==> key(x) != k)
    ensures forall x :: x in AdoptAll(max, key, now, removes, a, nodes).trusted ==> x in a.trusted || key(x) != k
    decreases |nodes|
  {
    if |nodes| > 0 {
      var node, rest := nodes[0], nodes[1..];
      assert nodes == [node] + rest;
      FirstIsApart(key, node, rest);
      OwedIsNotAdopted(max, key, now, removes, AdoptOne(max, key, now, removes, a, node), rest, k);
    }
  }

  lemma FirstIsApart(key: Address -> Key, node: Address, rest: seq<Address>)
    requires DistinctNodes([node] + rest, key)
    ensures DistinctNodes(rest, key) && forall x :: x in rest ==> key(x) != key(node)
  {
    var all := [node] + rest;
    assert forall i :: 0 <= i < |rest| ==> all[i + 1] == rest[i];
    assert forall i :: 0 < i < |all| ==> key(all[0]) != key(all[i]);
  }

  // Taken out of the manual set while Core refused to drop it, a peer stays out at
  // every adoption of the next 24 hours, however often Core still lists it.
  lemma RefusedRemovalStaysOut(max: nat, key: Address -> Key, removes: Address -> bool, b: Books, address: Address, at: int,
                               now: int)
    requires DistinctNodes(b.core, key) && now < at + 86400000
    ensures var left := Books(b.trusted - {address}, b.peers, Remembered(b.pending, key(address), false, at), b.core);
      address !in Adopt(max, key, now, removes, left).trusted
  {
    var left := Books(b.trusted - {address}, b.peers, Remembered(b.pending, key(address), false, at), b.core);
    OwedIsNotAdopted(max, key, now, removes, Opened(key, now, left), left.core, key(address));
  }

  // Instead the removal is tried again: done now, it is settled; refused again, it
  // stays owed from the time it was.
  ghost predicate Retried(b: Books, t: Books, node: Address, k: Key, removed: bool) {
    if removed then node !in t.core && k !in t.pending
    else node in t.core && k in b.pending && k in t.pending && t.pending[k] == b.pending[k]
  }

  // Before the pass gets to the node, and after.
  ghost predicate StillOwed(a: Adopting, node: Address, k: Key, at: int) {
    node in a.core && k !in a.known && k in a.work && a.work[k] == at
  }

  ghost predicate Settled(a: Adopting, node: Address, k: Key) { node !in a.core && k !in a.work && a.changed }

  lemma {:induction false} OthersDoNotSettle(max: nat, key: Address -> Key, now: int, removes: Address -> bool, a: Adopting,
                                             nodes: seq<Address>, node: Address, k: Key, at: int)
    requires key(node) == k && forall x :: x in nodes ==> key(x) != k
    ensures var t := AdoptAll(max, key, now, removes, a, nodes);
      (StillOwed(a, node, k, at) ==> StillOwed(t, node, k, at)) && (Settled(a, node, k) ==> Settled(t, node, k))
    decreases |nodes|
  {
    if |nodes| > 0 {
      assert nodes[0] in nodes && forall x :: x in nodes[1..] ==> x in nodes;
      OthersDoNotSettle(max, key, now, removes, AdoptOne(max, key, now, removes, a, nodes[0]), nodes[1..], node, k, at);
    }
  }

  lemma {:induction false} OwedIsTriedAgain(max: nat, key: Address -> Key, now: int, removes: Address -> bool, a: Adopting,
                                            nodes: seq<Address>, node: Address, k: Key, at: int)
    requires DistinctNodes(nodes, key) && node in nodes && node != "" && key(node) == k && StillOwed(a, node, k, at)
    ensures var t := AdoptAll(max, key, now, removes, a, nodes);
      if removes(node) then Settled(t, node, k) else StillOwed(t, node, k, at)
    decreases |nodes|
  {
    var first, rest := nodes[0], nodes[1..];
    var next := AdoptOne(max, key, now, removes, a, first);
    assert nodes == [first] + rest;
    FirstIsApart(key, first, rest);
    if first == node {
      OthersDoNotSettle(max, key, now, removes, next, rest, node, k, at);
    } else {
      OwedIsTriedAgain(max, key, now, removes, next, rest, node, k, at);
    }
  }

  lemma RefusedRemovalIsRetried(max: nat, key: Address -> Key, removes: Address -> bool, b: Books, node: Address, now: int)
    requires DistinctNodes(b.core, key) && node in b.core && node != "" && key(node) !in KeysOf(b.trusted, key)
    requires key(node) in b.pending && now < b.pending[key(node)] + 86400000
    ensures Retried(b, Adopt(max, key, now, removes, b), node, key(node), removes(node))
  {
    var k := key(node);
    OwedIsTriedAgain(max, key, now, removes, Opened(key, now, b), b.core, node, k, b.pending[k]);
  }

  // A day later it is somebody else's addnode again, and taken on with a star.
  lemma ForgottenAfterADay(max: nat, key: Address -> Key, removes: Address -> bool, b: Books, node: Address, now: int)
    requires b.core == [node] && node != "" && key(node) in b.pending
    requires key(node) !in KeysOf(b.trusted, key) && |KeysOf(b.trusted, key)| < max
    ensures var t := Adopt(max, key, now, removes, b);
      && (node in t.trusted <==> b.pending[key(node)] + 86400000 <= now)
      && (node in t.trusted ==> t.trusted[node] == TrustedRow(None, true, now) && node in t.peers)
  {
    var a := Opened(key, now, b);
    assert node !in b.trusted;
    assert b.core[1..] == [];
    assert AdoptAll(max, key, now, removes, a, b.core) == AdoptOne(max, key, now, removes, a, node);
  }

  // ---- Synchronisation when Core refuses some ----------------------------------------

  ghost predicate SyncsSome(max: nat, key: Address -> Key, listed: seq<Address>, core: seq<Address>, adds: Address -> bool,
                            s: Syncing, done: seq<Address>, rest: seq<Address>) {
    && s.slotsUsed + |rest| <= max + Listed(key, listed, rest)
    && core <= s.core
    && (forall x :: x in s.core ==> x in core || (x in done && adds(x)))
    && (forall x :: x in done && (adds(x) || HasKey(core, key, key(x))) ==> HasKey(s.core, key, key(x)))
  }

  lemma StillListed(core: seq<Address>, more: seq<Address>, key: Address -> Key, k: Key)
    requires core <= more && HasKey(core, key, k)
    ensures HasKey(more, key, k)
  {
    var i :| 0 <= i < |core| && key(core[i]) == k;
    assert more[i] == core[i];
  }

  lemma SyncOneKeepsSome(max: nat, key: Address -> Key, listed: seq<Address>, core: seq<Address>, adds: Address -> bool,
                         s: Syncing, done: seq<Address>, node: Address, rest: seq<Address>)
    requires SyncsSome(max, key, listed, core, adds, s, done, [node] + rest)
    requires HasKey(listed, key, key(node)) ==> HasKey(core, key, key(node))
    ensures SyncsSome(max, key, listed, core, adds, SyncOne(max, key, listed, adds, s, node), done + [node], rest)
  {
    var t := SyncOne(max, key, listed, adds, s, node);
    assert ([node] + rest)[1..] == rest;
    ListedAtMost(key, listed, rest);
    assert s.core <= t.core;
    forall x | x in done + [node] && (adds(x) || HasKey(core, key, key(x))) ensures HasKey(t.core, key, key(x)) {
      if x in done {
        StillListed(s.core, t.core, key, key(x));
      } else if HasKey(core, key, key(x)) {
        StillListed(core, t.core, key, key(x));
      } else if !HasKey(s.core, key, key(node)) {
        HasKeyOf(t.core, key, node);
      }
    }
  }

  lemma {:induction false} SyncAllSome(max: nat, key: Address -> Key, listed: seq<Address>, core: seq<Address>,
                                       adds: Address -> bool, s: Syncing, done: seq<Address>, rest: seq<Address>)
    requires SyncsSome(max, key, listed, core, adds, s, done, rest)
    requires forall x :: x in rest && HasKey(listed, key, key(x)) ==> HasKey(core, key, key(x))
    ensures SyncsSome(max, key, listed, core, adds, SyncAll(max, key, listed, adds, s, rest), done + rest, [])
    decreases |rest|
  {
    if rest == [] {
      assert done + rest == done;
    } else {
      var node, later := rest[0], rest[1..];
      assert rest == [node] + later && done + rest == (done + [node]) + later;
      SyncOneKeepsSome(max, key, listed, core, adds, s, done, node, later);
      SyncAllSome(max, key, listed, core, adds, SyncOne(max, key, listed, adds, s, node), done + [node], later);
    }
  }

  // Whichever adds Core refuses: every row it does not refuse ends on its list, and
  // nothing that was there goes or comes besides.
  lemma SyncTriesEveryRow(max: nat, key: Address -> Key, adds: Address -> bool, b: Books, order: seq<Address>)
    requires |b.trusted| <= max && IsOldestFirst(order, b.trusted)
    ensures var u := Sync(max, key, b.core, adds, b, order);
      && u == b.(core := u.core) && b.core <= u.core
      && (forall x :: x in u.core ==> x in b.core || (x in b.trusted && adds(x)))
      && (forall x :: x in b.trusted && (adds(x) || HasKey(b.core, key, key(x))) ==> HasKey(u.core, key, key(x)))
  {
    OrderSize(b.trusted, order);
    assert [] + order == order;
    SyncAllSome(max, key, b.core, b.core, adds, Syncing(b.core, Listed(key, b.core, order)), [], order);
  }

  // ---- A slot is taken by an entry and by nothing else ---------------------------------

  lemma {:induction false} SlotsAreEntries(max: nat, key: Address -> Key, listed: seq<Address>, adds: Address -> bool,
                                           s: Syncing, order: seq<Address>)
    ensures var t := SyncAll(max, key, listed, adds, s, order);
      && s.core <= t.core && t.slotsUsed - s.slotsUsed == |t.core| - |s.core|
    decreases |order|
  {
    if |order| > 0 {
      SlotsAreEntries(max, key, listed, adds, SyncOne(max, key, listed, adds, s, order[0]), order[1..]);
    }
  }

  // A row that Core would have taken and that is not listed was left out because the
  // slots were full.
  lemma {:induction false} LeftOutIsFull(max: nat, key: Address -> Key, listed: seq<Address>, adds: Address -> bool,
                                         s: Syncing, order: seq<Address>, x: Address)
    requires x in order && adds(x) && !HasKey(listed, key, key(x))
    requires var t := SyncAll(max, key, listed, adds, s, order); !HasKey(t.core, key, key(x))
    ensures SyncAll(max, key, listed, adds, s, order).slotsUsed >= max
    decreases |order|
  {
    var node, rest := order[0], order[1..];
    var next := SyncOne(max, key, listed, adds, s, node);
    var t := SyncAll(max, key, listed, adds, next, rest);
    SlotsAreEntries(max, key, listed, adds, next, rest);
    if s.slotsUsed < max && x == node {
      if HasKey(s.core, key, key(x)) { StillListed(s.core, t.core, key, key(x)); } else { HasKeyOf(next.core, key, x); }
      if HasKey(next.core, key, key(x)) { StillListed(next.core, t.core, key, key(x)); }
      assert false;
    } else if s.slotsUsed < max {
      assert x in rest;
      LeftOutIsFull(max, key, listed, adds, next, rest, x);
    }
  }

  lemma {:induction false} ListedCounts(key: Address -> Key, listed: seq<Address>, order: seq<Address>)
    requires forall i, j :: 0 <= i < j < |order| ==> order[i] != order[j]
    ensures Listed(key, listed, order) == |set x | x in order && HasKey(listed, key, key(x))|
    decreases |order|
  {
    var all := set x | x in order && HasKey(listed, key, key(x));
    if |order| > 0 {
      var rest := set x | x in order[1..] && HasKey(listed, key, key(x));
      ListedCounts(key, listed, order[1..]);
      assert order == [order[0]] + order[1..];
      assert order[0] !in order[1..];
      if HasKey(listed, key, key(order[0])) { assert all == {order[0]} + rest; } else { assert all == rest; }
    } else {
      assert all == {};
    }
  }

  // However many rows there are: as many entries are added as rows were missing and
  // Core took, and a row it would have taken is left out only once the rows it
  // listed before and the entries added fill the slots. A refusal fills none.
  lemma QueuedOnlyWhenFull(max: nat, key: Address -> Key, adds: Address -> bool, b: Books, order: seq<Address>, x: Address)
    requires IsOldestFirst(order, b.trusted) && x in b.trusted && adds(x)
    ensures var u := Sync(max, key, b.core, adds, b, order);
      HasKey(u.core, key, key(x)) ||
      |set y | y in b.trusted && HasKey(b.core, key, key(y))| + |u.core| - |b.core| >= max
  {
    var s := Syncing(b.core, Listed(key, b.core, order));
    var u := Sync(max, key, b.core, adds, b, order);
    SlotsAreEntries(max, key, b.core, adds, s, order);
    ListedCounts(key, b.core, order);
    assert (set y | y in b.trusted && HasKey(b.core, key, key(y))) == set y | y in order && HasKey(b.core, key, key(y));
    if !HasKey(u.core, key, key(x)) {
      if HasKey(b.core, key, key(x)) { StillListed(b.core, u.core, key, key(x)); }
      LeftOutIsFull(max, key, b.core, adds, s, order, x);
    }
  }
}
