/**
 * src/peer-profiler.js: the session table and the poll that writes it, with and
 * without the throttle that skips rows nothing has changed in.
 *
 * A row's index stands for its id. Pings are milliseconds, as reals.
 */
module Sessions {
  import opened Basics
  import opened Wrappers

  const PING_DRIFT_MS := 5.0

  // Columns a write always replaces.
  datatype Link = Link(coreId: Option<int>, direction: string, connectionType: string, network: Option<string>,
                       subver: Option<string>)

  // Columns where a missing value means "not reported" and changes nothing.
  datatype Extras = Extras(services: Option<string>, relayTxes: Option<bool>, syncedHeaders: Option<int>,
                           hbTo: Option<bool>, hbFrom: Option<bool>)

  datatype Session = Session(peer: string, link: Link, extras: Extras, startedAt: int, endedAt: Option<int>,
                             minPing: Option<real>, lastPing: Option<real>)

  // One peer of a getpeerinfo snapshot; conntime is in seconds.
  datatype Reading = Reading(addr: string, id: Option<int>, conntime: Option<int>, inbound: bool,
                             connectionType: Option<string>, network: Option<string>, subver: Option<string>,
                             minPing: Option<real>, lastPing: Option<real>, extras: Extras)

  type Table = seq<Session>

  // ---- One row ---------------------------------------------------------------

  function LinkOf(r: Reading): Link {
    Link(r.id, if r.inbound then "inbound" else "outbound",
         r.connectionType.GetOr(if r.inbound then "inbound" else "unknown"), r.network, r.subver)
  }

  function OrElse<T>(a: Option<T>, b: Option<T>): Option<T> { if a.Some? then a else b }

  function Coalesce(next: Extras, stored: Extras): Extras {
    Extras(OrElse(next.services, stored.services), OrElse(next.relayTxes, stored.relayTxes),
           OrElse(next.syncedHeaders, stored.syncedHeaders), OrElse(next.hbTo, stored.hbTo), OrElse(next.hbFrom, stored.hbFrom))
  }

  function LowerOf(a: Option<real>, b: Option<real>): Option<real> {
    match (a, b)
    case (None, _) => b
    case (Some(_), None) => a
    case (Some(x), Some(y)) => Some(if x <= y then x else y)
  }

  // What a poll would write, already merged with the row it read.
  datatype Update = Update(link: Link, minPing: Option<real>, lastPing: Option<real>, extras: Extras)

  function UpdateOf(stored: Session, r: Reading): Update {
    Update(LinkOf(r), LowerOf(r.minPing, stored.minPing), OrElse(r.lastPing, stored.lastPing), r.extras)
  }

  function Written(row: Session, u: Update): Session {
    row.(link := u.link, minPing := u.minPing, lastPing := u.lastPing, extras := Coalesce(u.extras, row.extras))
  }

  predicate News<T(==)>(next: Option<T>, stored: Option<T>) { next.Some? && stored != next }

  predicate NeedsWrite(stored: Session, u: Update) {
    || stored.link != u.link || stored.minPing != u.minPing
    || News(u.extras.services, stored.extras.services) || News(u.extras.relayTxes, stored.extras.relayTxes)
    || News(u.extras.syncedHeaders, stored.extras.syncedHeaders) || News(u.extras.hbTo, stored.extras.hbTo)
    || News(u.extras.hbFrom, stored.extras.hbFrom)
    || (if stored.lastPing.None? || u.lastPing.None? then stored.lastPing != u.lastPing
        else Abs(u.lastPing.value - stored.lastPing.value) >= PING_DRIFT_MS)
  }

  // The same address is not yet the same session.
  predicate IsSameSession(s: Session, r: Reading) {
    if s.link.coreId.Some? && r.id.Some? then s.link.coreId == r.id
    else r.conntime.None? || r.conntime.value * 1000 <= s.startedAt + 1000
  }

  function StartOf(r: Reading, now: int): int {
    match r.conntime
    case None => now
    case Some(c) => c * 1000
  }

  // ---- One poll --------------------------------------------------------------

  // new Map(peers.map(p => [p.addr, p])): the last reading of an address.
  function ReadingAt(readings: seq<Reading>, addr: string): (r: Option<Reading>)
    ensures r.Some? ==> r.value in readings && r.value.addr == addr
    ensures r.None? ==> forall x :: x in readings ==> x.addr != addr
  {
    if |readings| == 0 then None
    else if readings[|readings| - 1].addr == addr then Some(readings[|readings| - 1])
    else ReadingAt(readings[..|readings| - 1], addr)
  }

  function CloseOne(s: Session, readings: seq<Reading>, now: int): Session {
    if s.endedAt.Some? then s
    else
      match ReadingAt(readings, s.peer)
      case None => s.(endedAt := Some(now))
      case Some(r) =>
        if IsSameSession(s, r) then s
        else s.(endedAt := Some(MaxInt(s.startedAt, MinInt(StartOf(r, now), now))))
  }

  function CloseAll(t: Table, readings: seq<Reading>, now: int): (u: Table)
    ensures |u| == |t| && forall i :: 0 <= i < |t| ==> u[i] == CloseOne(t[i], readings, now)
  {
    seq(|t|, i requires 0 <= i < |t| => CloseOne(t[i], readings, now))
  }

  // openByAddress: the last open row of an address.
  function OpenAt(t: Table, addr: string): (r: Option<nat>)
    ensures r.Some? ==> r.value < |t| && t[r.value].peer == addr && t[r.value].endedAt.None?
    ensures r.None? ==> forall i :: 0 <= i < |t| ==> t[i].peer != addr || t[i].endedAt.Some?
  {
    if |t| == 0 then None
    else if t[|t| - 1].peer == addr && t[|t| - 1].endedAt.None? then Some(|t| - 1)
    else OpenAt(t[..|t| - 1], addr)
  }

  function Fresh(r: Reading, now: int): Session {
    Session(r.addr, LinkOf(r), r.extras, StartOf(r, now), None, r.minPing, r.lastPing)
  }

  // `read` is the table as it was read, before any row was written.
  function RecordOne(t: Table, read: Table, r: Reading, now: int, throttled: bool): Table
    requires |read| <= |t|
  {
    match OpenAt(read, r.addr)
    case Some(i) =>
      var u := UpdateOf(read[i], r);
      if !throttled || NeedsWrite(read[i], u) then t[i := Written(t[i], u)] else t
    case None => t + [Fresh(r, now)]
  }

  function RecordAll(t: Table, read: Table, readings: seq<Reading>, now: int, throttled: bool): Table
    requires |read| <= |t|
    decreases |readings|
  {
    if |readings| == 0 then t
    else RecordAll(RecordOne(t, read, readings[0], now, throttled), read, readings[1..], now, throttled)
  }

  function Poll(t: Table, readings: seq<Reading>, now: int, throttled: bool): Table {
    var closed := CloseAll(t, readings, now);
    RecordAll(closed, closed, readings, now, throttled)
  }

  ghost predicate DistinctReadings(readings: seq<Reading>) {
    forall i, j :: 0 <= i < j < |readings| ==> readings[i].addr != readings[j].addr
  }

  // ---- The throttle refines always writing ---------------------------------------

  ghost predicate ClosePings(a: Option<real>, b: Option<real>) {
    match (a, b)
    case (None, None) => true
    case (Some(x), Some(y)) => Abs(x - y) < PING_DRIFT_MS
    case _ => false
  }

  // Equal in every column except last_ping_ms, which is less than the drift away.
  ghost predicate Agrees(always: Session, skipping: Session) {
    always.(lastPing := None) == skipping.(lastPing := None) && ClosePings(always.lastPing, skipping.lastPing)
  }

  ghost predicate TablesAgree(always: Table, skipping: Table) {
    |always| == |skipping| && forall i :: 0 <= i < |always| ==> Agrees(always[i], skipping[i])
  }

  lemma SkippingIsHarmless(stored: Session, r: Reading)
    requires !NeedsWrite(stored, UpdateOf(stored, r))
    ensures Written(stored, UpdateOf(stored, r)).(lastPing := None) == stored.(lastPing := None)
    ensures ClosePings(OrElse(r.lastPing, stored.lastPing), stored.lastPing)
  {
  }

  lemma RowAgrees(a: Session, s: Session, r: Reading)
    requires Agrees(a, s)
    ensures var u := UpdateOf(s, r);
      Agrees(Written(a, UpdateOf(a, r)), if NeedsWrite(s, u) then Written(s, u) else s)
  {
    var u := UpdateOf(s, r);
    SameColumns(a, s);
    if !NeedsWrite(s, u) { SkippingIsHarmless(s, r); }
    if r.lastPing.Some? { assert Abs(r.lastPing.value - r.lastPing.value) == 0.0; }
  }

  lemma SameColumns(a: Session, s: Session)
    requires a.(lastPing := None) == s.(lastPing := None)
    ensures a.peer == s.peer && a.link == s.link && a.extras == s.extras && a.startedAt == s.startedAt
    ensures a.endedAt == s.endedAt && a.minPing == s.minPing
  {
  }

  lemma ClosingAgrees(a: Table, s: Table, readings: seq<Reading>, now: int)
    requires TablesAgree(a, s)
    ensures TablesAgree(CloseAll(a, readings, now), CloseAll(s, readings, now))
  {
    forall i | 0 <= i < |a| ensures Agrees(CloseOne(a[i], readings, now), CloseOne(s[i], readings, now)) {
      assert Agrees(a[i], s[i]);
      SameColumns(a[i], s[i]);
    }
  }

  lemma {:induction false} OpenAtAgrees(a: Table, s: Table, addr: string)
    requires TablesAgree(a, s)
    ensures OpenAt(a, addr) == OpenAt(s, addr)
    decreases |a|
  {
    if |a| > 0 {
      SameColumns(a[|a| - 1], s[|s| - 1]);
      assert TablesAgree(a[..|a| - 1], s[..|s| - 1]);
      OpenAtAgrees(a[..|a| - 1], s[..|s| - 1], addr);
    }
  }

  // Rows not written yet are as they were read.
  ghost predicate Untouched(t: Table, read: Table, readings: seq<Reading>) {
    |read| <= |t| && forall i :: 0 <= i < |read| && (exists r :: r in readings && r.addr == read[i].peer) ==> t[i] == read[i]
  }

  lemma {:induction false} RecordingAgrees(a: Table, aRead: Table, s: Table, sRead: Table, readings: seq<Reading>, now: int)
    requires TablesAgree(a, s) && TablesAgree(aRead, sRead) && DistinctReadings(readings)
    requires Untouched(a, aRead, readings) && Untouched(s, sRead, readings)
    ensures TablesAgree(RecordAll(a, aRead, readings, now, false), RecordAll(s, sRead, readings, now, true))
    decreases |readings|
  {
    if |readings| > 0 {
      var r, rest := readings[0], readings[1..];
      OpenAtAgrees(aRead, sRead, r.addr);
      var a', s' := RecordOne(a, aRead, r, now, false), RecordOne(s, sRead, r, now, true);
      match OpenAt(aRead, r.addr) {
        case Some(i) =>
          assert r in readings;
          assert a[i] == aRead[i] && s[i] == sRead[i];
          RowAgrees(aRead[i], sRead[i], r);
        case None =>
      }
      assert TablesAgree(a', s');
      RecordLeavesOthers(a, aRead, readings, now, false);
      RecordLeavesOthers(s, sRead, readings, now, true);
      RecordingAgrees(a', aRead, s', sRead, rest, now);
    }
  }

  lemma RecordLeavesOthers(t: Table, read: Table, readings: seq<Reading>, now: int, throttled: bool)
    requires |readings| > 0 && DistinctReadings(readings) && Untouched(t, read, readings)
    ensures Untouched(RecordOne(t, read, readings[0], now, throttled), read, readings[1..])
  {
    var after, rest := RecordOne(t, read, readings[0], now, throttled), readings[1..];
    forall i | 0 <= i < |read| && (exists r :: r in rest && r.addr == read[i].peer) ensures after[i] == read[i] {
      var r :| r in rest && r.addr == read[i].peer;
      assert r in readings;
      var k :| 0 <= k < |rest| && rest[k] == r;
      assert readings[0].addr != readings[k + 1].addr;
    }
  }

  lemma PollAgrees(a: Table, s: Table, readings: seq<Reading>, now: int)
    requires TablesAgree(a, s) && DistinctReadings(readings)
    ensures TablesAgree(Poll(a, readings, now, false), Poll(s, readings, now, true))
  {
    ClosingAgrees(a, s, readings, now);
    var ca, cs := CloseAll(a, readings, now), CloseAll(s, readings, now);
    RecordingAgrees(ca, ca, cs, cs, readings, now);
  }

  datatype Snapshot = Snapshot(readings: seq<Reading>, now: int)

  function PollAll(t: Table, polls: seq<Snapshot>, throttled: bool): Table
    decreases |polls|
  {
    if |polls| == 0 then t else PollAll(Poll(t, polls[0].readings, polls[0].now, throttled), polls[1..], throttled)
  }

  ghost predicate AllDistinct(polls: seq<Snapshot>) {
    forall i :: 0 <= i < |polls| ==> DistinctReadings(polls[i].readings)
  }

  // Over any sequence of polls the table with skipped writes is the table that
  // would have been written every time, up to the ping drift.
  lemma {:induction false} ThrottleRefinesAlwaysWriting(a: Table, s: Table, polls: seq<Snapshot>)
    requires TablesAgree(a, s) && AllDistinct(polls)
    ensures TablesAgree(PollAll(a, polls, false), PollAll(s, polls, true))
    decreases |polls|
  {
    if |polls| > 0 {
      PollAgrees(a, s, polls[0].readings, polls[0].now);
      assert AllDistinct(polls[1..]) by { assert forall i :: 0 <= i < |polls[1..]| ==> polls[1..][i] == polls[i + 1]; }
      ThrottleRefinesAlwaysWriting(Poll(a, polls[0].readings, polls[0].now, false),
                                   Poll(s, polls[0].readings, polls[0].now, true), polls[1..]);
    }
  }

  // ---- One open session per connected address -----------------------------------

  ghost predicate OneOpenEach(t: Table) {
    forall i, j :: 0 <= i < j < |t| && t[i].endedAt.None? && t[j].endedAt.None? ==> t[i].peer != t[j].peer
  }

  ghost predicate HasOpen(t: Table, addr: string) { exists i :: 0 <= i < |t| && t[i].peer == addr && t[i].endedAt.None? }

  ghost predicate Seen(readings: seq<Reading>, addr: string) { exists r :: r in readings && r.addr == addr }

  // After `done`: the rows read keep their address and end; the new ones are
  // open, for addresses that had no open row, one each.
  ghost predicate Partial(t: Table, read: Table, done: seq<Reading>) {
    && Prolongs(t, read)
    && (forall i :: |read| <= i < |t| ==> t[i].endedAt.None? && Seen(done, t[i].peer) && OpenAt(read, t[i].peer).None?)
    && (forall i, j :: |read| <= i < j < |t| ==> t[i].peer != t[j].peer)
    && (forall r :: r in done ==> HasOpen(t, r.addr))
  }

  ghost predicate Prolongs(t: Table, read: Table) {
    |read| <= |t| && forall i :: 0 <= i < |read| ==> t[i].peer == read[i].peer && t[i].endedAt == read[i].endedAt
  }

  lemma StillOpen(t: Table, u: Table, addr: string)
    requires HasOpen(t, addr) && |t| <= |u|
    requires forall i :: 0 <= i < |t| ==> u[i].peer == t[i].peer && u[i].endedAt == t[i].endedAt
    ensures HasOpen(u, addr)
  {
    var i :| 0 <= i < |t| && t[i].peer == addr && t[i].endedAt.None?;
    assert u[i].peer == addr;
  }

  lemma SeenStays(done: seq<Reading>, r: Reading)
    ensures Seen(done + [r], r.addr)
    ensures forall a :: Seen(done, a) ==> Seen(done + [r], a)
  {
    forall a | Seen(done, a) ensures Seen(done + [r], a) {
      var x :| x in done && x.addr == a;
      assert x in done + [r];
    }
    assert r in done + [r];
  }

  lemma RecordOneOpens(t: Table, read: Table, done: seq<Reading>, r: Reading, now: int, throttled: bool)
    requires Partial(t, read, done)
    ensures forall x :: x in done + [r] ==> HasOpen(RecordOne(t, read, r, now, throttled), x.addr)
  {
    var u := RecordOne(t, read, r, now, throttled);
    forall x | x in done ensures HasOpen(u, x.addr) { StillOpen(t, u, x.addr); }
    match OpenAt(read, r.addr)
    case Some(i) => assert u[i].peer == r.addr && u[i].endedAt.None?;
    case None => assert u[|t|].peer == r.addr && u[|t|].endedAt.None?;
  }

  lemma RecordOneKeepsEnds(t: Table, read: Table, r: Reading, now: int, throttled: bool)
    requires |read| <= |t|
    ensures var u := RecordOne(t, read, r, now, throttled);
      && Prolongs(u, t)
      && |u| == |t| + (if OpenAt(read, r.addr).None? then 1 else 0)
      && (OpenAt(read, r.addr).None? ==> u[|t|].peer == r.addr && u[|t|].endedAt.None?)
  {
  }

  lemma RecordOneIsPartial(t: Table, read: Table, done: seq<Reading>, r: Reading, now: int, throttled: bool)
    requires Partial(t, read, done) && !Seen(done, r.addr)
    ensures Partial(RecordOne(t, read, r, now, throttled), read, done + [r])
  {
    SeenStays(done, r);
    RecordOneOpens(t, read, done, r, now, throttled);
    RecordOneKeepsEnds(t, read, r, now, throttled);
    ProlongedIsPartial(t, RecordOne(t, read, r, now, throttled), read, done, r);
  }

  lemma ProlongedIsPartial(t: Table, u: Table, read: Table, done: seq<Reading>, r: Reading)
    requires Partial(t, read, done) && !Seen(done, r.addr) && Prolongs(u, t)
    requires |u| == |t| + (if OpenAt(read, r.addr).None? then 1 else 0)
    requires OpenAt(read, r.addr).None? ==> u[|t|].peer == r.addr && u[|t|].endedAt.None?
    requires Seen(done + [r], r.addr) && forall a :: Seen(done, a) ==> Seen(done + [r], a)
    requires forall x :: x in done + [r] ==> HasOpen(u, x.addr)
    ensures Partial(u, read, done + [r])
  {
  }

  lemma {:induction false} RecordAllIsPartial(t: Table, read: Table, done: seq<Reading>, rest: seq<Reading>, now: int,
                                              throttled: bool)
    requires Partial(t, read, done) && DistinctReadings(done + rest)
    ensures Partial(RecordAll(t, read, rest, now, throttled), read, done + rest)
    decreases |rest|
  {
    if rest == [] {
      assert done + rest == done;
    } else {
      var r, later := rest[0], rest[1..];
      assert done + rest == (done + [r]) + later;
      forall x | x in done ensures x.addr != r.addr {
        var k :| 0 <= k < |done| && done[k] == x;
        assert (done + rest)[k] == x && (done + rest)[|done|] == r;
      }
      RecordOneIsPartial(t, read, done, r, now, throttled);
      RecordAllIsPartial(RecordOne(t, read, r, now, throttled), read, done + [r], later, now, throttled);
    }
  }

  lemma PartialIsOneOpenEach(u: Table, read: Table, done: seq<Reading>)
    requires Partial(u, read, done) && OneOpenEach(read)
    ensures OneOpenEach(u)
  {
    forall i, j | 0 <= i < j < |u| && u[i].endedAt.None? && u[j].endedAt.None? ensures u[i].peer != u[j].peer {
      if j < |read| {
        assert read[i].peer != read[j].peer;
      } else if i < |read| {
        assert OpenAt(read, u[j].peer).None?;
      }
    }
  }

  lemma ClosingKeepsOneOpenEach(t: Table, readings: seq<Reading>, now: int)
    requires OneOpenEach(t)
    ensures OneOpenEach(CloseAll(t, readings, now))
    ensures forall i :: 0 <= i < |t| && CloseAll(t, readings, now)[i].endedAt.None? ==> Seen(readings, t[i].peer)
    ensures forall i :: 0 <= i < |t| ==> CloseAll(t, readings, now)[i].peer == t[i].peer
  {
    var closed := CloseAll(t, readings, now);
    forall i | 0 <= i < |t| ensures closed[i].peer == t[i].peer
      ensures closed[i].endedAt.None? ==> t[i].endedAt.None? && Seen(readings, t[i].peer)
    {
      assert closed[i] == CloseOne(t[i], readings, now);
    }
  }

  // After a poll of distinct addresses there is exactly one open session for
  // each connected address, and none for any other.
  lemma OneOpenSessionPerConnectedPeer(t: Table, readings: seq<Reading>, now: int, throttled: bool)
    requires OneOpenEach(t) && DistinctReadings(readings)
    ensures var u := Poll(t, readings, now, throttled);
      OneOpenEach(u) && forall addr :: HasOpen(u, addr) <==> Seen(readings, addr)
  {
    var closed := CloseAll(t, readings, now);
    var u := Poll(t, readings, now, throttled);
    assert [] + readings == readings;
    ClosingKeepsOneOpenEach(t, readings, now);
    RecordAllIsPartial(closed, closed, [], readings, now, throttled);
    PartialIsOneOpenEach(u, closed, readings);
    forall addr ensures HasOpen(u, addr) <==> Seen(readings, addr) { OpenIffSeen(u, closed, readings, addr); }
  }

  lemma OpenIffSeen(u: Table, closed: Table, readings: seq<Reading>, addr: string)
    requires Partial(u, closed, readings)
    requires forall i :: 0 <= i < |closed| && closed[i].endedAt.None? ==> Seen(readings, closed[i].peer)
    ensures HasOpen(u, addr) <==> Seen(readings, addr)
  {
    if HasOpen(u, addr) { var i :| 0 <= i < |u| && u[i].peer == addr && u[i].endedAt.None?; }
    if Seen(readings, addr) { var r :| r in readings && r.addr == addr; }
  }

  // A reconnect ends the old session no later than the new one starts exactly
  // when the reported start does not lie before the old session's own.
  lemma ReconnectLeavesNoOverlapIff(s: Session, readings: seq<Reading>, now: int)
    requires s.endedAt.None? && ReadingAt(readings, s.peer).Some?
    requires !IsSameSession(s, ReadingAt(readings, s.peer).value)
    ensures var r := ReadingAt(readings, s.peer).value; var ended := CloseOne(s, readings, now).endedAt;
      && ended.Some? && s.startedAt <= ended.value
      && (ended.value <= Fresh(r, now).startedAt <==> s.startedAt <= Fresh(r, now).startedAt)
  {
  }

  // ---- The lowest ping is a running minimum ----------------------------------------

  // What row i hears in a poll: its own session's reading, if it has one.
  ghost function HeardOnce(t: Table, i: nat, readings: seq<Reading>): Option<real>
    requires i < |t|
  {
    var r := ReadingAt(readings, t[i].peer);
    if t[i].endedAt.None? && r.Some? && IsSameSession(t[i], r.value) then r.value.minPing else None
  }

  lemma {:induction false} OpenAtIs(t: Table, i: nat)
    requires OneOpenEach(t) && i < |t| && t[i].endedAt.None?
    ensures OpenAt(t, t[i].peer) == Some(i)
    decreases |t|
  {
    var front := t[..|t| - 1];
    if i < |front| {
      assert front[i] == t[i] && t[|t| - 1].peer == t[i].peer ==> t[|t| - 1].endedAt.Some?;
      assert OneOpenEach(front);
      OpenAtIs(front, i);
    }
  }

  // What recording leaves in a row that was read.
  ghost function RowAfter(s: Session, readings: seq<Reading>, throttled: bool): Session {
    if s.endedAt.None? && ReadingAt(readings, s.peer).Some? then
      var u := UpdateOf(s, ReadingAt(readings, s.peer).value);
      if !throttled || NeedsWrite(s, u) then Written(s, u) else s
    else s
  }

  // Row i meets at most one of the readings.
  lemma {:induction false} RecordAllRow(t: Table, read: Table, readings: seq<Reading>, now: int, throttled: bool, i: nat)
    requires |read| <= |t| && i < |read| && DistinctReadings(readings) && OneOpenEach(read)
    requires t[i] == read[i]
    ensures var u := RecordAll(t, read, readings, now, throttled); |t| <= |u| && u[i] == RowAfter(read[i], readings, throttled)
    decreases |readings|
  {
    if |readings| > 0 {
      var front, last := readings[..|readings| - 1], readings[|readings| - 1];
      assert readings == front + [last];
      RecordAllLast(t, read, front, last, now, throttled);
      RecordAllRow(t, read, front, now, throttled, i);
      LastAtRow(RecordAll(t, read, front, now, throttled), read, front, last, now, throttled, i);
    }
  }

  lemma ReadingAtEnd(front: seq<Reading>, last: Reading, addr: string)
    ensures ReadingAt(front + [last], addr) == if last.addr == addr then Some(last) else ReadingAt(front, addr)
  {
    assert (front + [last])[..|front|] == front;
  }

  lemma LastAtRow(t: Table, read: Table, front: seq<Reading>, last: Reading, now: int, throttled: bool, i: nat)
    requires |read| <= |t| && i < |read| && DistinctReadings(front + [last]) && OneOpenEach(read)
    requires t[i] == RowAfter(read[i], front, throttled)
    ensures var u := RecordOne(t, read, last, now, throttled);
      |t| <= |u| && u[i] == RowAfter(read[i], front + [last], throttled)
  {
    ReadingAtEnd(front, last, read[i].peer);
    if last.addr == read[i].peer {
      ReadingAtNone(front, last);
      if read[i].endedAt.None? { OpenAtIs(read, i); }
      OwnReading(t, read, last, now, throttled, i);
    } else {
      assert OpenAt(read, last.addr) != Some(i);
      OtherReading(t, read, last, now, throttled, i);
    }
  }

  lemma OtherReading(t: Table, read: Table, r: Reading, now: int, throttled: bool, i: nat)
    requires |read| <= |t| && i < |read| && OpenAt(read, r.addr) != Some(i)
    ensures var u := RecordOne(t, read, r, now, throttled); |t| <= |u| && u[i] == t[i]
  {
  }

  lemma OwnReading(t: Table, read: Table, r: Reading, now: int, throttled: bool, i: nat)
    requires |read| <= |t| && i < |read| && r.addr == read[i].peer && t[i] == read[i]
    requires read[i].endedAt.None? ==> OpenAt(read, r.addr) == Some(i)
    ensures var u := RecordOne(t, read, r, now, throttled); var next := UpdateOf(read[i], r);
      |t| <= |u| && u[i] == if read[i].endedAt.None? && (!throttled || NeedsWrite(read[i], next)) then Written(read[i], next) else read[i]
  {
  }

  lemma RecordAllAtRow(t: Table, read: Table, readings: seq<Reading>, now: int, throttled: bool, i: nat)
    requires |read| <= |t| && i < |read| && DistinctReadings(readings) && OneOpenEach(read)
    requires t[i] == read[i]
    ensures var u := RecordAll(t, read, readings, now, throttled);
      && |t| <= |u|
      && u[i].minPing == (if read[i].endedAt.None? && ReadingAt(readings, read[i].peer).Some?
                          then LowerOf(ReadingAt(readings, read[i].peer).value.minPing, read[i].minPing) else read[i].minPing)
  {
    RecordAllRow(t, read, readings, now, throttled, i);
  }

  lemma ReadingAtNone(front: seq<Reading>, last: Reading)
    requires DistinctReadings(front + [last])
    ensures ReadingAt(front, last.addr).None?
  {
    forall x | x in front ensures x.addr != last.addr {
      var k :| 0 <= k < |front| && front[k] == x;
      assert (front + [last])[k] == x && (front + [last])[|front|] == last;
    }
  }

  lemma {:induction false} RecordAllLast(t: Table, read: Table, front: seq<Reading>, last: Reading, now: int, throttled: bool)
    requires |read| <= |t|
    ensures |read| <= |RecordAll(t, read, front, now, throttled)|
    ensures RecordAll(t, read, front + [last], now, throttled) ==
            RecordOne(RecordAll(t, read, front, now, throttled), read, last, now, throttled)
    decreases |front|
  {
    if front == [] {
      assert front + [last] == [last];
      assert RecordAll(t, read, [last], now, throttled) == RecordOne(t, read, last, now, throttled);
    } else {
      assert (front + [last])[1..] == front[1..] + [last];
      RecordAllLast(RecordOne(t, read, front[0], now, throttled), read, front[1..], last, now, throttled);
    }
  }

  lemma PollAtRow(t: Table, readings: seq<Reading>, now: int, throttled: bool, i: nat)
    requires OneOpenEach(t) && DistinctReadings(readings) && i < |t|
    ensures var u := Poll(t, readings, now, throttled);
      && |t| <= |u|
      && u[i].minPing == LowerOf(HeardOnce(t, i, readings), t[i].minPing)
  {
    var closed := CloseAll(t, readings, now);
    ClosingKeepsOneOpenEach(t, readings, now);
    assert closed[i] == CloseOne(t[i], readings, now);
    RecordAllAtRow(closed, closed, readings, now, throttled, i);
  }

  // The lowest ping ever heard from row i's own session along the polls.
  ghost function LowestHeard(t: Table, polls: seq<Snapshot>, throttled: bool, i: nat): Option<real>
    requires i < |t|
    decreases |polls|
  {
    if |polls| == 0 then None
    else
      var u := Poll(t, polls[0].readings, polls[0].now, throttled);
      var once := HeardOnce(t, i, polls[0].readings);
      if i < |u| then LowerOf(LowestHeard(u, polls[1..], throttled, i), once) else once
  }

  lemma LowerOfAssociates(a: Option<real>, b: Option<real>, c: Option<real>)
    ensures LowerOf(a, LowerOf(b, c)) == LowerOf(LowerOf(a, b), c)
  {
  }

  lemma {:induction false} MinPingIsARunningMinimum(t: Table, polls: seq<Snapshot>, throttled: bool, i: nat)
    requires OneOpenEach(t) && AllDistinct(polls) && i < |t|
    ensures var u := PollAll(t, polls, throttled);
      i < |u| && u[i].minPing == LowerOf(LowestHeard(t, polls, throttled, i), t[i].minPing)
    decreases |polls|
  {
    if |polls| > 0 {
      var p, rest := polls[0], polls[1..];
      assert AllDistinct(rest) by { assert forall k :: 0 <= k < |rest| ==> rest[k] == polls[k + 1]; }
      assert DistinctReadings(p.readings);
      PollAtRow(t, p.readings, p.now, throttled, i);
      OneOpenSessionPerConnectedPeer(t, p.readings, p.now, throttled);
      var u := Poll(t, p.readings, p.now, throttled);
      MinPingIsARunningMinimum(u, rest, throttled, i);
      LowerOfAssociates(LowestHeard(u, rest, throttled, i), HeardOnce(t, i, p.readings), t[i].minPing);
    }
  }

  // ---- One poll, column by column ---------------------------------------------------

  // The same connection: Core's id decides where both are known, and otherwise it
  // must not have been set up more than a second after the session started.
  ghost predicate Continues(s: Session, r: Reading) {
    if s.link.coreId.Some? && r.id.Some? then s.link.coreId.value == r.id.value
    else r.conntime.Some? ==> r.conntime.value * 1000 - s.startedAt <= 1000
  }

  ghost predicate Lowest(m: Option<real>, a: Option<real>, b: Option<real>) {
    && (m.None? <==> a.None? && b.None?) && (m.Some? ==> m == a || m == b)
    && (m.Some? && a.Some? ==> m.value <= a.value) && (m.Some? && b.Some? ==> m.value <= b.value)
  }

  ghost predicate Takes<T(!new)>(now: Option<T>, reported: Option<T>, was: Option<T>) {
    now == if reported.Some? then reported else was
  }

  ghost predicate ShowsLink(link: Link, r: Reading) {
    && link.coreId == r.id && link.network == r.network && link.subver == r.subver
    && link.direction == (if r.inbound then "inbound" else "outbound")
    && link.connectionType ==
         (if r.connectionType.Some? then r.connectionType.value else if r.inbound then "inbound" else "unknown")
  }

  // The session goes on, with what was reported; the last ping within 5 ms.
  ghost predicate GoesOn(s: Session, u: Session, r: Reading) {
    && u.peer == s.peer && u.startedAt == s.startedAt && u.endedAt.None?
    && ShowsLink(u.link, r)
    && Lowest(u.minPing, r.minPing, s.minPing)
    && (if r.lastPing.Some? then u.lastPing.Some? && -5.0 < u.lastPing.value - r.lastPing.value < 5.0
        else u.lastPing == s.lastPing)
    && Takes(u.extras.services, r.extras.services, s.extras.services)
    && Takes(u.extras.relayTxes, r.extras.relayTxes, s.extras.relayTxes)
    && Takes(u.extras.syncedHeaders, r.extras.syncedHeaders, s.extras.syncedHeaders)
    && Takes(u.extras.hbTo, r.extras.hbTo, s.extras.hbTo)
    && Takes(u.extras.hbFrom, r.extras.hbFrom, s.extras.hbFrom)
  }

  // It ends with the start of the connection that replaced it, but neither before
  // its own start nor in the future.
  ghost predicate EndsAt(s: Session, u: Session, start: int, now: int) {
    && u == s.(endedAt := u.endedAt) && u.endedAt.Some?
    && u.endedAt.value >= s.startedAt && (u.endedAt.value <= now || u.endedAt.value == s.startedAt)
    && (s.startedAt <= start <= now ==> u.endedAt.value == start)
    && (s.startedAt <= now < start ==> u.endedAt.value == now)
  }

  ghost predicate PolledRow(s: Session, u: Session, readings: seq<Reading>, now: int) {
    && (s.endedAt.Some? ==> u == s)
    && (s.endedAt.None? && !Seen(readings, s.peer) ==> u == s.(endedAt := Some(now)))
    && (forall r :: r in readings && r.addr == s.peer && s.endedAt.None? ==>
          if Continues(s, r) then GoesOn(s, u, r)
          else EndsAt(s, u, if r.conntime.Some? then r.conntime.value * 1000 else now, now))
  }

  ghost predicate IsNewSession(u: Session, r: Reading, now: int) {
    && u.peer == r.addr && u.endedAt.None? && ShowsLink(u.link, r) && u.extras == r.extras
    && u.minPing == r.minPing && u.lastPing == r.lastPing
    && u.startedAt == if r.conntime.Some? then r.conntime.value * 1000 else now
  }

  ghost predicate IsNewFor(u: Session, readings: seq<Reading>, now: int) {
    exists r :: r in readings && IsNewSession(u, r, now)
  }

  lemma TheReading(readings: seq<Reading>, r: Reading)
    requires DistinctReadings(readings) && r in readings
    ensures ReadingAt(readings, r.addr) == Some(r)
  {
    var x := ReadingAt(readings, r.addr).value;
    var i :| 0 <= i < |readings| && readings[i] == r;
    var j :| 0 <= j < |readings| && readings[j] == x;
    assert i == j;
  }

  lemma UpdateGoesOn(s: Session, r: Reading)
    requires s.endedAt.None?
    ensures GoesOn(s, Written(s, UpdateOf(s, r)), r)
    ensures !NeedsWrite(s, UpdateOf(s, r)) ==> GoesOn(s, s, r)
  {
  }

  lemma RowIsPolled(s: Session, readings: seq<Reading>, now: int)
    requires DistinctReadings(readings)
    ensures PolledRow(s, RowAfter(CloseOne(s, readings, now), readings, true), readings, now)
  {
    forall r | r in readings && r.addr == s.peer && s.endedAt.None?
      ensures var u := RowAfter(CloseOne(s, readings, now), readings, true);
        if Continues(s, r) then GoesOn(s, u, r)
        else EndsAt(s, u, if r.conntime.Some? then r.conntime.value * 1000 else now, now)
    {
      TheReading(readings, r);
      UpdateGoesOn(s, r);
    }
  }

  lemma {:induction false} RecordAllNew(t: Table, read: Table, done: seq<Reading>, rest: seq<Reading>, now: int, throttled: bool)
    requires |read| <= |t| && forall i :: |read| <= i < |t| ==> IsNewFor(t[i], done, now)
    ensures var u := RecordAll(t, read, rest, now, throttled);
      |read| <= |u| && forall i :: |read| <= i < |u| ==> IsNewFor(u[i], done + rest, now)
    decreases |rest|
  {
    if rest == [] {
      assert done + rest == done;
    } else {
      var r, later := rest[0], rest[1..];
      var u := RecordOne(t, read, r, now, throttled);
      assert done + rest == (done + [r]) + later;
      forall i | |read| <= i < |u| ensures IsNewFor(u[i], done + [r], now) {
        if i < |t| {
          assert u[i] == t[i];
          NewForMore(t[i], done, r, now);
        } else {
          assert IsNewSession(u[i], r, now) && r in done + [r];
        }
      }
      RecordAllNew(u, read, done + [r], later, now, throttled);
    }
  }

  lemma NewForMore(u: Session, done: seq<Reading>, r: Reading, now: int)
    requires IsNewFor(u, done, now)
    ensures IsNewFor(u, done + [r], now)
  {
    var x :| x in done && IsNewSession(u, x, now);
    assert x in done + [r];
  }

  // A poll of distinct addresses over a table with one open row an address: every
  // row there was goes on, ends or stays as it is, every new one is a new
  // connection's, and there is an open one for each address and no other.
  ghost predicate Polled(t: Table, u: Table, readings: seq<Reading>, now: int) {
    && |t| <= |u|
    && (forall i :: 0 <= i < |t| ==> PolledRow(t[i], u[i], readings, now))
    && (forall i :: |t| <= i < |u| ==> IsNewFor(u[i], readings, now))
    && OneOpenEach(u) && forall addr :: HasOpen(u, addr) <==> Seen(readings, addr)
  }

  lemma PollPolls(t: Table, readings: seq<Reading>, now: int)
    requires OneOpenEach(t) && DistinctReadings(readings)
    ensures Polled(t, Poll(t, readings, now, true), readings, now)
  {
    var closed, u := CloseAll(t, readings, now), Poll(t, readings, now, true);
    OneOpenSessionPerConnectedPeer(t, readings, now, true);
    ClosingKeepsOneOpenEach(t, readings, now);
    assert [] + readings == readings;
    RecordAllNew(closed, closed, [], readings, now, true);
    forall i | 0 <= i < |t| ensures PolledRow(t[i], u[i], readings, now) {
      RecordAllRow(closed, closed, readings, now, true, i);
      RowIsPolled(t[i], readings, now);
    }
  }

  // ---- The worker ----------------------------------------------------------------

  class Profiler {
    var rows: Table

    constructor ()
      ensures rows == []
    {
      rows := [];
    }

    method UpsertSessions(readings: seq<Reading>, now: int)
      modifies this
      ensures rows == Poll(old(rows), readings, now, true)
      ensures OneOpenEach(old(rows)) && DistinctReadings(readings) ==> Polled(old(rows), rows, readings, now)
    {
      if OneOpenEach(rows) && DistinctReadings(readings) { PollPolls(rows, readings, now); }
      CloseGoneSessions(readings, now);
      RecordReadings(readings, now);
    }

    // The first transaction: end what is gone or has reconnected.
    method CloseGoneSessions(readings: seq<Reading>, now: int)
      modifies this
      ensures rows == CloseAll(old(rows), readings, now)
    {
      ghost var was := rows;
      var i := 0;
      while i < |rows|
        invariant 0 <= i <= |rows| == |was|
        invariant forall k :: 0 <= k < i ==> rows[k] == CloseOne(was[k], readings, now)
        invariant forall k :: i <= k < |rows| ==> rows[k] == was[k]
      {
        var s := rows[i];
        if s.endedAt.None? {
          var r := ReadingAt(readings, s.peer);
          if r.None? {
            rows := rows[i := s.(endedAt := Some(now))];
          } else if !IsSameSession(s, r.value) {
            var endedAt := StartOf(r.value, now);
            rows := rows[i := s.(endedAt := Some(MaxInt(s.startedAt, MinInt(endedAt, now))))];
          }
        }
        i := i + 1;
      }
    }

    // The second: update what is open, insert what is new.
    method RecordReadings(readings: seq<Reading>, now: int)
      modifies this
      ensures rows == RecordAll(old(rows), old(rows), readings, now, true)
    {
      var read := rows;
      var i := 0;
      while i < |readings|
        invariant 0 <= i <= |readings| && |read| <= |rows|
        invariant RecordAll(read, read, readings, now, true) == RecordAll(rows, read, readings[i..], now, true)
      {
        var r := readings[i];
        assert readings[i..][1..] == readings[i + 1..];
        var stored := OpenAt(read, r.addr);
        if stored.Some? {
          var next := UpdateOf(read[stored.value], r);
          if NeedsWrite(read[stored.value], next) {
            rows := rows[stored.value := Written(rows[stored.value], next)];
          }
        } else {
          rows := rows + [Fresh(r, now)];
        }
        i := i + 1;
      }
    }
  }
}
