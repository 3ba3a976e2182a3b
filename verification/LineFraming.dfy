/**
 * src/lib/stratum-client.js: cutting a byte stream into lines, whatever chunks
 * it arrives in, and the first job of each connection.
 *
 * A stream is kept as characters that remember when they arrived, so that a
 * line carries the time its newline came in. JSON.parse is a parameter.
 */
module LineFraming {
  import opened Wrappers
  import opened Text
  import Prevhash

  const MAX_STRATUM_LINE_BYTES := 128 * 1024

  datatype Arrived = Arrived(c: char, at: int)
  datatype Line = Line(text: string, at: int)

  function Stamp(text: string, at: int): (s: seq<Arrived>)
    ensures |s| == |text|
  {
    seq(|text|, i requires 0 <= i < |text| => Arrived(text[i], at))
  }

  function Chars(s: seq<Arrived>): (text: string)
    ensures |text| == |s|
  {
    seq(|s|, i requires 0 <= i < |s| => s[i].c)
  }

  // The first newline, or the length when there is none.
  function Newline(s: seq<Arrived>): (i: nat)
    ensures i <= |s|
  {
    if |s| == 0 || s[0].c == '\n' then 0 else 1 + Newline(s[1..])
  }

  predicate IsNewline(s: seq<Arrived>, i: nat) {
    i <= |s| && (i < |s| ==> s[i].c == '\n') && forall k :: 0 <= k < i ==> s[k].c != '\n'
  }

  lemma {:induction false} NewlineIs(s: seq<Arrived>, i: nat)
    requires IsNewline(s, i)
    ensures Newline(s) == i
  {
    if i > 0 {
      assert s[0].c != '\n';
      NewlineIs(s[1..], i - 1);
    }
  }

  lemma {:induction false} NewlineFound(s: seq<Arrived>)
    ensures IsNewline(s, Newline(s))
  {
    if |s| > 0 && s[0].c != '\n' {
      NewlineFound(s[1..]);
      assert forall k :: 1 <= k < Newline(s) ==> s[k] == s[1..][k - 1];
    }
  }

  // What the stream says: its non-empty trimmed lines in order, each with the
  // arrival time of its newline, and the text behind the last newline.
  function Lines(s: seq<Arrived>): seq<Line>
    decreases |s|
  {
    var i := Newline(s);
    if i == |s| then [] else AsLine(s, i) + Lines(s[i + 1..])
  }

  function AsLine(s: seq<Arrived>, i: nat): seq<Line>
    requires i < |s|
  {
    LineOf(Chars(s[..i]), s[i].at)
  }

  function LineOf(text: string, at: int): seq<Line> {
    var line := Trim(text);
    if line == "" then [] else [Line(line, at)]
  }

  function Rest(s: seq<Arrived>): seq<Arrived>
    decreases |s|
  {
    var i := Newline(s);
    if i == |s| then s else Rest(s[i + 1..])
  }

  function Width(c: char): nat {
    if c < '\U{0080}' then 1 else if c < '\U{0800}' then 2 else if c < '\U{10000}' then 3 else 4
  }

  function ByteLength(s: string): nat {
    if s == "" then 0 else ByteLength(s[..|s| - 1]) + Width(s[|s| - 1])
  }

  // ---- Messages ----------------------------------------------------------------------

  datatype Json =
    | Null
    | Bool(b: bool)
    | Num(n: real)
    | Str(s: string)
    | Arr(items: seq<Json>)
    | Obj(fields: map<string, Json>)

  function Field(msg: Json, name: string): Option<Json> {
    if msg.Obj? && name in msg.fields then Some(msg.fields[name]) else None
  }

  // JavaScript's Boolean(); an absent field is undefined, hence false.
  predicate Truthy(v: Option<Json>) {
    v.Some? &&
    match v.value
    case Null => false
    case Bool(b) => b
    case Num(n) => n != 0.0
    case Str(s) => s != ""
    case Arr(_) => true
    case Obj(_) => true
  }

  predicate IsNotify(msg: Json) {
    && Field(msg, "method") == Some(Str("mining.notify"))
    && Field(msg, "params").Some?
    && Field(msg, "params").value.Arr?
    && |Field(msg, "params").value.items| >= 9
  }

  datatype Event =
    | Connected
    | Notify(prevhash: string, cleanJobs: bool, at: int, firstAfterConnect: bool)
    | AuthorizeResult(ok: bool)
    | UnusablePrevhash
    | LineTooLong

  datatype View = View(buffer: string, notifyCount: nat, authorized: Option<bool>, emitted: seq<Event>)

  const CREATED := View("", 0, None, [])

  type Parser = string -> Option<Json>

  function HandleLine(parse: Parser, v: View, line: Line): View {
    var parsed := parse(line.text);
    if parsed.None? then v else
    var msg := parsed.value;
    if IsNotify(msg) then
      var params := Field(msg, "params").value.items;
      if params[1].Str? && Prevhash.IsHash(params[1].s) then
        v.(notifyCount := v.notifyCount + 1,
           emitted := v.emitted + [Notify(params[1].s, Truthy(Some(params[8])), line.at, v.notifyCount == 0)])
      else v.(emitted := v.emitted + [UnusablePrevhash])
    else if Field(msg, "id") == Some(Num(2.0)) then
      var ok := Truthy(Field(msg, "result"));
      v.(authorized := Some(ok), emitted := v.emitted + [AuthorizeResult(ok)])
    else v
  }

  // mining.notify with at least nine parameters, the second of them 64 hex digits.
  ghost predicate SaysJob(msg: Json, h: string, clean: bool) {
    && msg.Obj? && "method" in msg.fields && msg.fields["method"] == Str("mining.notify")
    && "params" in msg.fields && msg.fields["params"].Arr?
    && var items := msg.fields["params"].items;
       |items| >= 9 && items[1] == Str(h) && Prevhash.IsHash(h) && |h| == 64
       && (clean <==> IsTrue(items[8]))
  }

  ghost predicate IsTrue(v: Json) { v != Null && v != Bool(false) && v != Num(0.0) && v != Str("") }

  ghost predicate SaysAuthorized(msg: Json, ok: bool) {
    && msg.Obj? && "id" in msg.fields && msg.fields["id"] == Num(2.0)
    && !("method" in msg.fields && msg.fields["method"] == Str("mining.notify") && "params" in msg.fields
         && msg.fields["params"].Arr? && |msg.fields["params"].items| >= 9)
    && (ok <==> "result" in msg.fields && IsTrue(msg.fields["result"]))
  }

  lemma AnswersAreHandled(parse: Parser, v: View, line: Line)
    ensures var w := HandleLine(parse, v, line);
      && (forall msg, ok :: parse(line.text) == Some(msg) && SaysAuthorized(msg, ok) ==>
            w == v.(authorized := Some(ok), emitted := v.emitted + [AuthorizeResult(ok)]))
      && ((forall msg, ok :: parse(line.text) == Some(msg) ==> !SaysAuthorized(msg, ok)) ==> w.authorized == v.authorized)
  {
    if parse(line.text).Some? {
      var msg := parse(line.text).value;
      assert Field(msg, "id") == Some(Num(2.0)) && !IsNotify(msg) ==> SaysAuthorized(msg, Truthy(Field(msg, "result")));
    }
  }

  lemma JobsAreHandled(parse: Parser, v: View, line: Line)
    ensures var w := HandleLine(parse, v, line);
      && w.buffer == v.buffer
      && (forall msg, h, clean :: parse(line.text) == Some(msg) && SaysJob(msg, h, clean) ==>
            w == v.(notifyCount := v.notifyCount + 1, emitted := v.emitted + [Notify(h, clean, line.at, v.notifyCount == 0)]))
      && ((forall msg, h, clean :: parse(line.text) == Some(msg) ==> !SaysJob(msg, h, clean)) ==>
            w.notifyCount == v.notifyCount
            && (w.emitted == v.emitted || exists e: Event :: !e.Notify? && w.emitted == v.emitted + [e]))
  {
    var w, parsed := HandleLine(parse, v, line), parse(line.text);
    if parsed.Some? {
      var msg := parsed.value;
      if IsNotify(msg) {
        var items := msg.fields["params"].items;
        if items[1].Str? && Prevhash.IsHash(items[1].s) {
          assert SaysJob(msg, items[1].s, Truthy(Some(items[8])));
        } else {
          assert w.emitted == v.emitted + [UnusablePrevhash];
        }
      } else if Field(msg, "id") == Some(Num(2.0)) {
        assert w.emitted == v.emitted + [AuthorizeResult(Truthy(Field(msg, "result")))];
      }
    }
  }

  function HandleAll(parse: Parser, v: View, lines: seq<Line>): View
    decreases |lines|
  {
    if |lines| == 0 then v else HandleAll(parse, HandleLine(parse, v, lines[0]), lines[1..])
  }

  datatype Chunk = Chunk(text: string, at: int)

  function Guard(v: View): View {
    if ByteLength(v.buffer) > MAX_STRATUM_LINE_BYTES
    then v.(buffer := "", emitted := v.emitted + [LineTooLong])
    else v
  }

  function Feed(parse: Parser, v: View, chunk: Chunk): View {
    var s := Stamp(v.buffer + chunk.text, chunk.at);
    Guard(Ends(parse, v, s))
  }

  function Connect(v: View): View {
    View("", 0, None, v.emitted + [Connected])
  }

  class StratumPoolConnection {
    const parse: Parser
    var buffer: string
    var notifyCount: nat
    var authorized: Option<bool>
    var emitted: seq<Event>

    function State(): View
      reads this
    {
      View(buffer, notifyCount, authorized, emitted)
    }

    constructor (parse: Parser)
      ensures State() == CREATED && this.parse == parse
    {
      this.parse := parse;
      buffer, notifyCount, authorized, emitted := "", 0, None, [];
    }

    method OnConnect()
      modifies this
      ensures State() == Connect(old(State()))
    {
      buffer, notifyCount, authorized := "", 0, None;
      emitted := emitted + [Connected];
    }

    method OnLine(line: string, at: int)
      modifies this
      ensures State() == HandleLine(parse, old(State()), Line(line, at))
      // A job with a hash in it is passed on, the first of the connection flagged;
      // nothing else counts as one.
      ensures forall msg, h, clean :: parse(line) == Some(msg) && SaysJob(msg, h, clean) ==>
        && notifyCount == old(notifyCount) + 1 && authorized == old(authorized)
        && emitted == old(emitted) + [Notify(h, clean, at, old(notifyCount) == 0)]
      ensures (forall msg, h, clean :: parse(line) == Some(msg) ==> !SaysJob(msg, h, clean)) ==>
        && notifyCount == old(notifyCount)
        && (emitted == old(emitted) || exists e: Event :: !e.Notify? && emitted == old(emitted) + [e])
      // The answer to the second request says whether the pool accepted us.
      ensures forall msg, ok :: parse(line) == Some(msg) && SaysAuthorized(msg, ok) ==>
        authorized == Some(ok) && emitted == old(emitted) + [AuthorizeResult(ok)]
      ensures (forall msg, ok :: parse(line) == Some(msg) ==> !SaysAuthorized(msg, ok)) ==> authorized == old(authorized)
      ensures buffer == old(buffer)
    {
      JobsAreHandled(parse, State(), Line(line, at));
      AnswersAreHandled(parse, State(), Line(line, at));
      var parsed := parse(line);
      if parsed.None? { return; }
      var msg := parsed.value;
      if IsNotify(msg) {
        var params := msg.fields["params"].items;
        if !params[1].Str? || !Prevhash.IsHash(params[1].s) {
          emitted := emitted + [UnusablePrevhash];
          return;
        }
        notifyCount := notifyCount + 1;
        emitted := emitted + [Notify(params[1].s, Truthy(Some(params[8])), at, notifyCount == 1)];
        return;
      }
      if Field(msg, "id") == Some(Num(2.0)) {
        authorized := Some(Truthy(Field(msg, "result")));
        emitted := emitted + [AuthorizeResult(authorized.value)];
      }
    }

    method OnChunk(chunk: Chunk)
      modifies this
      ensures State() == Feed(parse, old(State()), chunk)
    {
      TakeLines(buffer + chunk.text, chunk.at);
      if ByteLength(buffer) > MAX_STRATUM_LINE_BYTES {
        buffer := "";
        emitted := emitted + [LineTooLong];
      }
    }

    method TakeLines(text: string, at: int)
      modifies this
      ensures State() == Ends(parse, old(State()), Stamp(text, at))
    {
      ghost var before := State();
      buffer := text;
      EndsIgnoresBuffer(parse, before, text, Stamp(text, at));
      while IndexOfNewline(buffer) < |buffer|
        invariant Ends(parse, State(), Stamp(buffer, at)) == Ends(parse, before, Stamp(text, at))
        decreases |buffer|
      {
        LineTaken(parse, State(), at);
        TakeLine(IndexOfNewline(buffer), at);
      }
      NoNewlineLeft(parse, State(), buffer, at);
    }

    method TakeLine(idx: nat, at: int)
      requires idx == IndexOfNewline(buffer) < |buffer|
      modifies this
      ensures State() == Taken(parse, old(State()), at)
    {
      ghost var before := State();
      var line := Trim(buffer[..idx]);
      buffer := buffer[idx + 1..];
      KeepsBuffer(parse, before, buffer, Line(line, at));
      if line != "" { OnLine(line, at); }
    }
  }

  // One turn of the loop: the first line of the buffer is taken off and handled.
  function Taken(parse: Parser, v: View, at: int): (r: View)
    requires IndexOfNewline(v.buffer) < |v.buffer|
    ensures |r.buffer| < |v.buffer|
  {
    var idx := IndexOfNewline(v.buffer);
    var line := Trim(v.buffer[..idx]);
    (if line == "" then v else HandleLine(parse, v, Line(line, at))).(buffer := v.buffer[idx + 1..])
  }

  function IndexOfNewline(text: string): (i: nat)
    ensures i <= |text|
  {
    if |text| == 0 || text[0] == '\n' then 0 else 1 + IndexOfNewline(text[1..])
  }

  lemma {:induction false} IndexOfNewlineFound(text: string)
    ensures var i := IndexOfNewline(text);
            (i < |text| ==> text[i] == '\n') && forall k :: 0 <= k < i ==> text[k] != '\n'
  {
    if |text| > 0 && text[0] != '\n' {
      IndexOfNewlineFound(text[1..]);
      assert forall k :: 1 <= k < IndexOfNewline(text) ==> text[k] == text[1..][k - 1];
    }
  }

  // What is left to do, done: the lines in s handled, the remainder kept.
  function Ends(parse: Parser, v: View, s: seq<Arrived>): View {
    HandleAll(parse, v, Lines(s)).(buffer := Chars(Rest(s)))
  }

  lemma KeepsBuffer(parse: Parser, v: View, b: string, line: Line)
    ensures HandleLine(parse, v.(buffer := b), line) == HandleLine(parse, v, line).(buffer := b)
  {
  }

  lemma {:induction false} AllKeepBuffer(parse: Parser, v: View, b: string, lines: seq<Line>)
    ensures HandleAll(parse, v.(buffer := b), lines) == HandleAll(parse, v, lines).(buffer := b)
    decreases |lines|
  {
    if |lines| > 0 {
      KeepsBuffer(parse, v, b, lines[0]);
      AllKeepBuffer(parse, HandleLine(parse, v, lines[0]), b, lines[1..]);
    }
  }

  lemma EndsIgnoresBuffer(parse: Parser, v: View, b: string, s: seq<Arrived>)
    ensures Ends(parse, v.(buffer := b), s) == Ends(parse, v, s)
  {
    AllKeepBuffer(parse, v, b, Lines(s));
  }

  lemma NewlineStamped(text: string, at: int)
    ensures Newline(Stamp(text, at)) == IndexOfNewline(text)
  {
    var s := Stamp(text, at);
    IndexOfNewlineFound(text);
    assert forall k :: 0 <= k < |text| ==> s[k].c == text[k];
    NewlineIs(s, IndexOfNewline(text));
  }

  lemma LineTaken(parse: Parser, v: View, at: int)
    requires IndexOfNewline(v.buffer) < |v.buffer|
    ensures Ends(parse, Taken(parse, v, at), Stamp(Taken(parse, v, at).buffer, at)) == Ends(parse, v, Stamp(v.buffer, at))
  {
    var idx := IndexOfNewline(v.buffer);
    var rest := v.buffer[idx + 1..];
    var handled := HandleAll(parse, v, AsLine(Stamp(v.buffer, at), idx));
    TakenIsHandled(parse, v, at);
    EndsIgnoresBuffer(parse, handled, rest, Stamp(rest, at));
    FirstLineFirstStamped(parse, v, v.buffer, at);
  }

  lemma FirstLineFirstStamped(parse: Parser, v: View, text: string, at: int)
    requires IndexOfNewline(text) < |text|
    ensures var i, s := IndexOfNewline(text), Stamp(text, at);
            Ends(parse, v, s) == Ends(parse, HandleAll(parse, v, AsLine(s, i)), Stamp(text[i + 1..], at))
  {
    NewlineStamped(text, at);
    StampedTail(text, at, IndexOfNewline(text));
    FirstLineFirst(parse, v, Stamp(text, at));
  }

  lemma TakenIsHandled(parse: Parser, v: View, at: int)
    requires IndexOfNewline(v.buffer) < |v.buffer|
    ensures var idx := IndexOfNewline(v.buffer);
            Taken(parse, v, at) == HandleAll(parse, v, AsLine(Stamp(v.buffer, at), idx)).(buffer := v.buffer[idx + 1..])
  {
    var idx := IndexOfNewline(v.buffer);
    StampedLine(v.buffer, at, idx);
    var line := Trim(v.buffer[..idx]);
    if line != "" {
      assert HandleAll(parse, v, [Line(line, at)]) == HandleAll(parse, HandleLine(parse, v, Line(line, at)), []);
    }
  }

  lemma StampedTail(text: string, at: int, i: nat)
    requires i < |text|
    ensures Stamp(text, at)[i + 1..] == Stamp(text[i + 1..], at)
  {
  }

  lemma StampedLine(text: string, at: int, i: nat)
    requires i < |text|
    ensures AsLine(Stamp(text, at), i) == LineOf(text[..i], at)
  {
    assert Chars(Stamp(text, at)[..i]) == text[..i];
  }

  lemma FirstLineFirst(parse: Parser, v: View, s: seq<Arrived>)
    requires Newline(s) < |s|
    ensures var i := Newline(s);
            var line := AsLine(s, i);
            Ends(parse, v, s) == Ends(parse, HandleAll(parse, v, line), s[i + 1..])
  {
    HandleBoth(parse, v, AsLine(s, Newline(s)), Lines(s[Newline(s) + 1..]));
  }

  lemma {:induction false} HandleBoth(parse: Parser, v: View, a: seq<Line>, b: seq<Line>)
    ensures HandleAll(parse, v, a + b) == HandleAll(parse, HandleAll(parse, v, a), b)
    decreases |a|
  {
    if |a| == 0 {
      assert a + b == b;
    } else {
      assert (a + b)[1..] == a[1..] + b;
      HandleBoth(parse, HandleLine(parse, v, a[0]), a[1..], b);
    }
  }

  lemma NoNewlineLeft(parse: Parser, v: View, text: string, at: int)
    requires IndexOfNewline(text) == |text| && v.buffer == text
    ensures Ends(parse, v, Stamp(text, at)) == v
  {
    NewlineStamped(text, at);
    assert Chars(Stamp(text, at)) == text;
  }

  // ---- Any cut, the same lines -------------------------------------------------------

  function Run(parse: Parser, v: View, chunks: seq<Chunk>): View {
    if |chunks| == 0 then v else Feed(parse, Run(parse, v, chunks[..|chunks| - 1]), chunks[|chunks| - 1])
  }

  function Arrivals(chunks: seq<Chunk>): seq<Arrived> {
    if |chunks| == 0 then []
    else Arrivals(chunks[..|chunks| - 1]) + Stamp(chunks[|chunks| - 1].text, chunks[|chunks| - 1].at)
  }

  predicate FitsAt(s: seq<Arrived>, n: nat)
    requires n <= |s|
  {
    ByteLength(Chars(Rest(s[..n]))) <= 131072
  }

  // No unterminated stretch of the stream ever exceeds the limit.
  ghost predicate Fits(s: seq<Arrived>) { forall n: nat :: n <= |s| ==> FitsAt(s, n) }

  lemma FirstLineOfBoth(a: seq<Arrived>, b: seq<Arrived>)
    requires Newline(a) < |a|
    ensures Newline(a + b) == Newline(a)
    ensures AsLine(a + b, Newline(a)) == AsLine(a, Newline(a))
    ensures (a + b)[Newline(a) + 1..] == a[Newline(a) + 1..] + b
  {
    var i := Newline(a);
    NewlineFound(a);
    NewlineIs(a + b, i);
    assert (a + b)[..i] == a[..i];
  }

  lemma Behind(s: seq<Arrived>, i: nat, tail: seq<Arrived>)
    requires i == Newline(s) < |s| && tail == s[i + 1..]
    ensures Lines(s) == AsLine(s, i) + Lines(tail) && Rest(s) == Rest(tail)
  {
  }

  lemma {:induction false} LinesSplit(a: seq<Arrived>, b: seq<Arrived>)
    ensures Lines(a + b) == Lines(a) + Lines(Rest(a) + b)
    ensures Rest(a + b) == Rest(Rest(a) + b)
    decreases |a|
  {
    var i := Newline(a);
    if i < |a| {
      var head, tail := AsLine(a, i), a[i + 1..];
      FirstLineOfBoth(a, b);
      Behind(a, i, tail);
      Behind(a + b, i, tail + b);
      LinesSplit(tail, b);
      Regroup(head, Lines(tail), Lines(Rest(tail) + b));
    } else {
      NoLine(a);
    }
  }

  lemma Regroup(x: seq<Line>, y: seq<Line>, z: seq<Line>)
    ensures x + (y + z) == (x + y) + z
  {
  }

  lemma {:induction false} RestHasNoNewline(s: seq<Arrived>)
    ensures Newline(Rest(s)) == |Rest(s)|
    decreases |s|
  {
    var i := Newline(s);
    if i < |s| { RestHasNoNewline(s[i + 1..]); }
  }

  // What the buffer holds has lost its arrival times, and they are not needed.
  lemma TimesOfTheRemainder(r: seq<Arrived>, q: seq<Arrived>, b: seq<Arrived>)
    requires Newline(r) == |r| && Chars(q) == Chars(r)
    ensures Lines(q + b) == Lines(r + b)
    ensures Chars(Rest(q + b)) == Chars(Rest(r + b))
  {
    NoNewlineEither(r, q);
    NewlineBehind(r, b);
    NewlineBehind(q, b);
    var x, y, i := r + b, q + b, |r| + Newline(b);
    SameCharsInFront(r, q, b, Newline(b));
    if Newline(b) < |b| {
      assert x[i].at == y[i].at;
      SameLines(x, y, i);
    } else {
      NoLine(x);
      NoLine(y);
      assert x[..i] == x && y[..i] == y;
    }
  }

  lemma NoNewlineEither(r: seq<Arrived>, q: seq<Arrived>)
    requires Newline(r) == |r| && Chars(q) == Chars(r)
    ensures |q| == |r| && Newline(q) == |q|
  {
    NewlineFound(r);
    assert forall k :: 0 <= k < |r| ==> q[k].c == Chars(q)[k] && r[k].c == Chars(r)[k];
    NewlineIs(q, |q|);
  }

  lemma SameCharsInFront(r: seq<Arrived>, q: seq<Arrived>, b: seq<Arrived>, k: nat)
    requires Chars(q) == Chars(r) && |q| == |r| && k <= |b|
    ensures Chars((r + b)[..|r| + k]) == Chars((q + b)[..|r| + k])
  {
    assert (r + b)[..|r| + k] == r + b[..k] && (q + b)[..|r| + k] == q + b[..k];
    CharsOfBoth(r, b[..k]);
    CharsOfBoth(q, b[..k]);
  }

  lemma SameLines(x: seq<Arrived>, y: seq<Arrived>, i: nat)
    requires Newline(x) == i < |x| && Newline(y) == i < |y|
    requires Chars(x[..i]) == Chars(y[..i]) && x[i].at == y[i].at && x[i + 1..] == y[i + 1..]
    ensures Lines(x) == Lines(y) && Rest(x) == Rest(y)
  {
    Behind(x, i, x[i + 1..]);
    Behind(y, i, x[i + 1..]);
  }

  lemma NoLine(s: seq<Arrived>)
    requires Newline(s) == |s|
    ensures Lines(s) == [] && Rest(s) == s
  {
  }

  lemma NewlineBehind(r: seq<Arrived>, b: seq<Arrived>)
    requires Newline(r) == |r|
    ensures Newline(r + b) == |r| + Newline(b)
    ensures Newline(b) < |b| ==> (r + b)[|r| + Newline(b) + 1..] == b[Newline(b) + 1..]
  {
    NewlineFound(r);
    NewlineFound(b);
    NewlineIs(r + b, |r| + Newline(b));
  }

  lemma CharsOfBoth(a: seq<Arrived>, b: seq<Arrived>)
    ensures Chars(a + b) == Chars(a) + Chars(b)
  {
  }

  lemma StampBoth(a: string, b: string, at: int)
    ensures Stamp(a + b, at) == Stamp(a, at) + Stamp(b, at)
    ensures Chars(Stamp(a, at)) == a
  {
  }

  // One chunk on top of a stream taken in whole.
  lemma FeedAfter(parse: Parser, v: View, s: seq<Arrived>, chunk: Chunk)
    ensures Feed(parse, Ends(parse, v, s), chunk) == Guard(Ends(parse, v, s + Stamp(chunk.text, chunk.at)))
  {
    var r, q, b := Rest(s), Stamp(Chars(Rest(s)), chunk.at), Stamp(chunk.text, chunk.at);
    StampBoth(Chars(r), chunk.text, chunk.at);
    RestHasNoNewline(s);
    TimesOfTheRemainder(r, q, b);
    LinesSplit(s, b);
    HandleBoth(parse, v, Lines(s), Lines(r + b));
    AllKeepBuffer(parse, HandleAll(parse, v, Lines(s)), Chars(r), Lines(r + b));
  }

  lemma FitsPart(s: seq<Arrived>, n: nat)
    requires n <= |s| && Fits(s)
    ensures Fits(s[..n])
  {
    forall k: nat | k <= n ensures FitsAt(s[..n], k) {
      assert FitsAt(s, k);
      assert s[..n][..k] == s[..k];
    }
  }

  lemma {:induction false} FramingIgnoresCuts(parse: Parser, v: View, chunks: seq<Chunk>)
    requires v.buffer == "" && Fits(Arrivals(chunks))
    ensures Run(parse, v, chunks) == Ends(parse, v, Arrivals(chunks))
  {
    var s := Arrivals(chunks);
    if |chunks| > 0 {
      var before, chunk := chunks[..|chunks| - 1], chunks[|chunks| - 1];
      assert s[..|Arrivals(before)|] == Arrivals(before);
      FitsPart(s, |Arrivals(before)|);
      FramingIgnoresCuts(parse, v, before);
      FeedAfter(parse, v, Arrivals(before), chunk);
      assert FitsAt(s, |s|) && s[..|s|] == s;
    }
  }

  // A stretch that is too long is caught when it comes in one character at a time.

  function OneByOne(s: seq<Arrived>): seq<Chunk> {
    if |s| == 0 then [] else OneByOne(s[..|s| - 1]) + [Chunk([s[|s| - 1].c], s[|s| - 1].at)]
  }

  lemma {:induction false} OneByOneArrives(s: seq<Arrived>)
    ensures Arrivals(OneByOne(s)) == s
  {
    if |s| > 0 {
      var before, last := s[..|s| - 1], s[|s| - 1];
      OneByOneArrives(before);
      assert OneByOne(s)[..|OneByOne(s)| - 1] == OneByOne(before);
      assert Stamp([last.c], last.at) == [last] && s == before + [last];
    }
  }

  lemma LinesAreNotTooLong(parse: Parser, v: View, line: Line)
    ensures LineTooLong in HandleLine(parse, v, line).emitted <==> LineTooLong in v.emitted
  {
  }

  lemma {:induction false} NoLineIsTooLong(parse: Parser, v: View, lines: seq<Line>)
    ensures LineTooLong in HandleAll(parse, v, lines).emitted <==> LineTooLong in v.emitted
    decreases |lines|
  {
    if |lines| > 0 {
      LinesAreNotTooLong(parse, v, lines[0]);
      NoLineIsTooLong(parse, HandleLine(parse, v, lines[0]), lines[1..]);
    }
  }

  lemma StaysTooLong(parse: Parser, v: View, chunk: Chunk)
    requires LineTooLong in v.emitted
    ensures LineTooLong in Feed(parse, v, chunk).emitted
  {
    NoLineIsTooLong(parse, v, Lines(Stamp(v.buffer + chunk.text, chunk.at)));
  }

  lemma LastCharacterIsTooMuch(parse: Parser, v: View, before: seq<Arrived>, last: Arrived)
    requires v.buffer == "" && Fits(before) && !Fits(before + [last])
    ensures LineTooLong in Run(parse, v, OneByOne(before + [last])).emitted
  {
    var s, chunk := before + [last], Chunk([last.c], last.at);
    var n: nat :| n <= |s| && !FitsAt(s, n);
    assert forall k: nat :: k <= |before| ==> FitsAt(before, k) && before[..k] == s[..k];
    assert s[..n] == s;
    LastOfOneByOne(before, last);
    OneByOneArrives(before);
    FramingIgnoresCuts(parse, v, OneByOne(before));
    FeedAfter(parse, v, before, chunk);
  }

  lemma LastOfOneByOne(before: seq<Arrived>, last: Arrived)
    ensures OneByOne(before + [last]) == OneByOne(before) + [Chunk([last.c], last.at)]
    ensures Stamp([last.c], last.at) == [last]
  {
    assert (before + [last])[..|before|] == before;
  }

  lemma {:induction false} TooLongIsCaught(parse: Parser, v: View, s: seq<Arrived>)
    requires v.buffer == "" && !Fits(s)
    ensures LineTooLong in Run(parse, v, OneByOne(s)).emitted
  {
    if |s| == 0 { NothingFits(s); }
    var before, last := s[..|s| - 1], s[|s| - 1];
    assert before + [last] == s;
    if Fits(before) {
      LastCharacterIsTooMuch(parse, v, before, last);
    } else {
      TooLongIsCaught(parse, v, before);
      LastOfOneByOne(before, last);
      StaysTooLong(parse, Run(parse, v, OneByOne(before)), Chunk([last.c], last.at));
    }
  }

  lemma NothingFits(s: seq<Arrived>)
    requires |s| == 0
    ensures Fits(s)
  {
    assert s[..0] == [];
  }

  ghost predicate AnyCut(parse: Parser, v: View, s: seq<Arrived>) {
    forall chunks: seq<Chunk> :: Arrivals(chunks) == s ==> Run(parse, v, chunks) == Ends(parse, v, s)
  }

  // Every cut of a stream is taken in as the lines of the whole exactly when no
  // unterminated stretch of it is over the limit.
  lemma CutsDoNotMatterIff(parse: Parser, v: View, s: seq<Arrived>)
    requires v.buffer == "" && LineTooLong !in v.emitted
    ensures AnyCut(parse, v, s) <==> Fits(s)
  {
    if Fits(s) {
      forall chunks: seq<Chunk> | Arrivals(chunks) == s
        ensures Run(parse, v, chunks) == Ends(parse, v, s)
      {
        FramingIgnoresCuts(parse, v, chunks);
      }
    } else {
      TooLongIsCaught(parse, v, s);
      OneByOneArrives(s);
      NoLineIsTooLong(parse, v, Lines(s));
    }
  }

  // ---- Whole lives of a connection object -----------------------------------------------

  datatype Op = Open | Data(chunk: Chunk)

  function After(parse: Parser, ops: seq<Op>): View {
    if |ops| == 0 then CREATED
    else
      var v := After(parse, ops[..|ops| - 1]);
      match ops[|ops| - 1]
      case Open => Connect(v)
      case Data(chunk) => Feed(parse, v, chunk)
  }

  // Jobs announced since the connection was last made.
  function SinceConnect(emitted: seq<Event>): nat {
    if |emitted| == 0 || emitted[|emitted| - 1].Connected? then 0
    else SinceConnect(emitted[..|emitted| - 1]) + if emitted[|emitted| - 1].Notify? then 1 else 0
  }

  predicate FlaggedAt(emitted: seq<Event>, i: nat)
    requires i < |emitted|
  {
    emitted[i].Notify? ==> (emitted[i].firstAfterConnect <==> SinceConnect(emitted[..i]) == 0)
  }

  // The flag marks exactly the first job of each connection.
  ghost predicate Flagged(v: View) {
    && v.notifyCount == SinceConnect(v.emitted)
    && forall i: nat :: i < |v.emitted| ==> FlaggedAt(v.emitted, i)
  }

  lemma EmitKeepsFlags(v: View, e: Event, w: View)
    requires Flagged(v) && w.emitted == v.emitted + [e]
    requires e.Notify? ==> (e.firstAfterConnect <==> v.notifyCount == 0)
    requires w.notifyCount == if e.Connected? then 0 else if e.Notify? then v.notifyCount + 1 else v.notifyCount
    ensures Flagged(w)
  {
    assert w.emitted[..|v.emitted|] == v.emitted;
    forall i: nat | i < |w.emitted| ensures FlaggedAt(w.emitted, i) {
      if i < |v.emitted| {
        assert FlaggedAt(v.emitted, i);
        assert w.emitted[..i] == v.emitted[..i];
      }
    }
  }

  lemma LineKeepsFlags(parse: Parser, v: View, line: Line)
    requires Flagged(v)
    ensures Flagged(HandleLine(parse, v, line))
  {
    var w := HandleLine(parse, v, line);
    if w.emitted != v.emitted { EmitKeepsFlags(v, w.emitted[|v.emitted|], w); }
  }

  lemma {:induction false} LinesKeepFlags(parse: Parser, v: View, lines: seq<Line>)
    requires Flagged(v)
    ensures Flagged(HandleAll(parse, v, lines))
    decreases |lines|
  {
    if |lines| > 0 {
      LineKeepsFlags(parse, v, lines[0]);
      LinesKeepFlags(parse, HandleLine(parse, v, lines[0]), lines[1..]);
    }
  }

  lemma FeedKeepsFlags(parse: Parser, v: View, chunk: Chunk)
    requires Flagged(v)
    ensures Flagged(Feed(parse, v, chunk))
    ensures ByteLength(Feed(parse, v, chunk).buffer) <= MAX_STRATUM_LINE_BYTES
  {
    var s := Stamp(v.buffer + chunk.text, chunk.at);
    LinesKeepFlags(parse, v, Lines(s));
    var w := Ends(parse, v, s);
    assert Flagged(w);
    if ByteLength(w.buffer) > MAX_STRATUM_LINE_BYTES { EmitKeepsFlags(w, LineTooLong, Guard(w)); }
  }

  lemma {:induction false} AlwaysFlaggedAndBounded(parse: Parser, ops: seq<Op>)
    ensures Flagged(After(parse, ops))
    ensures ByteLength(After(parse, ops).buffer) <= MAX_STRATUM_LINE_BYTES
  {
    if |ops| > 0 {
      var v := After(parse, ops[..|ops| - 1]);
      AlwaysFlaggedAndBounded(parse, ops[..|ops| - 1]);
      match ops[|ops| - 1]
      case Open => EmitKeepsFlags(v, Connected, Connect(v));
      case Data(chunk) => FeedKeepsFlags(parse, v, chunk);
    }
  }

  // ---- What the lines of a text are -----------------------------------------------------

  ghost predicate IsOneLine(text: string) { '\n' !in text }

  // Each with a newline behind it.
  function Terminated(texts: seq<string>): string {
    if |texts| == 0 then "" else texts[0] + "\n" + Terminated(texts[1..])
  }

  // Trimmed, the blank ones left out.
  function Spoken(texts: seq<string>, at: int): seq<Line> {
    if |texts| == 0 then []
    else (if Trim(texts[0]) == "" then [] else [Line(Trim(texts[0]), at)]) + Spoken(texts[1..], at)
  }

  lemma FirstLineIs(text: string, rest: string, at: int)
    requires IsOneLine(text)
    ensures var s := Stamp(text + "\n" + rest, at);
      && Newline(s) == |text| < |s| && Chars(s[..|text|]) == text && s[|text|].at == at
      && s[|text| + 1..] == Stamp(rest, at)
  {
    var whole := text + "\n" + rest;
    var s := Stamp(whole, at);
    assert forall k :: 0 <= k < |text| ==> whole[k] == text[k] && text[k] in text;
    NewlineIs(s, |text|);
    assert forall k :: 0 <= k < |rest| ==> whole[|text| + 1 + k] == rest[k];
    assert s[|text| + 1..] == Stamp(rest, at);
    assert Chars(s[..|text|]) == text;
  }

  // A text of lines and a remainder says the lines that are not blank, and keeps
  // the remainder.
  lemma {:induction false} LinesAre(texts: seq<string>, remainder: string, at: int)
    requires (forall i :: 0 <= i < |texts| ==> IsOneLine(texts[i])) && IsOneLine(remainder)
    ensures Lines(Stamp(Terminated(texts) + remainder, at)) == Spoken(texts, at)
    ensures Chars(Rest(Stamp(Terminated(texts) + remainder, at))) == remainder
    decreases |texts|
  {
    if |texts| == 0 {
      var s := Stamp(remainder, at);
      assert "" + remainder == remainder;
      assert forall k :: 0 <= k < |remainder| ==> remainder[k] in remainder;
      NewlineIs(s, |s|);
      assert Chars(s) == remainder;
    } else {
      var rest := Terminated(texts[1..]) + remainder;
      assert Terminated(texts) + remainder == texts[0] + "\n" + rest;
      FirstLineIs(texts[0], rest, at);
      LinesAre(texts[1..], remainder, at);
      OneLineMore(Stamp(texts[0] + "\n" + rest, at), texts[0], rest, at);
    }
  }

  lemma OneLineMore(s: seq<Arrived>, text: string, rest: string, at: int)
    requires s == Stamp(text + "\n" + rest, at) && IsOneLine(text)
    ensures Lines(s) == (if Trim(text) == "" then [] else [Line(Trim(text), at)]) + Lines(Stamp(rest, at))
    ensures Rest(s) == Rest(Stamp(rest, at))
  {
    FirstLineIs(text, rest, at);
  }
}
