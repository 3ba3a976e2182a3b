/**
 * What src/lib/rpc.js counts its needle in is JSON (RFC 8259), and there two
 * occurrences of it never overlap.
 *
 * A text is a tree printed with its blanks. The grammar is a little wide: any
 * run of number characters stands for a number, any escape for an escape.
 */
module JsonReply {
  import opened StreamCount

  datatype Value =
    | Literal(text: string)
    | Quoted(body: string)
    | Array(blank: string, items: Items)
    | Object(blank: string, members: Members)

  datatype Items = NoItem | Item(before: string, value: Value, after: string, more: Items)

  datatype Members =
    | NoMember
    | Member(before: string, name: string, gap: string, ahead: string, value: Value, after: string, more: Members)

  function InQuotes(body: string): string { "\"" + body + "\"" }

  function Print(v: Value): string {
    match v
    case Literal(text) => text
    case Quoted(body) => InQuotes(body)
    case Array(blank, items) => "[" + (if items.NoItem? then blank else PrintItems(items)) + "]"
    case Object(blank, members) => "{" + (if members.NoMember? then blank else PrintMembers(members)) + "}"
  }

  function PrintItems(i: Items): string
    requires i.Item?
  {
    i.before + Print(i.value) + i.after + if i.more.NoItem? then "" else "," + PrintItems(i.more)
  }

  function PrintMembers(m: Members): string
    requires m.Member?
  {
    m.before + InQuotes(m.name) + m.gap + ":" + m.ahead + Print(m.value) + m.after +
    if m.more.NoMember? then "" else "," + PrintMembers(m.more)
  }

  predicate IsBlank(s: string) { forall i :: 0 <= i < |s| ==> s[i] in {' ', '\t', '\n', '\r'} }

  predicate IsNumberChar(c: char) { '0' <= c <= '9' || c in {'-', '+', '.', 'e', 'E'} }

  predicate IsLiteral(s: string) {
    s in {"true", "false", "null"} || forall i :: 0 <= i < |s| ==> IsNumberChar(s[i])
  }

  // Plain characters and escapes: no quote that would end the string.
  predicate IsBody(s: string) {
    |s| == 0 ||
    if s[0] == '\\' then |s| >= 2 && IsBody(s[2..]) else s[0] != '\"' && IsBody(s[1..])
  }

  predicate WellFormed(v: Value) {
    match v
    case Literal(text) => IsLiteral(text)
    case Quoted(body) => IsBody(body)
    case Array(blank, items) => IsBlank(blank) && WellFormedItems(items)
    case Object(blank, members) => IsBlank(blank) && WellFormedMembers(members)
  }

  predicate WellFormedItems(i: Items) {
    i.Item? ==> IsBlank(i.before) && WellFormed(i.value) && IsBlank(i.after) && WellFormedItems(i.more)
  }

  predicate WellFormedMembers(m: Members) {
    m.Member? ==>
      && IsBlank(m.before) && IsBody(m.name) && IsBlank(m.gap) && IsBlank(m.ahead)
      && WellFormed(m.value) && IsBlank(m.after) && WellFormedMembers(m.more)
  }

  ghost predicate IsJson(text: string) {
    exists before, v, after :: IsBlank(before) && WellFormed(v) && IsBlank(after) && text == before + Print(v) + after
  }

  // ---- Reading along: where the quotes are ------------------------------------------

  // Closed: the quote that ends a string has just been read. Then only a blank or
  // what separates or closes may come.
  datatype Scan = Ready | Closed | Inside | Escaped | Bad

  function Read(st: Scan, c: char): Scan {
    match st
    case Ready => if c == '\"' then Inside else Ready
    case Closed => if c in {' ', '\t', '\n', '\r', ',', ':', ']', '}'} then Ready else Bad
    case Inside => if c == '\"' then Closed else if c == '\\' then Escaped else Inside
    case Escaped => Inside
    case Bad => Bad
  }

  function ReadAll(st: Scan, text: string): Scan
    decreases |text|
  {
    if |text| == 0 then st else ReadAll(Read(st, text[0]), text[1..])
  }

  predicate Outside(st: Scan) { st == Ready || st == Closed }

  lemma {:induction false} ReadBoth(st: Scan, a: string, b: string)
    ensures ReadAll(st, a + b) == ReadAll(ReadAll(st, a), b)
    decreases |a|
  {
    if |a| == 0 {
      assert a + b == b;
    } else {
      assert (a + b)[1..] == a[1..] + b;
      ReadBoth(Read(st, a[0]), a[1..], b);
    }
  }

  lemma {:induction false} StaysBad(text: string)
    ensures ReadAll(Bad, text) == Bad
  {
    if |text| > 0 { StaysBad(text[1..]); }
  }

  lemma {:induction false} ReadBlank(st: Scan, s: string)
    requires Outside(st) && IsBlank(s)
    ensures Outside(ReadAll(st, s)) && (st == Ready ==> ReadAll(st, s) == Ready)
    decreases |s|
  {
    if |s| > 0 { ReadBlank(Read(st, s[0]), s[1..]); }
  }

  lemma {:induction false} ReadPlain(s: string)
    requires forall i :: 0 <= i < |s| ==> s[i] != '\"'
    ensures ReadAll(Ready, s) == Ready
  {
    if |s| > 0 { ReadPlain(s[1..]); }
  }

  lemma {:induction false} ReadBody(s: string)
    requires IsBody(s)
    ensures ReadAll(Inside, s) == Inside
  {
    if |s| > 0 {
      if s[0] == '\\' {
        assert s[1..][1..] == s[2..];
        ReadBody(s[2..]);
      } else {
        ReadBody(s[1..]);
      }
    }
  }

  lemma ReadOne(st: Scan, c: char)
    ensures ReadAll(st, [c]) == Read(st, c)
  {
    assert [c][1..] == [];
    assert ReadAll(Read(st, c), []) == Read(st, c);
  }

  lemma ReadQuoted(body: string)
    requires IsBody(body)
    ensures ReadAll(Ready, InQuotes(body)) == Closed
  {
    ReadBoth(Ready, "\"" + body, "\"");
    ReadBoth(Ready, "\"", body);
    ReadOne(Ready, '\"');
    ReadBody(body);
    ReadOne(Inside, '\"');
  }

  // A part that can be read from outside a string, and ends outside one.
  predicate Reads(s: string) { Outside(ReadAll(Ready, s)) }

  lemma ReadsThenBlank(s: string, blank: string)
    requires Reads(s) && IsBlank(blank)
    ensures Reads(s + blank)
  {
    ReadBoth(Ready, s, blank);
    ReadBlank(ReadAll(Ready, s), blank);
  }

  lemma BlankThenReads(blank: string, s: string)
    requires IsBlank(blank) && Reads(s)
    ensures Reads(blank + s)
  {
    ReadBoth(Ready, blank, s);
    ReadBlank(Ready, blank);
  }

  // Between two parts stands what separates them.
  lemma ReadsThenMark(s: string, mark: char)
    requires Reads(s) && mark in {',', ':', ']', '}'}
    ensures ReadAll(Ready, s + [mark]) == Ready
  {
    ReadBoth(Ready, s, [mark]);
    ReadOne(ReadAll(Ready, s), mark);
  }

  lemma ReadsWithMark(a: string, mark: char, b: string)
    requires Reads(a) && Reads(b) && mark in {',', ':', ']', '}'}
    ensures Reads(a + [mark] + b)
  {
    ReadsThenMark(a, mark);
    ReadBoth(Ready, a + [mark], b);
  }

  lemma Enclosed(mark: char, inner: string, end: char)
    requires mark in {'[', '{'} && Reads(inner) && end in {']', '}'}
    ensures Reads([mark] + inner + [end])
  {
    ReadOne(Ready, mark);
    ReadBoth(Ready, [mark], inner);
    ReadsThenMark([mark] + inner, end);
  }

  lemma {:induction false} ValuesRead(v: Value)
    requires WellFormed(v)
    ensures Reads(Print(v))
  {
    match v
    case Literal(text) => ReadPlain(text);
    case Quoted(body) => ReadQuoted(body);
    case Array(blank, items) =>
      if items.NoItem? { ReadBlank(Ready, blank); } else { ItemsRead(items); }
      Enclosed('[', if items.NoItem? then blank else PrintItems(items), ']');
    case Object(blank, members) =>
      if members.NoMember? { ReadBlank(Ready, blank); } else { MembersRead(members); }
      Enclosed('{', if members.NoMember? then blank else PrintMembers(members), '}');
  }

  lemma Padded(before: string, s: string, after: string)
    requires IsBlank(before) && Reads(s) && IsBlank(after)
    ensures Reads(before + s + after)
  {
    BlankThenReads(before, s);
    ReadsThenBlank(before + s, after);
  }

  lemma {:induction false} ItemsRead(i: Items)
    requires i.Item? && WellFormedItems(i)
    ensures Reads(PrintItems(i))
  {
    var first := i.before + Print(i.value) + i.after;
    ValuesRead(i.value);
    Padded(i.before, Print(i.value), i.after);
    if i.more.Item? {
      ItemsRead(i.more);
      ReadsWithMark(first, ',', PrintItems(i.more));
      assert PrintItems(i) == first + "," + PrintItems(i.more);
    } else {
      assert PrintItems(i) == first;
    }
  }

  lemma {:induction false} MembersRead(m: Members)
    requires m.Member? && WellFormedMembers(m)
    ensures Reads(PrintMembers(m))
  {
    var first := m.before + InQuotes(m.name) + m.gap + ":" + (m.ahead + Print(m.value) + m.after);
    ValuesRead(m.value);
    OneMemberReads(m);
    if m.more.Member? {
      MembersRead(m.more);
      ReadsWithMark(first, ',', PrintMembers(m.more));
      assert PrintMembers(m) == first + "," + PrintMembers(m.more);
    } else {
      assert PrintMembers(m) == first;
    }
  }

  lemma OneMemberReads(m: Members)
    requires m.Member? && WellFormedMembers(m) && Reads(Print(m.value))
    ensures Reads(m.before + InQuotes(m.name) + m.gap + ":" + (m.ahead + Print(m.value) + m.after))
  {
    ReadQuoted(m.name);
    Padded(m.before, InQuotes(m.name), m.gap);
    Padded(m.ahead, Print(m.value), m.after);
    ReadsWithMark(m.before + InQuotes(m.name) + m.gap, ':', m.ahead + Print(m.value) + m.after);
  }

  // ---- The needle ---------------------------------------------------------------------

  // Wherever it starts, the needle ends on a quote that closes a string, so no
  // letter can follow it.
  lemma NoLetterAfterTheNeedle(st: Scan)
    ensures ReadAll(st, TXID + "t") == Bad
  {
    var s1 := Read(st, '\"');
    var s5 := Read(Read(Read(Read(s1, 't'), 'x'), 'i'), 'd');
    var s6 := Read(s5, '\"');
    ReadSeven(st);
    assert Read(s6, 't') == Bad;
  }

  lemma ReadSeven(st: Scan)
    ensures ReadAll(st, TXID + "t") ==
      Read(Read(Read(Read(Read(Read(Read(st, '\"'), 't'), 'x'), 'i'), 'd'), '\"'), 't')
  {
    ReadBoth(st, "\"txid\"", "t");
    ReadBoth(st, "\"txid", "\"");
    ReadBoth(st, "\"txi", "d");
    ReadBoth(st, "\"tx", "i");
    ReadBoth(st, "\"t", "x");
    ReadBoth(st, "\"", "t");
    ReadOne(st, '\"');
    ReadOne(Read(st, '\"'), 't');
    ReadOne(ReadAll(st, "\"t"), 'x');
    ReadOne(ReadAll(st, "\"tx"), 'i');
    ReadOne(ReadAll(st, "\"txi"), 'd');
    ReadOne(ReadAll(st, "\"txid"), '\"');
    ReadOne(ReadAll(st, "\"txid\""), 't');
    assert "\"t" == "\"" + "t" && "\"tx" == "\"t" + "x" && "\"txi" == "\"tx" + "i" && "\"txid" == "\"txi" + "d";
    assert "\"txid\"" == "\"txid" + "\"";
  }

  lemma ReadableHasNoOverlaps(text: string)
    requires ReadAll(Ready, text) != Bad
    ensures NoOverlaps(text, TXID)
  {
    forall i: nat, j: nat | OccursAt(text, TXID, i) && OccursAt(text, TXID, j) && i < j
      ensures i + |TXID| <= j
    {
      if j < i + |TXID| {
        TxidOverlapsByOneQuote(text, i, j);
        LetterFollows(text, i);
      }
    }
  }

  lemma LetterFollows(text: string, i: nat)
    requires OccursAt(text, TXID, i) && OccursAt(text, TXID, i + 5)
    ensures ReadAll(Ready, text) == Bad
  {
    assert text[i + 6] == text[i + 5..i + 11][1] == 't';
    assert text[i..i + 7] == text[i..i + 6] + [text[i + 6]];
    assert text == text[..i] + ((TXID + "t") + text[i + 7..]);
    var st := ReadAll(Ready, text[..i]);
    ReadBoth(Ready, text[..i], (TXID + "t") + text[i + 7..]);
    ReadBoth(st, TXID + "t", text[i + 7..]);
    NoLetterAfterTheNeedle(st);
    StaysBad(text[i + 7..]);
  }

  // On every JSON text, however it is cut, the transactions are counted exactly.
  lemma JsonIsCountedExactly(text: string)
    requires IsJson(text)
    ensures ExactHowever(TXID, text)
  {
    var before, v, after :| IsBlank(before) && WellFormed(v) && IsBlank(after) && text == before + Print(v) + after;
    ValuesRead(v);
    Padded(before, Print(v), after);
    ReadableHasNoOverlaps(text);
    ExactIffNoOverlaps(TXID, text);
  }
}
