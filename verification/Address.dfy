/**
 * src/lib/address.js: the shape of a peer address, its parse and its print, and
 * the one spelling per peer that addresses are compared by. What URL makes of an
 * IPv6 literal is a parameter.
 */
module Address {
  import opened Wrappers
  import opened Text

  datatype HostPort = HostPort(addr: string, port: Option<nat>)

  const MAX_PORT_DIGITS := 5

  // What `.` in a regular expression does not match.
  predicate IsBreak(c: char) { c in {'\n', '\r', '\U{2028}', '\U{2029}'} }

  predicate NoBreaks(s: string) { forall i :: 0 <= i < |s| ==> !IsBreak(s[i]) }

  function Colons(s: string): nat {
    if s == "" then 0 else Colons(s[..|s| - 1]) + if s[|s| - 1] == ':' then 1 else 0
  }

  function First(s: string, c: char): (i: nat)
    ensures i <= |s|
  {
    if s == "" || s[0] == c then 0 else 1 + First(s[1..], c)
  }

  // One past the last c, or zero.
  function PastLast(s: string, c: char): (i: nat)
    ensures i <= |s|
  {
    if s == "" || s[|s| - 1] == c then |s| else PastLast(s[..|s| - 1], c)
  }

  predicate IsPort(s: string, longest: nat) { 1 <= |s| <= longest && AllDigits(s) }

  // ^\[(.+)\](?::(\d+))?$ : where the host ends and what stands behind it.
  predicate IsBracketed(s: string, longest: nat) {
    && s != "" && s[0] == '['
    && var end := PastLast(s, ']');
       && end >= 3 && NoBreaks(s[1..end - 1])
       && (end == |s| || (s[end] == ':' && IsPort(s[end + 1..], longest)))
  }

  function ResolveHostPort(input: string): HostPort {
    if IsBracketed(input, MAX_PORT_DIGITS) then
      var end := PastLast(input, ']');
      HostPort(input[1..end - 1], if end == |input| then None else Some(Number(input[end + 1..])))
    else if Colons(input) >= 2 then HostPort(input, None)
    else
      var i := First(input, ':');
      if 0 < i < |input| && NoBreaks(input[..i]) && IsPort(input[i + 1..], MAX_PORT_DIGITS)
      then HostPort(input[..i], Some(Number(input[i + 1..])))
      else HostPort(input, None)
  }

  function FormatAddress(addr: string, port: nat): string {
    if ':' in addr then "[" + addr + "]:" + Decimal(port) else addr + ":" + Decimal(port)
  }

  function HostFromAddress(address: string): string {
    if IsBracketed(address, |address|) then address[1..PastLast(address, ']') - 1]
    else
      var i := First(address, ':');
      if 0 < i < |address| && IsPort(address[i + 1..], |address|) then address[..i] else address
  }

  // The same rule as the SQL expression: instr finds the first, and counts from 1.
  function SqlHost(address: string): string {
    var bracket, colon := First(address, ']'), First(address, ':');
    if bracket < |address| then (if bracket == 0 then address[..1] else address[1..bracket])
    else if Colons(address) == 1 && colon + 1 < |address| && AllDigits(address[colon + 1..]) then address[..colon]
    else address
  }

  // ---- Finding things ------------------------------------------------------------------

  lemma {:induction false} FirstIs(s: string, c: char, i: nat)
    requires i <= |s| && (i < |s| ==> s[i] == c) && c !in s[..i]
    ensures First(s, c) == i
  {
    if i > 0 {
      assert s[0] in s[..i];
      assert s[1..][..i - 1] == s[1..i];
      assert forall k :: 1 <= k < i ==> s[k] in s[..i];
      FirstIs(s[1..], c, i - 1);
    }
  }

  lemma {:induction false} FirstFound(s: string, c: char)
    ensures var i := First(s, c); c !in s[..i] && (i < |s| ==> s[i] == c)
  {
    if s != "" && s[0] != c {
      FirstFound(s[1..], c);
      var i := First(s, c);
      assert s[..i] == [s[0]] + s[1..][..i - 1];
    }
  }

  lemma {:induction false} PastLastIs(a: string, c: char, b: string)
    requires c !in b
    ensures PastLast(a + [c] + b, c) == |a| + 1
  {
    if b == "" {
      assert a + [c] + b == a + [c];
    } else {
      var s := a + [c] + b;
      assert s[..|s| - 1] == a + [c] + b[..|b| - 1];
      assert s[|s| - 1] in b;
      PastLastIs(a, c, b[..|b| - 1]);
    }
  }

  lemma {:induction false} ColonsOfBoth(a: string, b: string)
    ensures Colons(a + b) == Colons(a) + Colons(b)
  {
    if b == "" {
      assert a + b == a;
    } else {
      assert (a + b)[..|a + b| - 1] == a + b[..|b| - 1];
      ColonsOfBoth(a, b[..|b| - 1]);
    }
  }

  lemma {:induction false} NoColons(s: string)
    ensures Colons(s) == 0 <==> ':' !in s
  {
    if s != "" {
      NoColons(s[..|s| - 1]);
      assert s == s[..|s| - 1] + [s[|s| - 1]];
    }
  }

  // ---- Print, then parse ---------------------------------------------------------------

  predicate Plain(h: string) { h != "" && NoBreaks(h) && '[' !in h && ']' !in h }

  // [h] with this behind it.
  function InBrackets(h: string, behind: string): string { ("[" + h) + [']'] + behind }

  lemma InBracketsEnds(h: string, behind: string)
    requires ']' !in behind
    ensures var s := InBrackets(h, behind);
            && PastLast(s, ']') == |h| + 2 && s[0] == '[' && s[1..|h| + 1] == h && s[|h| + 2..] == behind
  {
    PastLastIs("[" + h, ']', behind);
  }

  lemma InBracketsIsBracketed(h: string, behind: string, longest: nat)
    requires h != "" && NoBreaks(h) && (behind == "" || (behind[0] == ':' && IsPort(behind[1..], longest)))
    ensures ']' !in behind
    ensures IsBracketed(InBrackets(h, behind), longest)
  {
    if behind != "" {
      assert behind == [behind[0]] + behind[1..];
    }
    var s := InBrackets(h, behind);
    InBracketsEnds(h, behind);
    assert s[1..PastLast(s, ']') - 1] == h;
    if behind != "" { assert s[|h| + 2] == behind[0] && s[|h| + 3..] == behind[1..]; }
  }

  function WithPort(h: string, port: nat): string { h + ":" + Decimal(port) }

  lemma ColonsWithPort(h: string, d: string)
    requires ':' !in h && AllDigits(d)
    ensures Colons(h + ":" + d) == 1
  {
    NoColons(h);
    NoColons(d);
    ColonsOfBoth(h, ":" + d);
    ColonsOfBoth(":", d);
    assert h + (":" + d) == h + ":" + d;
    assert Colons(":") == 1;
  }

  lemma WithPortParts(h: string, port: nat)
    requires ':' !in h
    ensures var s := WithPort(h, port);
            && First(s, ':') == |h| < |s| && s[..|h|] == h && s[|h| + 1..] == Decimal(port)
            && Colons(s) == 1
  {
    var s, d := WithPort(h, port), Decimal(port);
    DecimalIsANumber(port);
    ColonsWithPort(h, d);
    assert s[..|h|] == h && s[|h|] == ':';
    FirstIs(s, ':', |h|);
    assert s[|h| + 1..] == d;
  }

  lemma FormatIs(h: string, port: nat)
    ensures FormatAddress(h, port) == if ':' in h then InBrackets(h, ":" + Decimal(port)) else WithPort(h, port)
  {
    if ':' in h {
      assert "[" + h + "]:" + Decimal(port) == InBrackets(h, ":" + Decimal(port));
    }
  }

  // A printed address is read back as the host and the port it was printed from.
  lemma PrintThenParse(h: string, port: nat)
    requires Plain(h) && port <= 99999
    ensures ResolveHostPort(FormatAddress(h, port)) == HostPort(h, Some(port))
  {
    var d := Decimal(port);
    FormatIs(h, port);
    DecimalIsANumber(port);
    PortDigits(port);
    if ':' in h {
      ParseBracketed(h, port);
    } else {
      ParseWithPort(h, port);
    }
  }

  lemma ParseBracketed(h: string, port: nat)
    requires h != "" && NoBreaks(h) && port <= 99999
    ensures ResolveHostPort(InBrackets(h, ":" + Decimal(port))) == HostPort(h, Some(port))
  {
    DecimalIsANumber(port);
    PortDigits(port);
    ParseInBrackets(h, Decimal(port));
  }

  lemma ParseInBrackets(h: string, d: string)
    requires h != "" && NoBreaks(h) && IsPort(d, MAX_PORT_DIGITS)
    ensures ResolveHostPort(InBrackets(h, ":" + d)) == HostPort(h, Some(Number(d)))
  {
    BehindTheColon(InBrackets(h, ":" + d), |h| + 2, d);
    InBracketsIsBracketed(h, ":" + d, MAX_PORT_DIGITS);
    InBracketsEnds(h, ":" + d);
    ReadInBrackets(InBrackets(h, ":" + d), h, d);
  }

  lemma ReadInBrackets(s: string, h: string, d: string)
    requires IsBracketed(s, MAX_PORT_DIGITS) && PastLast(s, ']') == |h| + 2 < |s|
    requires s[1..|h| + 1] == h && s[|h| + 3..] == d && AllDigits(d)
    ensures ResolveHostPort(s) == HostPort(h, Some(Number(d)))
  {
  }

  lemma BehindTheColon(s: string, i: nat, d: string)
    requires i <= |s|
    ensures (":" + d)[1..] == d
    ensures s[i..] == ":" + d ==> i < |s| && s[i] == ':' && s[i + 1..] == d
  {
    if s[i..] == ":" + d {
      assert s[i] == s[i..][0];
      assert s[i + 1..] == s[i..][1..];
    }
  }

  lemma ParseWithPort(h: string, port: nat)
    requires h != "" && NoBreaks(h) && ':' !in h && port <= 99999
    requires !IsBracketed(WithPort(h, port), MAX_PORT_DIGITS)
    ensures ResolveHostPort(WithPort(h, port)) == HostPort(h, Some(port))
  {
    DecimalIsANumber(port);
    PortDigits(port);
    WithPortParts(h, port);
  }

  lemma PrintedHost(h: string, port: nat)
    requires Plain(h)
    ensures HostFromAddress(FormatAddress(h, port)) == h
    ensures SqlHost(FormatAddress(h, port)) == h
  {
    FormatIs(h, port);
    if ':' in h {
      DecimalIsANumber(port);
      HostInBrackets(h, ":" + Decimal(port));
    } else {
      HostBeforePort(h, port);
    }
  }

  lemma HostInBrackets(h: string, behind: string)
    requires Plain(h) && (behind == "" || (|behind| > 1 && behind[0] == ':' && AllDigits(behind[1..])))
    ensures HostFromAddress(InBrackets(h, behind)) == h && SqlHost(InBrackets(h, behind)) == h
  {
    InBracketsIsBracketed(h, behind, |InBrackets(h, behind)|);
    InBracketsEnds(h, behind);
    FirstBracket(h, behind);
  }

  lemma HostBeforePort(h: string, port: nat)
    requires Plain(h) && ':' !in h
    ensures HostFromAddress(WithPort(h, port)) == h && SqlHost(WithPort(h, port)) == h
  {
    DecimalIsANumber(port);
    WithPortParts(h, port);
    NoBracket(WithPort(h, port));
  }

  lemma FirstBracket(h: string, behind: string)
    requires ']' !in h
    ensures First(InBrackets(h, behind), ']') == |h| + 1
  {
    var s := InBrackets(h, behind);
    assert s[..|h| + 1] == "[" + h && s[|h| + 1] == ']';
    FirstIs(s, ']', |h| + 1);
  }

  lemma NoBracket(s: string)
    requires ']' !in s
    ensures First(s, ']') == |s|
  {
    assert s[..|s|] == s;
    FirstIs(s, ']', |s|);
  }

  // The texts that the JavaScript and the SQL rule read alike. Without a closing
  // bracket they part ways only on a port with no host before it; with one, they
  // agree where the first closing bracket is the one that ends a bracketed host,
  // and on two odd texts that start with it.
  predicate ReadAlike(s: string) {
    if ']' !in s then !(|s| > 1 && s[0] == ':' && AllDigits(s[1..]))
    else
      || (IsBracketed(s, |s|) && First(s, ']') == PastLast(s, ']') - 1)
      || s == "]"
      || (s[0] == ']' && |s| > 2 && s[1] == ':' && AllDigits(s[2..]))
  }

  lemma SqlAgreesIff(s: string)
    ensures SqlHost(s) == HostFromAddress(s) <==> ReadAlike(s)
  {
    if ']' !in s {
      AlikeWithoutBracket(s);
    } else {
      ClosingFound(s);
      if IsBracketed(s, |s|) {
        AlikeInBrackets(s);
      } else if s[0] == ']' {
        AlikeFromBracket(s);
      } else {
        NeverAlike(s);
      }
    }
  }

  lemma ClosingFound(s: string)
    requires ']' in s
    ensures First(s, ']') < |s| && s[First(s, ']')] == ']' && (First(s, ']') == 0 <==> s[0] == ']')
  {
    FirstFound(s, ']');
    assert s[..|s|] == s;
  }

  lemma AlikeWithoutBracket(s: string)
    requires ']' !in s
    ensures SqlHost(s) == HostFromAddress(s) <==> !(|s| > 1 && s[0] == ':' && AllDigits(s[1..]))
  {
    var i := First(s, ':');
    NoBracket(s);
    NoClosing(s);
    FirstFound(s, ':');
    if i < |s| && AllDigits(s[i + 1..]) { OneColon(s, i); }
  }

  lemma AlikeInBrackets(s: string)
    requires IsBracketed(s, |s|) && 0 < First(s, ']') < |s|
    ensures SqlHost(s) == HostFromAddress(s) <==> First(s, ']') == PastLast(s, ']') - 1
  {
    SqlCutsAtTheFirst(s);
    FrontsAlike(s, First(s, ']'), PastLast(s, ']') - 1);
  }

  lemma SqlCutsAtTheFirst(s: string)
    requires 0 < First(s, ']') < |s|
    ensures SqlHost(s) == s[1..First(s, ']')]
  {
  }

  lemma FrontsAlike(s: string, i: nat, j: nat)
    requires 1 <= i <= |s| && 1 <= j <= |s|
    ensures s[1..i] == s[1..j] <==> i == j
  {
    assert |s[1..i]| == i - 1 && |s[1..j]| == j - 1;
  }

  // The text starts with a closing bracket: SQL takes that one character.
  lemma AlikeFromBracket(s: string)
    requires s != "" && s[0] == ']'
    ensures SqlHost(s) == HostFromAddress(s) <==>
      s == "]" || (|s| > 2 && s[1] == ':' && AllDigits(s[2..]))
  {
    var i := First(s, ':');
    FirstFound(s, ':');
    assert First(s, ']') == 0 && SqlHost(s) == s[..1] == "]";
    if |s| > 1 && s[1] == ':' { FirstIs(s, ':', 1); }
    if 0 < i < |s| && IsPort(s[i + 1..], |s|) { assert |s[..i]| == i; }
  }

  // A closing bracket inside, and no bracketed host: SQL cuts before it, the
  // other rule cuts behind it or not at all.
  lemma NeverAlike(s: string)
    requires !IsBracketed(s, |s|) && 0 < First(s, ']') < |s| && s[First(s, ']')] == ']'
    ensures SqlHost(s) != HostFromAddress(s)
  {
    var b, i := First(s, ']'), First(s, ':');
    FirstFound(s, ':');
    assert |s[1..b]| == b - 1;
    if 0 < i < |s| && IsPort(s[i + 1..], |s|) {
      assert forall k :: i < k < |s| ==> s[k] == s[i + 1..][k - i - 1];
      assert |s[..i]| == i;
    }
  }

  // On what Core writes there is no difference, but a stray text shows one.
  lemma SqlDisagrees()
    ensures SqlHost("[a]:x") != HostFromAddress("[a]:x")
    ensures SqlHost(":8333") != HostFromAddress(":8333")
  {
    LettersForAPort();
    SqlAgreesIff("[a]:x");
    assert ":8333"[1..] == "8333";
    SqlAgreesIff(":8333");
  }

  lemma LettersForAPort()
    ensures !ReadAlike("[a]:x")
  {
    var s := "[a]:x";
    PastLastIs("[a", ']', ":x");
    assert "[a" + [']'] + ":x" == s;
    assert s[4..] == "x" && !IsDigit("x"[0]);
    assert s[2] == ']';
  }

  lemma NoClosing(s: string)
    requires ']' !in s
    ensures PastLast(s, ']') == 0
  {
    if s != "" {
      assert s[|s| - 1] in s;
      NoClosing(s[..|s| - 1]);
    }
  }

  lemma OneColon(s: string, i: nat)
    requires i < |s| && s[i] == ':' && ':' !in s[..i] && AllDigits(s[i + 1..])
    ensures Colons(s) == 1
  {
    assert s == s[..i] + ":" + s[i + 1..];
    ColonsWithPort(s[..i], s[i + 1..]);
  }

  // ---- One spelling per peer -------------------------------------------------------------

  type Normaliser = string -> Option<string>

  // What URL does with [host]: it takes no host but an IPv6 literal, answered in
  // its one compressed lower-case spelling.
  ghost predicate Normalises(norm: Normaliser) {
    forall s: string :: norm(s).Some? ==> NormalisesTo(norm, s, norm(s).value)
  }

  predicate NormalisesTo(norm: Normaliser, s: string, t: string) {
    && Colons(s) >= 2
    && ':' in t && NoBreaks(t) && LowerCase(t) == t && norm(t) == Some(t)
  }

  function KeyHost(norm: Normaliser, address: string): string {
    var host := LowerCase(ResolveHostPort(Trim(address)).addr);
    if ':' in host && norm(host).Some? then norm(host).value else host
  }

  // A port of zero counts as none.
  function KeyPort(address: string, defaultPort: nat): nat {
    var port := ResolveHostPort(Trim(address)).port;
    if port.Some? && port.value != 0 then port.value else defaultPort
  }

  function AddressKey(norm: Normaliser, address: string, defaultPort: nat): string {
    FormatAddress(KeyHost(norm, address), KeyPort(address, defaultPort))
  }

  // A key's host that a second parse finds again.
  predicate Reparses(h: string) {
    NoBreaks(h) && (':' in h || (h != "" && !IsSpace(h[0]) && !IsBracketed(h, 0)))
  }

  lemma KeyPortInRange(address: string, defaultPort: nat)
    requires 1 <= defaultPort <= 99999
    ensures 1 <= KeyPort(address, defaultPort) <= 99999
  {
    ParsedPortInRange(Trim(address));
  }

  lemma ParsedPortInRange(input: string)
    ensures var port := ResolveHostPort(input).port; port.Some? ==> port.value <= 99999
  {
    var end, i := PastLast(input, ']'), First(input, ':');
    if end < |input| && IsPort(input[end + 1..], MAX_PORT_DIGITS) { PortNumber(input[end + 1..]); }
    if i < |input| && IsPort(input[i + 1..], MAX_PORT_DIGITS) { PortNumber(input[i + 1..]); }
  }

  lemma PortNumber(digits: string)
    requires IsPort(digits, MAX_PORT_DIGITS)
    ensures Number(digits) <= 99999
  {
    NumberBelow(digits);
    PowersInOrder(|digits|, MAX_PORT_DIGITS);
    assert Power10(5) == 100000;
  }

  lemma {:induction false} PowersInOrder(m: nat, n: nat)
    requires m <= n
    ensures Power10(m) <= Power10(n)
    decreases n - m
  {
    if m < n { PowersInOrder(m + 1, n); }
  }

  // What a key's host is made of, and that normalising it again leaves it alone.
  predicate Settled(norm: Normaliser, h: string) {
    LowerCase(h) == h && (norm(h).Some? ==> norm(h).value == h)
  }

  lemma KeyHostIsSettled(norm: Normaliser, address: string)
    requires Normalises(norm)
    ensures Settled(norm, KeyHost(norm, address))
    ensures var h := KeyHost(norm, address); ':' in h && !NoBreaks(h) ==> norm(h).None?
  {
    var host := LowerCase(ResolveHostPort(Trim(address)).addr);
    LowerCaseTwice(ResolveHostPort(Trim(address)).addr);
    if norm(host).Some? {
      assert NormalisesTo(norm, host, norm(host).value);
      NoColons(host);
    }
  }

  lemma TrimNothing(s: string)
    requires s != "" && !IsSpace(s[0]) && !IsSpace(s[|s| - 1])
    ensures Trim(s) == s
  {
  }

  lemma FormatEnds(h: string, port: nat)
    ensures var s := FormatAddress(h, port); |s| >= 2 && !IsSpace(s[|s| - 1])
    ensures ':' in h ==> FormatAddress(h, port)[0] == '['
    ensures ':' !in h && h != "" ==> FormatAddress(h, port)[0] == h[0]
    ensures h == "" ==> FormatAddress(h, port)[0] == ':'
  {
    var d := Decimal(port);
    DecimalIsANumber(port);
    assert IsDigit(d[|d| - 1]);
    FormatIs(h, port);
  }

  lemma WithPortIsBracketedIff(h: string, port: nat)
    requires h != "" && ':' !in h && port <= 99999
    ensures IsBracketed(WithPort(h, port), MAX_PORT_DIGITS) <==> IsBracketed(h, 0)
  {
    var s, d := WithPort(h, port), Decimal(port);
    DecimalIsANumber(port);
    PortDigits(port);
    PastLastBefore(h, ":" + d);
    assert h + (":" + d) == s;
    var end := PastLast(h, ']');
    if 3 <= end { assert s[1..end - 1] == h[1..end - 1]; }
    if end < |h| { assert s[end] == h[end]; }
    if end == |h| { assert s[end + 1..] == d; }
  }

  lemma {:induction false} PastLastBefore(a: string, b: string)
    requires ']' !in b
    ensures PastLast(a + b, ']') == PastLast(a, ']')
  {
    if b == "" {
      assert a + b == a;
    } else {
      assert (a + b)[..|a + b| - 1] == a + b[..|b| - 1];
      assert b[|b| - 1] in b;
      PastLastBefore(a, b[..|b| - 1]);
    }
  }

  // A settled host and a port, printed: what a second key makes of it.
  lemma KeyOfPrinted(norm: Normaliser, h: string, port: nat, defaultPort: nat)
    requires Settled(norm, h) && Reparses(h) && 1 <= port <= 99999
    ensures AddressKey(norm, FormatAddress(h, port), defaultPort) == FormatAddress(h, port)
  {
    var s := FormatAddress(h, port);
    FormatEnds(h, port);
    FormatIs(h, port);
    assert !IsSpace(s[0]);
    TrimNothing(s);
    if ':' in h {
      ParseBracketed(h, port);
    } else {
      WithPortIsBracketedIff(h, port);
      ParseWithPort(h, port);
    }
  }

  // A text that is read as a bare host containing a colon grows by its brackets.
  lemma KeyOfUnparsed(norm: Normaliser, s: string, defaultPort: nat)
    requires ResolveHostPort(Trim(s)) == HostPort(s, None)
    requires LowerCase(s) == s && ':' in s && norm(s).None?
    ensures |AddressKey(norm, s, defaultPort)| > |s|
    ensures AddressKey(norm, s, defaultPort)[0] == '['
  {
    FormatIs(s, defaultPort);
  }

  lemma LowerPrinted(h: string, port: nat)
    requires LowerCase(h) == h
    ensures LowerCase(FormatAddress(h, port)) == FormatAddress(h, port)
  {
    DecimalIsANumber(port);
    var s, d := FormatAddress(h, port), Decimal(port);
    assert forall i :: 0 <= i < |h| ==> LowerOf(h[i]) == LowerCase(h)[i] == h[i];
    assert forall i :: 0 <= i < |d| ==> IsDigit(d[i]);
    assert forall i :: 0 <= i < |s| ==> LowerOf(s[i]) == s[i];
  }

  lemma NotNormalised(norm: Normaliser, s: string)
    requires Normalises(norm) && Colons(s) < 2
    ensures norm(s).None?
  {
    assert norm(s).Some? ==> NormalisesTo(norm, s, norm(s).value);
  }

  lemma ColonsInBrackets(h: string, d: string)
    requires ':' in h
    ensures Colons(InBrackets(h, ":" + d)) >= 2
  {
    NoColons(h);
    ColonsOfBoth("[" + h, "]:" + d);
    ColonsOfBoth("[", h);
    ColonsOfBoth("]:", d);
    assert ("[" + h) + ("]:" + d) == InBrackets(h, ":" + d);
    assert Colons("]:") == 1;
  }

  lemma BreaksHideBrackets(h: string, port: nat)
    requires ':' in h && !NoBreaks(h)
    ensures ResolveHostPort(InBrackets(h, ":" + Decimal(port))) == HostPort(InBrackets(h, ":" + Decimal(port)), None)
  {
    var d := Decimal(port);
    DecimalIsANumber(port);
    InBracketsEnds(h, ":" + d);
    ColonsInBrackets(h, d);
    assert !IsBracketed(InBrackets(h, ":" + d), MAX_PORT_DIGITS);
  }

  // A line break in an IPv6-shaped host hides the brackets.
  lemma BreakInBrackets(norm: Normaliser, h: string, port: nat, defaultPort: nat)
    requires Normalises(norm) && Settled(norm, h) && ':' in h && !NoBreaks(h)
    ensures AddressKey(norm, FormatAddress(h, port), defaultPort) != FormatAddress(h, port)
  {
    var s := FormatAddress(h, port);
    BreakIsPrinted(h, port);
    LowerPrinted(h, port);
    if norm(s).Some? {
      NormalisedHasNoBreaks(norm, s, defaultPort);
    } else {
      KeyOfUnparsed(norm, s, defaultPort);
    }
  }

  lemma BreakIsPrinted(h: string, port: nat)
    requires ':' in h && !NoBreaks(h)
    ensures var s := FormatAddress(h, port);
      ':' in s && !NoBreaks(s) && ResolveHostPort(Trim(s)) == HostPort(s, None)
  {
    var s := FormatAddress(h, port);
    FormatIs(h, port);
    FormatEnds(h, port);
    TrimNothing(s);
    BreaksHideBrackets(h, port);
    InsideIsKept(h, port);
  }

  lemma InsideIsKept(h: string, port: nat)
    requires ':' in h
    ensures !NoBreaks(h) ==> !NoBreaks(FormatAddress(h, port))
    ensures ':' in FormatAddress(h, port)
  {
    var s := FormatAddress(h, port);
    assert forall i :: 0 <= i < |h| ==> s[i + 1] == h[i];
  }

  // What URL answers has no line break, and neither has a key made of it.
  lemma NormalisedHasNoBreaks(norm: Normaliser, s: string, defaultPort: nat)
    requires Normalises(norm) && norm(s).Some? && LowerCase(s) == s
    requires ResolveHostPort(Trim(s)) == HostPort(s, None) && !NoBreaks(s)
    ensures AddressKey(norm, s, defaultPort) != s
  {
    var t := norm(s).value;
    assert NormalisesTo(norm, s, t);
    NoColons(s);
    assert KeyHost(norm, s) == t;
    FormatIs(t, KeyPort(s, defaultPort));
    PrintedHasNoBreaks(t, KeyPort(s, defaultPort));
  }

  lemma PrintedHasNoBreaks(t: string, port: nat)
    requires NoBreaks(t)
    ensures NoBreaks(FormatAddress(t, port))
  {
    DecimalIsANumber(port);
    FormatIs(t, port);
  }

  lemma NothingToParse(h: string, port: nat)
    requires ':' !in h && port <= 99999
    requires h == "" || !NoBreaks(h)
    ensures ResolveHostPort(WithPort(h, port)) == HostPort(WithPort(h, port), None)
  {
    WithPortParts(h, port);
    if h != "" {
      WithPortIsBracketedIff(h, port);
      BrokenIsNotBracketed(h);
    }
  }

  // With no host, or a line break in it, what is left is no host and port.
  lemma NoHostOrBreak(norm: Normaliser, h: string, port: nat, defaultPort: nat)
    requires Normalises(norm) && Settled(norm, h) && ':' !in h && port <= 99999
    requires h == "" || (!NoBreaks(h) && !IsSpace(h[0]))
    ensures AddressKey(norm, FormatAddress(h, port), defaultPort) != FormatAddress(h, port)
  {
    var s := FormatAddress(h, port);
    FormatIs(h, port);
    FormatEnds(h, port);
    TrimNothing(s);
    NothingToParse(h, port);
    LowerPrinted(h, port);
    WithPortParts(h, port);
    NotNormalised(norm, s);
    KeyOfUnparsed(norm, s, defaultPort);
  }

  lemma BrokenIsNotBracketed(h: string)
    requires !NoBreaks(h)
    ensures !IsBracketed(h, 0)
  {
    PastLastFound(h);
    assert |h| >= 3 ==> forall i :: 1 <= i < |h| - 1 ==> h[1..|h| - 1][i - 1] == h[i];
  }

  lemma {:induction false} PastLastFound(s: string)
    ensures PastLast(s, ']') > 0 ==> s[PastLast(s, ']') - 1] == ']'
  {
    if s != "" { PastLastFound(s[..|s| - 1]); }
  }

  // Brackets around something that is no IPv6 literal come off the second time.
  lemma BracketsComeOff(norm: Normaliser, h: string, port: nat, defaultPort: nat)
    requires Settled(norm, h) && ':' !in h && IsBracketed(h, 0) && !IsSpace(h[0]) && 1 <= port <= 99999
    ensures AddressKey(norm, FormatAddress(h, port), defaultPort) != FormatAddress(h, port)
  {
    var s, x := FormatAddress(h, port), h[1..|h| - 1];
    FormatIs(h, port);
    FormatEnds(h, port);
    TrimNothing(s);
    InsideBrackets(h, port);
    LowerInside(h);
    assert ':' !in x;
    FormatIs(x, port);
  }

  lemma InsideBrackets(h: string, port: nat)
    requires IsBracketed(h, 0) && port <= 99999
    ensures ResolveHostPort(WithPort(h, port)) == HostPort(h[1..|h| - 1], Some(port))
  {
    var x := h[1..|h| - 1];
    PastLastFound(h);
    assert WithPort(h, port) == InBrackets(x, ":" + Decimal(port));
    ParseBracketed(x, port);
  }

  lemma LowerInside(h: string)
    requires LowerCase(h) == h && |h| >= 2
    ensures LowerCase(h[1..|h| - 1]) == h[1..|h| - 1]
  {
    assert forall i :: 0 <= i < |h| ==> LowerOf(h[i]) == LowerCase(h)[i];
  }

  // A host read without a colon stands before the first colon there is.
  lemma HostBeforeColon(t: string)
    requires ':' in t && ':' !in ResolveHostPort(t).addr
    ensures |ResolveHostPort(t).addr| <= First(t, ':')
  {
    if IsBracketed(t, MAX_PORT_DIGITS) {
      var end := PastLast(t, ']');
      PastLastFound(t);
      assert forall k :: 1 <= k < end - 1 ==> t[k] == t[1..end - 1][k - 1];
      assert ':' !in t[..end];
      assert t[..|t|] == t;
      FirstIs(t, ':', end);
    }
  }

  // A blank in front is trimmed off, and what then stands before the colon is shorter.
  lemma BlankInFront(norm: Normaliser, h: string, port: nat, defaultPort: nat)
    requires Normalises(norm) && ':' !in h && h != "" && IsSpace(h[0])
    ensures AddressKey(norm, FormatAddress(h, port), defaultPort) != FormatAddress(h, port)
  {
    var s := FormatAddress(h, port);
    var t := Trim(s);
    var h2 := KeyHost(norm, s);
    FormatIs(h, port);
    FormatIs(h2, KeyPort(s, defaultPort));
    WithPortParts(h, port);
    TrimmedColon(s, |h|);
    var addr := ResolveHostPort(t).addr;
    LowerKeepsColons(addr);
    KeepsColons(norm, s);
    if ':' !in h2 {
      HostBeforeColon(t);
      WithPortParts(h2, KeyPort(s, defaultPort));
    }
  }

  lemma KeepsColons(norm: Normaliser, s: string)
    requires Normalises(norm)
    ensures ':' in LowerCase(ResolveHostPort(Trim(s)).addr) ==> ':' in KeyHost(norm, s)
  {
    var host := LowerCase(ResolveHostPort(Trim(s)).addr);
    if norm(host).Some? { assert NormalisesTo(norm, host, norm(host).value); }
  }

  lemma LowerKeepsColons(s: string)
    ensures ':' in LowerCase(s) <==> ':' in s
  {
    assert forall i :: 0 <= i < |s| ==> (LowerCase(s)[i] == ':' <==> s[i] == ':');
  }

  lemma TrimmedColon(s: string, i: nat)
    requires i < |s| && First(s, ':') == i && IsSpace(s[0]) && s[i] == ':'
    ensures ':' in Trim(s) && First(Trim(s), ':') < i
  {
    var k := TrimIsTight(s);
    var t := Trim(s);
    FirstFound(s, ':');
    KeptByTrim(s, t, k, i);
    ColonMoves(s, t, k, i);
  }

  lemma ColonMoves(s: string, t: string, k: nat, i: nat)
    requires k <= i < k + |t| <= |s| && t == s[k..k + |t|] && s[i] == ':' && ':' !in s[..i]
    ensures ':' in t && First(t, ':') == i - k
  {
    assert t[i - k] == ':';
    assert forall j :: 0 <= j < i - k ==> t[j] == s[..i][j + k];
    FirstIs(t, ':', i - k);
  }

  lemma KeptByTrim(s: string, t: string, k: nat, i: nat)
    requires k + |t| <= |s| && t == s[k..k + |t|] && Blank(s[..k]) && Blank(s[k + |t|..])
    requires i < |s| && !IsSpace(s[i]) && IsSpace(s[0]) && (t != "" ==> !IsSpace(t[0]))
    ensures 0 < k <= i < k + |t|
  {
    assert forall j :: 0 <= j < k ==> s[..k][j] == s[j];
    assert forall j :: k + |t| <= j < |s| ==> s[k + |t|..][j - k - |t|] == s[j];
  }

  // Taking the key of a key changes nothing, exactly when the host in it is one
  // that a second parse finds again.
  lemma KeyIsIdempotentIff(norm: Normaliser, address: string, defaultPort: nat)
    requires Normalises(norm) && 1 <= defaultPort <= 99999
    ensures var key := AddressKey(norm, address, defaultPort);
            AddressKey(norm, key, defaultPort) == key <==> Reparses(KeyHost(norm, address))
  {
    var h, port := KeyHost(norm, address), KeyPort(address, defaultPort);
    KeyHostIsSettled(norm, address);
    KeyPortInRange(address, defaultPort);
    if Reparses(h) {
      KeyOfPrinted(norm, h, port, defaultPort);
    } else if ':' in h {
      BreakInBrackets(norm, h, port, defaultPort);
    } else if h != "" && IsSpace(h[0]) {
      BlankInFront(norm, h, port, defaultPort);
    } else if h == "" || !NoBreaks(h) {
      NoHostOrBreak(norm, h, port, defaultPort);
    } else {
      BracketsComeOff(norm, h, port, defaultPort);
    }
  }

  // ---- Which spellings share a key ------------------------------------------------------

  // What of a host counts: its IPv6 literal's one spelling, or its lower-case letters.
  function HostMeant(norm: Normaliser, h: string): string {
    if ':' in h && norm(LowerCase(h)).Some? then norm(LowerCase(h)).value else LowerCase(h)
  }

  predicate Ordinary(h: string) { Plain(h) && !IsSpace(h[0]) && !IsSpace(h[|h| - 1]) }

  // An address as it is written, with a port or without one.
  lemma KeyOfWritten(norm: Normaliser, h: string, port: nat, defaultPort: nat)
    requires Ordinary(h) && 1 <= port <= 99999
    ensures AddressKey(norm, FormatAddress(h, port), defaultPort) == FormatAddress(HostMeant(norm, h), port)
  {
    FormatEnds(h, port);
    TrimNothing(FormatAddress(h, port));
    PrintThenParse(h, port);
    LowerKeepsColons(h);
  }

  lemma KeyOfBare(norm: Normaliser, h: string, defaultPort: nat)
    requires Ordinary(h) && Colons(h) != 1
    ensures AddressKey(norm, h, defaultPort) == FormatAddress(HostMeant(norm, h), defaultPort)
  {
    TrimNothing(h);
    NotBracketed(h);
    if Colons(h) == 0 { NoColonsAtAll(h); }
    LowerKeepsColons(h);
  }

  lemma NotBracketed(h: string)
    requires Plain(h)
    ensures !IsBracketed(h, MAX_PORT_DIGITS)
  {
    assert h[0] in h;
  }

  lemma {:induction false} NoColonsAtAll(h: string)
    requires Colons(h) == 0
    ensures ':' !in h && First(h, ':') == |h|
  {
    if h != "" {
      NoColonsAtAll(h[..|h| - 1]);
      assert h == h[..|h| - 1] + [h[|h| - 1]];
    }
    assert h[..|h|] == h;
    FirstIs(h, ':', |h|);
  }

  // A printed host and port are those of no other host and port.
  lemma PrintedOnce(a: string, p: nat, b: string, q: nat)
    requires Readable(a) && Readable(b) && p <= 99999 && q <= 99999
    ensures FormatAddress(a, p) == FormatAddress(b, q) <==> a == b && p == q
  {
    PrintReads(a, p);
    PrintReads(b, q);
  }

  predicate Readable(h: string) { h != "" && NoBreaks(h) && (':' in h || ('[' !in h && ']' !in h)) }

  lemma PrintReads(h: string, port: nat)
    requires Readable(h) && port <= 99999
    ensures ResolveHostPort(FormatAddress(h, port)) == HostPort(h, Some(port))
  {
    FormatIs(h, port);
    if ':' in h { ParseBracketed(h, port); } else { PrintThenParse(h, port); }
  }

  lemma MeantIsReadable(norm: Normaliser, h: string)
    requires Normalises(norm) && Plain(h)
    ensures Readable(HostMeant(norm, h))
  {
    var low := LowerCase(h);
    LowerKeepsColons(h);
    if ':' in h && norm(low).Some? {
      assert NormalisesTo(norm, low, norm(low).value);
    } else {
      LowerKeepsPlain(h);
    }
  }

  lemma LowerKeepsPlain(h: string)
    requires Plain(h)
    ensures Plain(LowerCase(h))
  {
    var low := LowerCase(h);
    assert forall i :: 0 <= i < |h| ==> low[i] == LowerOf(h[i]) && h[i] in h;
    assert forall i :: 0 <= i < |h| ==> LowerOf(h[i]) != '[' && LowerOf(h[i]) != ']';
  }

  // Two addresses have one key exactly when they mean one host and one port.
  lemma KeysMeetIff(norm: Normaliser, g: string, p: nat, h: string, q: nat, defaultPort: nat)
    requires Normalises(norm) && Ordinary(g) && Ordinary(h) && 1 <= p <= 99999 && 1 <= q <= 99999
    ensures AddressKey(norm, FormatAddress(g, p), defaultPort) == AddressKey(norm, FormatAddress(h, q), defaultPort)
       <==> HostMeant(norm, g) == HostMeant(norm, h) && p == q
  {
    KeyOfWritten(norm, g, p, defaultPort);
    KeyOfWritten(norm, h, q, defaultPort);
    MeantIsReadable(norm, g);
    MeantIsReadable(norm, h);
    PrintedOnce(HostMeant(norm, g), p, HostMeant(norm, h), q);
  }

  // Without a port it is the default one.
  lemma BareIsOnTheDefaultPort(norm: Normaliser, h: string, defaultPort: nat)
    requires Ordinary(h) && Colons(h) != 1 && 1 <= defaultPort <= 99999
    ensures AddressKey(norm, h, defaultPort) == AddressKey(norm, FormatAddress(h, defaultPort), defaultPort)
  {
    KeyOfBare(norm, h, defaultPort);
    KeyOfWritten(norm, h, defaultPort, defaultPort);
  }
}
