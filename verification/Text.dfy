/** Text as the request signer and its verifier handle it. */
module Text {
  import opened Types

  // ---------- Decimal numbers ----------

  function Digit(d: nat): char
    requires d < 10
  {
    ['0', '1', '2', '3', '4', '5', '6', '7', '8', '9'][d]
  }

  predicate IsDigit(c: char) { '0' <= c <= '9' }

  function DigitValue(c: char): nat
    requires IsDigit(c)
  {
    c as int - '0' as int
  }

  predicate IsNumber(s: string) {
    s != "" && forall i :: 0 <= i < |s| ==> IsDigit(s[i])
  }

  /** A number without sign or leading zeros. */
  function Decimal(n: nat): (s: string)
    ensures IsNumber(s)
  {
    if n < 10 then [Digit(n)] else Decimal(n / 10) + [Digit(n % 10)]
  }

  function ParseNumber(s: string): nat
    requires IsNumber(s)
  {
    if |s| == 1 then DigitValue(s[0])
    else ParseNumber(s[..|s| - 1]) * 10 + DigitValue(s[|s| - 1])
  }

  lemma {:induction false} DecimalRoundTrip(n: nat)
    ensures ParseNumber(Decimal(n)) == n
  {
    if n >= 10 {
      DecimalRoundTrip(n / 10);
      assert Decimal(n)[..|Decimal(n)| - 1] == Decimal(n / 10);
    }
  }

  // ---------- Lower case, digests, trimming ----------

  function LowerChar(c: char): char {
    if 'A' <= c <= 'Z' then (c as int + 32) as char else c
  }

  function Lower(s: string): (t: string)
    ensures |t| == |s|
  {
    seq(|s|, i requires 0 <= i < |s| => LowerChar(s[i]))
  }

  function HexDigit(d: nat): char
    requires d < 16
  {
    ['0', '1', '2', '3', '4', '5', '6', '7', '8', '9', 'a', 'b', 'c', 'd', 'e', 'f'][d]
  }

  /** What a lower-case hexadecimal digit stands for. */
  function HexValue(c: char): int {
    if c <= '9' then c as int - '0' as int else c as int - 'a' as int + 10
  }

  /** Two lower-case digits an octet, the high one first. */
  function HexLower(octets: seq<byte>): (s: string)
    ensures |s| == 2 * |octets|
    ensures forall c :: c in s ==> '0' <= c <= '9' || 'a' <= c <= 'f'
  {
    if octets == [] then ""
    else
      var init := octets[..|octets| - 1];
      var last := octets[|octets| - 1];
      HexLower(init) + [HexDigit(last / 16), HexDigit(last % 16)]
  }

  lemma HexDigitReads(d: nat)
    requires d < 16
    ensures HexValue(HexDigit(d)) == d
  {
  }

  /** The i-th pair of digits reads as the i-th octet. */
  lemma {:induction false} HexReads(octets: seq<byte>, i: nat)
    requires i < |octets|
    ensures 16 * HexValue(HexLower(octets)[2 * i]) + HexValue(HexLower(octets)[2 * i + 1]) == octets[i]
    decreases |octets|
  {
    var n := |octets| - 1;
    if i < n {
      HexReads(octets[..n], i);
    } else {
      HexDigitReads(octets[n] / 16);
      HexDigitReads(octets[n] % 16);
      hide HexDigit;
      hide HexValue;
    }
  }

  /** Nothing in the text that RFC 9110 section 5.5 forbids in a field value. */
  predicate OneLine(s: string) {
    '\r' !in s && '\n' !in s && '\0' !in s
  }

  lemma NumberIsOneLine(s: string)
    requires IsNumber(s)
    ensures OneLine(s)
  {
  }

  lemma HexIsPlain(octets: seq<byte>, c: char)
    requires c in {',', '\r', '\n', '\0', ' '}
    ensures c !in HexLower(octets)
  {
  }

  function Trim(s: string): string {
    if s == "" then ""
    else if s[0] == ' ' then Trim(s[1..])
    else if s[|s| - 1] == ' ' then Trim(s[..|s| - 1])
    else s
  }

  predicate NoOuterBlanks(s: string) {
    s != "" ==> s[0] != ' ' && s[|s| - 1] != ' '
  }

  lemma {:induction false} TrimFree(s: string, x: char)
    requires x !in s
    ensures x !in Trim(s)
    decreases |s|
  {
    if s != "" {
      if s[0] == ' ' {
        TrimFree(s[1..], x);
      } else if s[|s| - 1] == ' ' {
        TrimFree(s[..|s| - 1], x);
      }
    }
  }

  lemma TrimOne(s: string)
    requires NoOuterBlanks(s)
    ensures Trim(s) == s && Trim(" " + s) == s
  {
    assert (" " + s)[1..] == s;
  }

  lemma NoBlanksJoined(a: string, b: string)
    requires a != "" && a[0] != ' ' && b != "" && b[|b| - 1] != ' '
    ensures NoOuterBlanks(a + b)
  {
  }

  // ---------- Searching and splitting ----------

  /** The position of the first `c`, or |s|. */
  function IndexOf(s: string, c: char): (i: nat)
    ensures i <= |s| && (i < |s| ==> s[i] == c)
  {
    if s == "" || s[0] == c then 0 else 1 + IndexOf(s[1..], c)
  }

  lemma {:induction false} IndexOfSkips(a: string, b: string, c: char)
    requires c !in a
    ensures IndexOf(a + b, c) == |a| + IndexOf(b, c)
    decreases |a|
  {
    if a == "" {
      assert a + b == b;
    } else {
      assert (a + b)[1..] == a[1..] + b;
      IndexOfSkips(a[1..], b, c);
    }
  }

  lemma {:induction false} IndexOfIsFirst(s: string, c: char)
    ensures c !in s[..IndexOf(s, c)]
  {
    if s != "" && s[0] != c {
      IndexOfIsFirst(s[1..], c);
      assert s[..IndexOf(s, c)] == [s[0]] + s[1..][..IndexOf(s[1..], c)];
    }
  }

  /** The parts of `s` between occurrences of `c`. */
  function Split(s: string, c: char): (parts: seq<string>)
    ensures parts != []
    decreases |s|
  {
    var i := IndexOf(s, c);
    if i == |s| then [s] else [s[..i]] + Split(s[i + 1..], c)
  }

  function Join(parts: seq<string>, c: char): string {
    if parts == [] then ""
    else if |parts| == 1 then parts[0]
    else parts[0] + [c] + Join(parts[1..], c)
  }

  /** No part has the separator, nor anything that the whole has not. */
  lemma {:induction false} SplitFree(s: string, c: char, x: char, i: nat)
    requires i < |Split(s, c)| && (x == c || x !in s)
    ensures x !in Split(s, c)[i]
    decreases |s|
  {
    IndexOfIsFirst(s, c);
    var n := IndexOf(s, c);
    if n == |s| {
      assert s[..n] == s;
    } else if i > 0 {
      SplitFree(s[n + 1..], c, x, i - 1);
    }
  }

  lemma SplitFirst(a: string, c: char, rest: string)
    requires c !in a
    ensures Split(a + [c] + rest, c) == [a] + Split(rest, c)
  {
    var s := a + [c] + rest;
    assert s == a + ([c] + rest);
    IndexOfSkips(a, [c] + rest, c);
    assert s[..|a|] == a && s[|a| + 1..] == rest;
  }

  lemma {:induction false} SplitJoin(parts: seq<string>, c: char)
    requires parts != [] && forall i :: 0 <= i < |parts| ==> c !in parts[i]
    ensures Split(Join(parts, c), c) == parts
    decreases |parts|
  {
    if |parts| == 1 {
      IndexOfSkips(parts[0], "", c);
      assert parts[0] + "" == parts[0];
    } else {
      SplitJoin(parts[1..], c);
      SplitFirst(parts[0], c, Join(parts[1..], c));
    }
  }

  lemma SplitTwo(a: string, b: string, c: char)
    requires c !in a && c !in b
    ensures Split(a + [c] + b, c) == [a, b]
  {
    SplitFirst(a, c, b);
    IndexOfSkips(b, "", c);
    assert b + "" == b;
  }

  lemma SplitThree(a: string, b: string, d: string, c: char)
    requires c !in a && c !in b && c !in d
    ensures Split(a + [c] + (b + [c] + d), c) == [a, b, d]
  {
    SplitFirst(a, c, b + [c] + d);
    SplitFirst(b, c, d);
    IndexOfSkips(d, "", c);
    assert d + "" == d;
  }

  /** Five parts put together with `c` between them. */
  function Five(a: string, b: string, d: string, e: string, f: string, c: char): string {
    a + [c] + b + [c] + d + [c] + e + [c] + f
  }

  lemma FiveFree(a: string, b: string, d: string, e: string, f: string, c: char, x: char)
    requires x != c && x !in a && x !in b && x !in d && x !in e && x !in f
    ensures x !in Five(a, b, d, e, f, c)
  {
  }

  lemma FiveOneLine(a: string, b: string, d: string, e: string, f: string, c: char)
    requires OneLine([c]) && OneLine(a) && OneLine(b) && OneLine(d) && OneLine(e) && OneLine(f)
    ensures OneLine(Five(a, b, d, e, f, c))
  {
    assert c in [c];
    hide Five;
    FiveFree(a, b, d, e, f, c, '\r');
    FiveFree(a, b, d, e, f, c, '\n');
    FiveFree(a, b, d, e, f, c, '\0');
  }

  lemma FiveLast(a: string, b: string, d: string, e: string, f: string, c: char)
    requires f != ""
    ensures var s := Five(a, b, d, e, f, c); s != "" && s[|s| - 1] == f[|f| - 1]
  {
  }

  lemma JoinFive(a: string, b: string, d: string, e: string, f: string, c: char)
    ensures Join([a, b, d, e, f], c) == Five(a, b, d, e, f, c)
  {
    var all := [a, b, d, e, f];
    assert all[1..] == [b, d, e, f] && all[1..][1..] == [d, e, f] && all[1..][1..][1..] == [e, f];
    assert Join([e, f], c) == e + [c] + f;
    assert Join([d, e, f], c) == d + [c] + Join([e, f], c);
    assert Join([b, d, e, f], c) == b + [c] + Join([d, e, f], c);
  }

  lemma SplitFive(a: string, b: string, d: string, e: string, f: string, c: char)
    requires c !in a && c !in b && c !in d && c !in e && c !in f
    ensures Split(Five(a, b, d, e, f, c), c) == [a, b, d, e, f]
  {
    JoinFive(a, b, d, e, f, c);
    SplitJoin([a, b, d, e, f], c);
  }

  lemma AscendingFive(a: string, b: string, c: string, d: string, e: string)
    requires Less(a, b) && Less(b, c) && Less(c, d) && Less(d, e)
    ensures Ascending([a, b, c, d, e])
  {
    var all := [a, b, c, d, e];
    assert all[1..] == [b, c, d, e] && all[1..][1..] == [c, d, e] && all[1..][1..][1..] == [d, e];
    assert Ascending([d, e]);
    assert Ascending([c, d, e]);
    assert Ascending([b, c, d, e]);
  }

  /** What follows `prefix` in `s`, if `s` starts with it. */
  function After(s: string, prefix: string): Option<string> {
    if prefix <= s then Some(s[|prefix|..]) else None
  }

  lemma AfterPrefix(prefix: string, rest: string)
    ensures After(prefix + rest, prefix) == Some(rest)
  {
  }

  lemma NotPrefix(prefix: string, s: string)
    requires prefix != "" && s != "" && prefix[0] != s[0]
    ensures !(prefix <= s)
  {
  }

  // ---------- Order ----------

  /** Strict lexicographic order by character code. */
  predicate Less(a: string, b: string) {
    b != "" && (a == "" || a[0] < b[0] || (a[0] == b[0] && Less(a[1..], b[1..])))
  }

  lemma LessByFirst(a: string, b: string)
    requires a != "" && b != "" && a[0] < b[0]
    ensures Less(a, b)
  {
  }

  lemma {:induction false} LessAfterPrefix(p: string, a: string, b: string)
    requires Less(a, b)
    ensures Less(p + a, p + b)
    decreases |p|
  {
    if p == "" {
      assert p + a == a && p + b == b;
    } else {
      LessAfterPrefix(p[1..], a, b);
      assert (p + a)[1..] == p[1..] + a && (p + b)[1..] == p[1..] + b;
    }
  }

  function Insert(name: string, sorted: seq<string>): seq<string> {
    if sorted == [] || Less(name, sorted[0]) then [name] + sorted else [sorted[0]] + Insert(name, sorted[1..])
  }

  function Sort(names: seq<string>): seq<string> {
    if names == [] then [] else Insert(names[0], Sort(names[1..]))
  }

  predicate Ascending(names: seq<string>) {
    |names| < 2 || (Less(names[0], names[1]) && Ascending(names[1..]))
  }

  lemma {:induction false} SortSorted(names: seq<string>)
    requires Ascending(names)
    ensures Sort(names) == names
    decreases |names|
  {
    if names != [] {
      SortSorted(names[1..]);
    }
  }
}
