/**
 A reader of HTTP/1.1 requests (sections 3 to 6 of RFC 9112) for messages that give a content length. It ends lines at
 CR LF only, and rejects a field value with a CR, LF or NUL (section 5.5 of RFC 9110).
 */
module Http {
  import opened Types
  import opened Text

  datatype Header = Header(name: string, value: string)

  datatype Request = Request(verb: string, target: string, headers: seq<Header>, body: string)

  /** The first line, up to CR LF, and what follows it; a carriage return alone is refused. */
  function TakeLine(s: string): (r: Option<(string, string)>)
    ensures r.Some? ==> |r.value.1| < |s|
  {
    var i := IndexOf(s, '\r');
    if i + 1 < |s| && s[i + 1] == '\n' then Some((s[..i], s[i + 2..])) else None
  }

  /** The fields up to the empty line, and what follows it. */
  function ParseHeaders(s: string): Option<(seq<Header>, string)>
    decreases |s|
  {
    match TakeLine(s)
    case None => None
    case Some((line, rest)) =>
      if line == "" then Some(([], rest))
      else
        var colon := IndexOf(line, ':');
        if colon == |line| || !OneLine(Trim(line[colon + 1..])) then None
        else
          match ParseHeaders(rest)
          case None => None
          case Some((hs, body)) => Some(([Header(line[..colon], Trim(line[colon + 1..]))] + hs, body))
  }

  /** The value of the first field with this lower-case name; field names ignore case. */
  function Lookup(hs: seq<Header>, name: string): Option<string> {
    if hs == [] then None
    else if Lower(hs[0].name) == name then Some(hs[0].value)
    else Lookup(hs[1..], name)
  }

  /** No field value that has been read holds a carriage return. */
  lemma {:induction false} ValuesAreLines(s: string, i: nat)
    requires ParseHeaders(s).Some? && i < |ParseHeaders(s).value.0|
    ensures OneLine(ParseHeaders(s).value.0[i].value)
    decreases |s|
  {
    var (line, rest) := TakeLine(s).value;
    if line != "" && i > 0 {
      ValuesAreLines(rest, i - 1);
    }
  }

  lemma {:induction false} LookupIsAValue(hs: seq<Header>, name: string)
    requires Lookup(hs, name).Some?
    ensures exists i :: 0 <= i < |hs| && hs[i].value == Lookup(hs, name).value
  {
    if Lower(hs[0].name) != name {
      LookupIsAValue(hs[1..], name);
      var i :| 0 <= i < |hs[1..]| && hs[1..][i].value == Lookup(hs, name).value;
      assert hs[i + 1].value == Lookup(hs, name).value;
    }
  }

  function ParseRequest(msg: string): Option<Request> {
    match TakeLine(msg)
    case None => None
    case Some((line, rest)) =>
      match ParseHeaders(rest)
      case None => None
      case Some((hs, content)) =>
        var parts := Split(line, ' ');
        match Lookup(hs, "content-length")
        case None => None
        case Some(n) =>
          if |parts| != 3 || parts[2] != "HTTP/1.1" || !IsNumber(n) || ParseNumber(n) > |content| then None
          else Some(Request(parts[0], parts[1], hs, content[..ParseNumber(n)]))
  }

  lemma ReadValueIsLine(msg: string, name: string)
    requires ParseRequest(msg).Some? && Lookup(ParseRequest(msg).value.headers, name).Some?
    ensures OneLine(Lookup(ParseRequest(msg).value.headers, name).value)
  {
    var hs := ParseRequest(msg).value.headers;
    var rest := TakeLine(msg).value.1;
    assert ParseHeaders(rest).value.0 == hs;
    LookupIsAValue(hs, name);
    var i :| 0 <= i < |hs| && hs[i].value == Lookup(hs, name).value;
    ValuesAreLines(rest, i);
  }

  // ---------- Printing ----------

  function Line(h: Header): string {
    h.name + ": " + h.value + "\r\n"
  }

  function Lines(hs: seq<Header>): string {
    if hs == [] then "" else Lines(hs[..|hs| - 1]) + Line(hs[|hs| - 1])
  }

  /** Nothing in the header that would end its name or its line early, or be trimmed away. */
  predicate Plain(h: Header) {
    ':' !in h.name && '\r' !in h.name && OneLine(h.value) && NoOuterBlanks(h.value)
  }

  predicate AllPlain(hs: seq<Header>) {
    forall i :: 0 <= i < |hs| ==> Plain(hs[i])
  }

  lemma TakeLineIs(line: string, rest: string)
    requires '\r' !in line
    ensures TakeLine(line + "\r\n" + rest) == Some((line, rest))
  {
    var s := line + "\r\n" + rest;
    assert s == line + ("\r\n" + rest);
    IndexOfSkips(line, "\r\n" + rest, '\r');
    assert s[..|line|] == line && s[|line| + 2..] == rest;
  }

  lemma FieldSplits(h: Header)
    requires Plain(h)
    ensures var line := h.name + ": " + h.value;
      && line != "" && IndexOf(line, ':') == |h.name| < |line|
      && line[..|h.name|] == h.name && Trim(line[|h.name| + 1..]) == h.value
  {
    var line := h.name + ": " + h.value;
    assert line == h.name + (": " + h.value);
    IndexOfSkips(h.name, ": " + h.value, ':');
    assert line[|h.name| + 1..] == " " + h.value;
    TrimOne(h.value);
  }

  lemma ParseLine(h: Header, rest: string, hs: seq<Header>, body: string)
    requires Plain(h) && ParseHeaders(rest) == Some((hs, body))
    ensures ParseHeaders(Line(h) + rest) == Some(([h] + hs, body))
  {
    var line := h.name + ": " + h.value;
    assert Line(h) + rest == line + "\r\n" + rest;
    assert TakeLine(Line(h) + rest) == Some((line, rest)) by {
      TakeLineIs(line, rest);
    }
    FieldSplits(h);
    hide TakeLine;
    hide Trim;
    hide IndexOf;
  }

  lemma {:induction false} LinesCons(hs: seq<Header>)
    requires hs != []
    ensures Lines(hs) == Line(hs[0]) + Lines(hs[1..])
    decreases |hs|
  {
    if |hs| > 1 {
      LinesCons(hs[..|hs| - 1]);
      assert hs[1..][..|hs[1..]| - 1] == hs[..|hs| - 1][1..];
    }
  }

  lemma {:induction false} ParseLines(hs: seq<Header>, rest: string, body: string)
    requires AllPlain(hs) && ParseHeaders(rest) == Some(([], body))
    ensures ParseHeaders(Lines(hs) + rest) == Some((hs, body))
    decreases |hs|
  {
    if hs == [] {
      assert Lines(hs) + rest == rest;
    } else {
      assert Line(hs[0]) + (Lines(hs[1..]) + rest) == Lines(hs) + rest by {
        LinesCons(hs);
      }
      assert [hs[0]] + hs[1..] == hs;
      ParseLines(hs[1..], rest, body);
      ParseLine(hs[0], Lines(hs[1..]) + rest, hs[1..], body);
    }
  }

  /** Reading what was printed gives the header fields and the body back. */
  lemma ParsePrinted(verb: string, target: string, hs: seq<Header>, body: string)
    requires ' ' !in verb && ' ' !in target && '\r' !in verb && '\r' !in target
    requires AllPlain(hs)
    requires Lookup(hs, "content-length") == Some(Decimal(|body|))
    ensures ParseRequest(verb + " " + target + " HTTP/1.1\r\n" + Lines(hs) + "\r\n" + body) ==
            Some(Request(verb, target, hs, body))
  {
    var line, fields := verb + " " + target + " " + "HTTP/1.1", Lines(hs) + ("\r\n" + body);
    RequestLine(verb, target, Lines(hs), body);
    TakeLineIs(line, fields);
    assert ParseHeaders(fields) == Some((hs, body)) by {
      EmptyLineEnds(body);
      ParseLines(hs, "\r\n" + body, body);
    }
    ThreeWords(verb, target, "HTTP/1.1");
    ParseParts(line + "\r\n" + fields, line, fields, verb, target, hs, body);
  }

  lemma ParseParts(
      msg: string, line: string, fields: string, verb: string, target: string, hs: seq<Header>, body: string)
    requires TakeLine(msg) == Some((line, fields)) && ParseHeaders(fields) == Some((hs, body))
    requires Split(line, ' ') == [verb, target, "HTTP/1.1"] && Lookup(hs, "content-length") == Some(Decimal(|body|))
    ensures ParseRequest(msg) == Some(Request(verb, target, hs, body))
  {
    DecimalRoundTrip(|body|);
    assert body[..|body|] == body;
  }

  lemma RequestLine(verb: string, target: string, lines: string, body: string)
    ensures verb + " " + target + " HTTP/1.1\r\n" + lines + "\r\n" + body
         == verb + " " + target + " " + "HTTP/1.1" + "\r\n" + (lines + ("\r\n" + body))
  {
    assert " HTTP/1.1\r\n" == " " + "HTTP/1.1" + "\r\n";
  }

  lemma EmptyLineEnds(body: string)
    ensures ParseHeaders("\r\n" + body) == Some(([], body))
  {
    TakeLineIs("", body);
    assert "" + "\r\n" + body == "\r\n" + body;
  }

  lemma ThreeWords(a: string, b: string, c: string)
    requires ' ' !in a && ' ' !in b && ' ' !in c
    ensures Split(a + " " + b + " " + c, ' ') == [a, b, c]
  {
    assert a + " " + b + " " + c == a + [' '] + (b + [' '] + c);
    SplitThree(a, b, c, ' ');
  }
}
