/** The request signer of the gateway, proved against the receiving side. */
module Signer {
  import opened Types
  import opened Text
  import opened Http
  import opened SigV4

  const AWS_REGION: string := "us-east-1"
  const AWS_HOST: string := "dynamodb.us-east-1.amazonaws.com"
  const AWS_SERVICE: string := "dynamodb"
  const CONTENT_TYPE: string := "application/x-amz-json-1.0"
  const NAMES: seq<string> := ["content-length", "content-type", "host", "x-amz-date", "x-amz-target"]

  const NAMES_JOINED: string := Five("content-length", "content-type", "host", "x-amz-date", "x-amz-target", ';')

  datatype AwsRequest = Scan | Query | GetItem | PutItem | BatchWriteItem | UpdateItem | Unlisted

  function GetAwsRequestStr(num: AwsRequest): (s: string) {
    match num
    case Scan => "DynamoDB_20120810.Scan"
    case Query => "DynamoDB_20120810.Query"
    case GetItem => "DynamoDB_20120810.GetItem"
    case PutItem => "DynamoDB_20120810.PutItem"
    case BatchWriteItem => "DynamoDB_20120810.BatchWriteItem"
    case UpdateItem => "DynamoDB_20120810.UpdateItem"
    case Unlisted => "UNKNOWN"
  }

  /** UTC time as strftime prints it: eight digits of date and six of time. */
  datatype Clock = Clock(date: string, time: string) {
    predicate Valid() {
      IsNumber(date) && |date| == 8 && IsNumber(time) && |time| == 6
    }

    function Full(): string { date + "T" + time + "Z" }
  }

  /** A key identifier that ends neither a component of the scope nor the field nor the line: AWS issues letters. */
  predicate IsAccessKey(s: string) {
    OneLine(s) && '/' !in s && ',' !in s
  }

  predicate PlainSignature(signature: string) {
    signature != "" && OneLine(signature) && ',' !in signature && ' ' !in signature
  }

  function Headers(now: Clock, op: AwsRequest, length: string, authorization: string): seq<Header> {
    [Header("Accept", "*/*"),
     Header("host", AWS_HOST + ";"),
     Header("x-amz-date", now.Full()),
     Header("Authorization", authorization),
     Header("content-type", CONTENT_TYPE),
     Header("content-length", length),
     Header("x-amz-target", GetAwsRequestStr(op))]
  }

  function Scope(accessKey: string, date: string): string {
    Five(accessKey, date, AWS_REGION, AWS_SERVICE, "aws4_request", '/')
  }

  // ---------- The fields of the message ----------

  lemma LookupAt(hs: seq<Header>, name: string, i: nat)
    requires i < |hs| && Lower(hs[i].name) == name
    requires forall j :: 0 <= j < i ==> Lower(hs[j].name) != name
    ensures Lookup(hs, name) == Some(hs[i].value)
    decreases i
  {
    if i > 0 {
      LookupAt(hs[1..], name, i - 1);
    }
  }

  lemma LowerNames()
    ensures Lower("Accept") == "accept" && Lower("host") == "host" && Lower("x-amz-date") == "x-amz-date"
    ensures Lower("Authorization") == "authorization" && Lower("content-type") == "content-type"
    ensures Lower("content-length") == "content-length" && Lower("x-amz-target") == "x-amz-target"
  {
  }

  lemma HeaderValues(now: Clock, op: AwsRequest, length: string, authorization: string)
    ensures var hs := Headers(now, op, length, authorization);
      && Lookup(hs, "host") == Some(AWS_HOST + ";") && Lookup(hs, "x-amz-date") == Some(now.Full())
      && Lookup(hs, "authorization") == Some(authorization) && Lookup(hs, "content-type") == Some(CONTENT_TYPE)
      && Lookup(hs, "content-length") == Some(length) && Lookup(hs, "x-amz-target") == Some(GetAwsRequestStr(op))
  {
    var hs := Headers(now, op, length, authorization);
    LowerNames();
    LookupAt(hs, "host", 1);
    LookupAt(hs, "x-amz-date", 2);
    LookupAt(hs, "authorization", 3);
    LookupAt(hs, "content-type", 4);
    LookupAt(hs, "content-length", 5);
    LookupAt(hs, "x-amz-target", 6);
  }

  // ---------- The Authorization field ----------

  lemma NamesSplit()
    ensures Join(NAMES, ';') == NAMES_JOINED && Split(NAMES_JOINED, ';') == NAMES
  {
    JoinFive("content-length", "content-type", "host", "x-amz-date", "x-amz-target", ';');
    SplitFive("content-length", "content-type", "host", "x-amz-date", "x-amz-target", ';');
  }

  lemma ContentNamesLess()
    ensures Less("content-length", "content-type")
  {
    hide Less;
    LessByFirst("length", "type");
    LessAfterPrefix("content-", "length", "type");
    assert "content-" + "length" == "content-length" && "content-" + "type" == "content-type";
  }

  lemma AmzNamesLess()
    ensures Less("x-amz-date", "x-amz-target")
  {
    hide Less;
    LessByFirst("date", "target");
    LessAfterPrefix("x-amz-", "date", "target");
    assert "x-amz-" + "date" == "x-amz-date" && "x-amz-" + "target" == "x-amz-target";
  }

  lemma NamesSorted()
    ensures Sort(NAMES) == NAMES
  {
    hide Less;
    ContentNamesLess();
    LessByFirst("content-type", "host");
    LessByFirst("host", "x-amz-date");
    AmzNamesLess();
    AscendingFive("content-length", "content-type", "host", "x-amz-date", "x-amz-target");
    SortSorted(NAMES);
  }

  lemma ScopeReads(accessKey: string, now: Clock)
    requires IsAccessKey(accessKey) && now.Valid()
    ensures ParseCredential(Scope(accessKey, now.date)) ==
            Some([accessKey, now.date, AWS_REGION, AWS_SERVICE, "aws4_request"])
    ensures ',' !in Scope(accessKey, now.date) && OneLine(Scope(accessKey, now.date))
    ensures NoOuterBlanks("Credential=" + Scope(accessKey, now.date))
  {
    var date := now.date;
    SplitFive(accessKey, date, AWS_REGION, AWS_SERVICE, "aws4_request", '/');
    FiveFree(accessKey, date, AWS_REGION, AWS_SERVICE, "aws4_request", '/', ',');
    NumberIsOneLine(date);
    FiveOneLine(accessKey, date, AWS_REGION, AWS_SERVICE, "aws4_request", '/');
    FiveLast(accessKey, date, AWS_REGION, AWS_SERVICE, "aws4_request", '/');
    hide Five;
    hide Split;
    NoBlanksJoined("Credential=", Scope(accessKey, date));
  }

  lemma NamesFree(x: char)
    requires x in {',', '\r', '\n', '\0'}
    ensures x !in NAMES_JOINED
  {
    hide Five;
    FiveFree("content-length", "content-type", "host", "x-amz-date", "x-amz-target", ';', x);
  }

  lemma NamesEnd()
    ensures NoOuterBlanks(NAMES_JOINED)
  {
    FiveLast("content-length", "content-type", "host", "x-amz-date", "x-amz-target", ';');
  }

  lemma AreOneLine(s: string)
    requires '\r' !in s && '\n' !in s && '\0' !in s
    ensures OneLine(s)
  {
  }

  lemma NamesRead()
    ensures Split(NAMES_JOINED, ';') == NAMES && ',' !in NAMES_JOINED && OneLine(NAMES_JOINED)
    ensures NoOuterBlanks(NAMES_JOINED)
  {
    hide *;
    NamesSplit();
    NamesFree(',');
    NamesFree('\r');
    NamesFree('\n');
    NamesFree('\0');
    NamesEnd();
    AreOneLine(NAMES_JOINED);
  }

  lemma AuthorizationParses(accessKey: string, now: Clock, signature: string)
    requires IsAccessKey(accessKey) && now.Valid() && PlainSignature(signature)
    ensures ParseAuthorization(AuthorizationText(Scope(accessKey, now.date), NAMES_JOINED, signature)) ==
            Some(Authorization(accessKey, now.date, AWS_REGION, AWS_SERVICE, NAMES, signature))
  {
    hide Scope;
    hide Five;
    hide Split;
    hide ParseCredential;
    hide ParseAuthorization;
    hide AuthorizationText;
    ScopeReads(accessKey, now);
    NamesRead();
    AuthorizationReads(Scope(accessKey, now.date), [accessKey, now.date, AWS_REGION, AWS_SERVICE, "aws4_request"],
                       NAMES_JOINED, signature);
  }

  // ---------- The three concatenations ----------

  /** The canonical lines of the signed fields, in order. */
  function SignedLines(now: Clock, op: AwsRequest, length: string): string {
    CanonicalLine("content-length", length) + CanonicalLine("content-type", CONTENT_TYPE)
    + CanonicalLine("host", AWS_HOST + ";") + CanonicalLine("x-amz-date", now.Full())
    + CanonicalLine("x-amz-target", GetAwsRequestStr(op))
  }

  /** A value put after the name of its field, with the line end and what follows, completes the line. */
  lemma LineCompleted(start: string, lines: string, name: string, value: string, next: string)
    ensures start + lines + (name + ":") + value + ("\n" + next) == start + (lines + CanonicalLine(name, value)) + next
  {
    assert lines + (name + ":" + value + "\n") == lines + (name + ":") + value + "\n";
  }

  method BuildCanonicalRequest(now: Clock, op: AwsRequest, payloadLength: string, payloadHash: string)
    returns (canonical: string)
    ensures canonical ==
            "POST\n/\n\n" + SignedLines(now, op, payloadLength) + ("\n" + NAMES_JOINED + "\n") + payloadHash
  {
    var start := "POST\n/\n\n";
    ghost var l1 := "" + CanonicalLine("content-length", payloadLength);
    ghost var l2 := l1 + CanonicalLine("content-type", CONTENT_TYPE);
    ghost var l3 := l2 + CanonicalLine("host", AWS_HOST + ";");
    ghost var l4 := l3 + CanonicalLine("x-amz-date", now.Full());
    canonical := start + "" + ("content-length" + ":");
    canonical := canonical + payloadLength + ("\n" + ("content-type" + ":"));
    LineCompleted(start, "", "content-length", payloadLength, "content-type" + ":");
    canonical := canonical + CONTENT_TYPE + ("\n" + ("host" + ":"));
    LineCompleted(start, l1, "content-type", CONTENT_TYPE, "host" + ":");
    canonical := canonical + (AWS_HOST + ";") + ("\n" + ("x-amz-date" + ":"));
    LineCompleted(start, l2, "host", AWS_HOST + ";", "x-amz-date" + ":");
    canonical := canonical + now.Full() + ("\n" + ("x-amz-target" + ":"));
    LineCompleted(start, l3, "x-amz-date", now.Full(), "x-amz-target" + ":");
    canonical := canonical + GetAwsRequestStr(op) + ("\n" + ("\n" + NAMES_JOINED + "\n"));
    LineCompleted(start, l4, "x-amz-target", GetAwsRequestStr(op), "\n" + NAMES_JOINED + "\n");
    assert l1 == CanonicalLine("content-length", payloadLength);
    canonical := canonical + payloadHash;
  }

  method BuildStringToSign(now: Clock, canonicalHash: string) returns (text: string)
    ensures text == "AWS4-HMAC-SHA256" + "\n" + now.Full() + "\n" + now.date + "/" + AWS_REGION + "/" + AWS_SERVICE
                    + "/" + "aws4_request" + "\n" + canonicalHash
  {
    text := "AWS4-HMAC-SHA256\n";
    text := text + now.Full();
    text := text + "\n";
    text := text + now.date;
    text := text + "/";
    text := text + AWS_REGION;
    text := text + "/";
    text := text + AWS_SERVICE;
    text := text + "/aws4_request\n";
    text := text + canonicalHash;
    assert "AWS4-HMAC-SHA256\n" == "AWS4-HMAC-SHA256" + "\n";
    assert "/aws4_request\n" == "/" + "aws4_request" + "\n";
  }

  method BuildAuthorization(accessKey: string, date: string, signature: string) returns (text: string)
    ensures text == AuthorizationText(Scope(accessKey, date), NAMES_JOINED, signature)
  {
    var scope := accessKey;
    scope := scope + "/";
    scope := scope + date;
    scope := scope + "/";
    scope := scope + AWS_REGION;
    scope := scope + "/";
    scope := scope + AWS_SERVICE;
    scope := scope + "/" + "aws4_request";
    assert scope == Scope(accessKey, date);
    text := "AWS4-HMAC-SHA256 " + "Credential=" + scope;
    text := text + "," + " " + "SignedHeaders=" + NAMES_JOINED + "," + " " + "Signature=";
    text := text + signature;
    Parts("AWS4-HMAC-SHA256 ", "Credential=", scope, "SignedHeaders=", NAMES_JOINED, "Signature=", signature);
  }

  lemma Parts(a: string, b: string, scope: string, c: string, names: string, d: string, signature: string)
    ensures a + b + scope + "," + " " + c + names + "," + " " + d + signature
         == a + (b + scope + [','] + (" " + (c + names) + [','] + (" " + (d + signature))))
  {
    assert a + b + scope + "," + " " + c + names == a + (b + scope + [','] + (" " + (c + names)));
  }

  /** A value put after the name of its field, with the line end and what follows, completes the field. */
  lemma FieldCompleted(start: string, hs: seq<Header>, name: string, value: string, next: string)
    ensures start + Lines(hs) + (name + ": ") + value + ("\r\n" + next)
         == start + Lines(hs + [Header(name, value)]) + next
  {
    var h := Header(name, value);
    assert (hs + [h])[..|hs|] == hs;
    assert Lines(hs) + (name + ": " + value + "\r\n") == Lines(hs) + (name + ": ") + value + "\r\n";
  }

  method BuildMessage(now: Clock, op: AwsRequest, payloadLength: string, authorization: string, payload: string)
    returns (message: string)
    ensures message == "POST" + " " + "/" + " HTTP/1.1\r\n" + Lines(Headers(now, op, payloadLength, authorization))
                       + "\r\n" + payload
  {
    var start := "POST" + " " + "/" + " HTTP/1.1\r\n";
    ghost var all := Headers(now, op, payloadLength, authorization);
    message := start + "" + ("Accept" + ": ");
    message := message + "*/*" + ("\r\n" + ("host" + ": "));
    FieldCompleted(start, [], "Accept", "*/*", "host" + ": ");
    message := message + (AWS_HOST + ";") + ("\r\n" + ("x-amz-date" + ": "));
    FieldCompleted(start, all[..1], "host", AWS_HOST + ";", "x-amz-date" + ": ");
    message := message + now.Full() + ("\r\n" + ("Authorization" + ": "));
    FieldCompleted(start, all[..2], "x-amz-date", now.Full(), "Authorization" + ": ");
    message := message + authorization + ("\r\n" + ("content-type" + ": "));
    FieldCompleted(start, all[..3], "Authorization", authorization, "content-type" + ": ");
    message := message + CONTENT_TYPE + ("\r\n" + ("content-length" + ": "));
    FieldCompleted(start, all[..4], "content-type", CONTENT_TYPE, "content-length" + ": ");
    message := message + payloadLength + ("\r\n" + ("x-amz-target" + ": "));
    FieldCompleted(start, all[..5], "content-length", payloadLength, "x-amz-target" + ": ");
    message := message + GetAwsRequestStr(op) + ("\r\n" + "\r\n");
    FieldCompleted(start, all[..6], "x-amz-target", GetAwsRequestStr(op), "\r\n");
    PrefixesGrow(all);
    message := message + payload;
  }

  lemma PrefixesGrow(all: seq<Header>)
    requires |all| == 7
    ensures [] + [all[0]] == all[..1] && all[..1] + [all[1]] == all[..2] && all[..2] + [all[2]] == all[..3]
    ensures all[..3] + [all[3]] == all[..4] && all[..4] + [all[4]] == all[..5] && all[..5] + [all[5]] == all[..6]
    ensures all[..6] + [all[6]] == all
  {
  }

  // ---------- The signed request ----------

  lemma OperationFree(op: AwsRequest, x: char)
    requires x < ' '
    ensures x !in GetAwsRequestStr(op)
  {
  }

  lemma OperationTrimmed(op: AwsRequest)
    ensures NoOuterBlanks(GetAwsRequestStr(op))
  {
  }

  lemma OperationIsPlain(op: AwsRequest)
    ensures PlainValue(GetAwsRequestStr(op))
  {
    hide GetAwsRequestStr;
    OperationFree(op, '\r');
    OperationFree(op, '\n');
    OperationFree(op, '\0');
    OperationTrimmed(op);
  }

  lemma HostIsPlain()
    ensures PlainValue(AWS_HOST + ";")
  {
  }

  lemma ContentTypeIsPlain()
    ensures PlainValue(CONTENT_TYPE)
  {
  }

  lemma FullIsPlain(now: Clock)
    requires now.Valid()
    ensures PlainValue(now.Full())
  {
    NumberIsOneLine(now.date);
    NumberIsOneLine(now.time);
  }

  lemma NamesPlain()
    ensures PlainName("Accept") && PlainName("host") && PlainName("x-amz-date") && PlainName("Authorization")
    ensures PlainName("content-type") && PlainName("content-length") && PlainName("x-amz-target")
  {
  }

  predicate PlainName(name: string) {
    ':' !in name && '\r' !in name
  }

  predicate PlainValue(value: string) {
    OneLine(value) && NoOuterBlanks(value)
  }

  lemma HeadersPlain(now: Clock, op: AwsRequest, length: string, authorization: string)
    requires now.Valid() && IsNumber(length) && PlainValue(authorization)
    ensures AllPlain(Headers(now, op, length, authorization))
  {
    NamesPlain();
    assert PlainValue("*/*");
    assert PlainValue(AWS_HOST + ";") by { HostIsPlain(); }
    assert PlainValue(CONTENT_TYPE) by { ContentTypeIsPlain(); }
    assert PlainValue(now.Full()) by { FullIsPlain(now); }
    assert PlainValue(length);
    assert PlainValue(GetAwsRequestStr(op)) by { OperationIsPlain(op); }
    assert PlainValue(authorization);
    SevenPlain(Headers(now, op, length, authorization));
  }

  lemma SevenPlain(hs: seq<Header>)
    requires |hs| == 7
    requires PlainName(hs[0].name) && PlainName(hs[1].name) && PlainName(hs[2].name) && PlainName(hs[3].name)
    requires PlainName(hs[4].name) && PlainName(hs[5].name) && PlainName(hs[6].name)
    requires PlainValue(hs[0].value) && PlainValue(hs[1].value) && PlainValue(hs[2].value) && PlainValue(hs[3].value)
    requires PlainValue(hs[4].value) && PlainValue(hs[5].value) && PlainValue(hs[6].value)
    ensures AllPlain(hs)
  {
  }

  lemma AuthorizationIsPlain(accessKey: string, now: Clock, signature: string)
    requires IsAccessKey(accessKey) && now.Valid() && PlainSignature(signature)
    ensures PlainValue(AuthorizationText(Scope(accessKey, now.date), NAMES_JOINED, signature))
  {
    hide Scope;
    hide Five;
    hide AuthorizationText;
    ScopeReads(accessKey, now);
    NamesRead();
    AuthorizationTextPlain(Scope(accessKey, now.date), NAMES_JOINED, signature);
  }

  lemma ReceiverRebuilds(now: Clock, op: AwsRequest, length: string, authorization: string)
    ensures CanonicalHeaders(Headers(now, op, length, authorization), NAMES) == Some(SignedLines(now, op, length))
  {
    var hs := Headers(now, op, length, authorization);
    HeaderValues(now, op, length, authorization);
    var l1 := CanonicalLine("content-length", length);
    var l2 := l1 + CanonicalLine("content-type", CONTENT_TYPE);
    var l3 := l2 + CanonicalLine("host", AWS_HOST + ";");
    var l4 := l3 + CanonicalLine("x-amz-date", now.Full());
    assert CanonicalHeaders(hs, NAMES[..1]) == Some(l1) by {
      CanonicalStep(hs, [], "content-length", length, "");
      assert "" + l1 == l1 && [] + ["content-length"] == NAMES[..1];
    }
    assert CanonicalHeaders(hs, NAMES[..2]) == Some(l2) by {
      CanonicalStep(hs, NAMES[..1], "content-type", CONTENT_TYPE, l1);
      assert NAMES[..1] + ["content-type"] == NAMES[..2];
    }
    assert CanonicalHeaders(hs, NAMES[..3]) == Some(l3) by {
      CanonicalStep(hs, NAMES[..2], "host", AWS_HOST + ";", l2);
      assert NAMES[..2] + ["host"] == NAMES[..3];
    }
    assert CanonicalHeaders(hs, NAMES[..4]) == Some(l4) by {
      CanonicalStep(hs, NAMES[..3], "x-amz-date", now.Full(), l3);
      assert NAMES[..3] + ["x-amz-date"] == NAMES[..4];
    }
    CanonicalStep(hs, NAMES[..4], "x-amz-target", GetAwsRequestStr(op), l4);
    assert NAMES[..4] + ["x-amz-target"] == NAMES;
  }

  lemma AllRequiredSigned(now: Clock, op: AwsRequest, length: string, authorization: string)
    ensures CoversRequired(Headers(now, op, length, authorization), NAMES)
  {
    LowerNames();
    assert NAMES[2] == "host" && NAMES[3] == "x-amz-date" && NAMES[4] == "x-amz-target";
    NotPrefix("x-amz-", "accept");
    NotPrefix("x-amz-", "host");
    NotPrefix("x-amz-", "authorization");
    NotPrefix("x-amz-", "content-type");
    NotPrefix("x-amz-", "content-length");
  }

  lemma CanonicalRegroup(start: string, lines: string, names: string, hash: string)
    ensures start + lines + "\n" + names + "\n" + hash == start + lines + ("\n" + names + "\n") + hash
  {
  }

  /** The canonical request the program hashes. */
  function Canonical(c: Crypto, now: Clock, op: AwsRequest, payload: string): string {
    "POST\n/\n\n" + SignedLines(now, op, Decimal(|payload|)) + ("\n" + NAMES_JOINED + "\n")
    + HexLower(c.sha256(payload))
  }

  /** The signature the receiver has to find. */
  function Expected(c: Crypto, secret: string, now: Clock, op: AwsRequest, payload: string): string {
    ExpectedOf(c, secret, now, Canonical(c, now, op, payload))
  }

  lemma StartLiteral()
    ensures "POST" + "\n" + "/" + "\n" + "" + "\n" == "POST\n/\n\n"
  {
  }

  lemma CanonicalAgrees(c: Crypto, now: Clock, op: AwsRequest, hs: seq<Header>, payload: string)
    ensures CanonicalRequest(c, Request("POST", "/", hs, payload), SignedLines(now, op, Decimal(|payload|)), NAMES)
         == Canonical(c, now, op, payload)
  {
    NamesSplit();
    StartLiteral();
    var lines, hash := SignedLines(now, op, Decimal(|payload|)), HexLower(c.sha256(payload));
    CanonicalRegroup("POST\n/\n\n", lines, NAMES_JOINED, hash);
  }

  /** The receiver, reading these fields, recomputes exactly the expected signature. */
  lemma ReceiverAgrees(
      c: Crypto, secretOf: string -> string, now: Clock, op: AwsRequest, payload: string, accessKey: string,
      signature: string, authorization: string)
    requires now.Valid() && IsAccessKey(accessKey) && PlainSignature(signature)
    requires signature == Expected(c, secretOf(accessKey), now, op, payload)
    requires authorization == AuthorizationText(Scope(accessKey, now.date), NAMES_JOINED, signature)
    ensures SignedBy(c, secretOf, Request("POST", "/", Headers(now, op, Decimal(|payload|), authorization), payload))
  {
    hide *;
    var length := Decimal(|payload|);
    var hs := Headers(now, op, length, authorization);
    var a := Authorization(accessKey, now.date, AWS_REGION, AWS_SERVICE, NAMES, signature);
    var r := Request("POST", "/", hs, payload);
    assert Lookup(hs, "authorization") == Some(authorization) && Lookup(hs, "x-amz-date") == Some(now.Full()) by {
      HeaderValues(now, op, length, authorization);
    }
    assert ParseAuthorization(authorization) == Some(a) by {
      AuthorizationParses(accessKey, now, signature);
    }
    assert CanonicalHeaders(hs, NAMES) == Some(SignedLines(now, op, length)) by {
      ReceiverRebuilds(now, op, length, authorization);
    }
    assert CoversRequired(hs, NAMES) by { AllRequiredSigned(now, op, length, authorization); }
    assert Sort(NAMES) == NAMES by { NamesSorted(); }
    assert ExpectedOf(c, secretOf(accessKey), now, CanonicalRequest(c, r, SignedLines(now, op, length), NAMES))
        == signature by {
      CanonicalAgrees(c, now, op, hs, payload);
      Refold(c, secretOf(accessKey), now, op, payload);
    }
    FieldsAgree(c, secretOf, now, accessKey, r, a, authorization, SignedLines(now, op, length), NAMES);
  }

  /** The signature over a canonical request. */
  function ExpectedOf(c: Crypto, secret: string, now: Clock, canonical: string): string {
    HexLower(c.hmac(SigningKey(c, secret, now.date, AWS_REGION, AWS_SERVICE),
                    StringToSign(c, now.Full(), now.date, AWS_REGION, AWS_SERVICE, canonical)))
  }

  lemma Refold(c: Crypto, secret: string, now: Clock, op: AwsRequest, payload: string)
    ensures Expected(c, secret, now, op, payload) == ExpectedOf(c, secret, now, Canonical(c, now, op, payload))
  {
  }

  lemma FieldsAgree(
      c: Crypto, secretOf: string -> string, now: Clock, accessKey: string, r: Request, a: Authorization,
      value: string, lines: string, names: seq<string>)
    requires Lookup(r.headers, "authorization") == Some(value) && Lookup(r.headers, "x-amz-date") == Some(now.Full())
    requires ParseAuthorization(value) == Some(a) && Sort(names) == names
    requires a == Authorization(accessKey, now.date, AWS_REGION, AWS_SERVICE, names, a.signature)
    requires CanonicalHeaders(r.headers, names) == Some(lines) && CoversRequired(r.headers, names)
    requires ExpectedOf(c, secretOf(accessKey), now, CanonicalRequest(c, r, lines, names)) == a.signature
    ensures SignedBy(c, secretOf, r)
  {
    RecomputeIs(c, secretOf, r, a, value, lines, now.Full());
  }

  /** The signature and the Authorization field, computed as the program does. */
  method Sign(c: Crypto, now: Clock, payload: string, op: AwsRequest, accessKey: string, secret: string)
    returns (signature: string, authorization: string)
    ensures signature == Expected(c, secret, now, op, payload)
    ensures authorization == AuthorizationText(Scope(accessKey, now.date), NAMES_JOINED, signature)
  {
    var sigFull := "AWS4" + secret;
    var mac := c.hmac(TextKey(sigFull), now.date);
    mac := c.hmac(DigestKey(mac), AWS_REGION);
    mac := c.hmac(DigestKey(mac), AWS_SERVICE);
    mac := c.hmac(DigestKey(mac), "aws4_request");
    var signingKey := DigestKey(mac);
    var payloadHash := HexLower(c.sha256(payload));
    var canonical := BuildCanonicalRequest(now, op, Decimal(|payload|), payloadHash);
    var toSign := BuildStringToSign(now, HexLower(c.sha256(canonical)));
    signature := HexLower(c.hmac(signingKey, toSign));
    authorization := BuildAuthorization(accessKey, now.date, signature);
  }

  /** The version of DynamoDB's interface and the name it gives to an operation. */
  function ApiName(op: AwsRequest): Option<(string, string)> {
    match op
    case Scan => Some(("20120810", "Scan"))
    case Query => Some(("20120810", "Query"))
    case GetItem => Some(("20120810", "GetItem"))
    case PutItem => Some(("20120810", "PutItem"))
    case BatchWriteItem => Some(("20120810", "BatchWriteItem"))
    case UpdateItem => Some(("20120810", "UpdateItem"))
    case Unlisted => None
  }

  /** What DynamoDB reads as the target of the request is this operation. */
  predicate AsksFor(r: Request, op: AwsRequest) {
    match Lookup(r.headers, "x-amz-target")
    case None => false
    case Some(target) => ParseTarget(target) == ApiName(op)
  }

  /** The text is the time in the basic format of ISO 8601, in UTC. */
  predicate IsTime(text: string, now: Clock) {
    |text| == 16 && text[..8] == now.date && text[8] == 'T' && text[9..15] == now.time && text[15] == 'Z'
  }

  /** The five signed fields as lines, the list of their names and the hash of the payload. */
  function CanonicalSpelled(c: Crypto, now: Clock, op: AwsRequest, payload: string): string {
    "POST\n/\n\n"
    + ("content-length:" + Decimal(|payload|) + "\n")
    + ("content-type:" + "application/x-amz-json-1.0" + "\n")
    + ("host:" + "dynamodb.us-east-1.amazonaws.com;" + "\n")
    + ("x-amz-date:" + (now.date + "T" + now.time + "Z") + "\n")
    + ("x-amz-target:" + GetAwsRequestStr(op) + "\n")
    + ("\n"
       + ("content-length" + ";" + "content-type" + ";" + "host" + ";" + "x-amz-date" + ";" + "x-amz-target") + "\n")
    + HexLower(c.sha256(payload))
  }

  /** The text to be signed, over the hash of the canonical request. */
  function ToSignSpelled(c: Crypto, now: Clock, op: AwsRequest, payload: string): string {
    "AWS4-HMAC-SHA256\n" + (now.date + "T" + now.time + "Z") + "\n" + now.date
    + "/" + "us-east-1" + "/" + "dynamodb" + "/" + "aws4_request" + "\n"
    + HexLower(c.sha256(CanonicalSpelled(c, now, op, payload)))
  }

  lemma CanonicalIsSpelled(c: Crypto, now: Clock, op: AwsRequest, payload: string)
    ensures Canonical(c, now, op, payload) == CanonicalSpelled(c, now, op, payload)
  {
    HostSpelled();
    var l1 := CanonicalLine("content-length", Decimal(|payload|));
    var l2 := CanonicalLine("content-type", CONTENT_TYPE);
    var l3 := CanonicalLine("host", AWS_HOST + ";");
    var l4 := CanonicalLine("x-amz-date", now.Full());
    var l5 := CanonicalLine("x-amz-target", GetAwsRequestStr(op));
    LinesFlat("POST\n/\n\n", l1, l2, l3, l4, l5);
    LinePrefixes(Decimal(|payload|), CONTENT_TYPE, AWS_HOST + ";", now.Full(), GetAwsRequestStr(op));
    hide CanonicalLine;
    hide HexLower;
    hide Decimal;
    hide GetAwsRequestStr;
  }

  lemma LinesFlat(start: string, a: string, b: string, c: string, d: string, e: string)
    ensures start + (a + b + c + d + e) == start + a + b + c + d + e
  {
  }

  lemma LinePrefixes(length: string, kind: string, host: string, time: string, target: string)
    ensures CanonicalLine("content-length", length) == "content-length:" + length + "\n"
    ensures CanonicalLine("content-type", kind) == "content-type:" + kind + "\n"
    ensures CanonicalLine("host", host) == "host:" + host + "\n"
    ensures CanonicalLine("x-amz-date", time) == "x-amz-date:" + time + "\n"
    ensures CanonicalLine("x-amz-target", target) == "x-amz-target:" + target + "\n"
  {
    assert "content-length" + ":" == "content-length:" && "content-type" + ":" == "content-type:";
    assert "host" + ":" == "host:" && "x-amz-date" + ":" == "x-amz-date:" && "x-amz-target" + ":" == "x-amz-target:";
  }

  lemma ToSignIsSpelled(c: Crypto, now: Clock, op: AwsRequest, payload: string)
    ensures StringToSign(c, now.Full(), now.date, AWS_REGION, AWS_SERVICE, Canonical(c, now, op, payload)) ==
            ToSignSpelled(c, now, op, payload)
  {
    CanonicalIsSpelled(c, now, op, payload);
    assert "AWS4-HMAC-SHA256" + "\n" == "AWS4-HMAC-SHA256\n";
    hide Canonical;
    hide CanonicalSpelled;
    hide HexLower;
  }

  /** The signature, by the letter: four keys derived one from the other, and the digits of the last digest. */
  lemma SignatureSpelled(c: Crypto, secret: string, now: Clock, op: AwsRequest, payload: string)
    ensures
      var dated := c.hmac(TextKey("AWS4" + secret), now.date);
      var regional := c.hmac(DigestKey(dated), "us-east-1");
      var forService := c.hmac(DigestKey(regional), "dynamodb");
      var key := c.hmac(DigestKey(forService), "aws4_request");
      Expected(c, secret, now, op, payload) == HexLower(c.hmac(DigestKey(key), ToSignSpelled(c, now, op, payload)))
  {
    ToSignIsSpelled(c, now, op, payload);
    hide StringToSign;
    hide ToSignSpelled;
    hide Canonical;
    hide HexLower;
  }

  /** What the receiver reads is a POST of exactly this payload, for this operation, time and access key. */
  predicate ReadsAs(r: Option<Request>, now: Clock, op: AwsRequest, payload: string, accessKey: string) {
    && r.Some? && r.value.verb == "POST" && r.value.target == "/" && r.value.body == payload && AsksFor(r.value, op)
    && Lookup(r.value.headers, "host") == Some("dynamodb.us-east-1.amazonaws.com;")
    && Lookup(r.value.headers, "x-amz-date").Some? && IsTime(Lookup(r.value.headers, "x-amz-date").value, now)
    && Lookup(r.value.headers, "content-type") == Some("application/x-amz-json-1.0")
    && Credential(r.value) == Some((accessKey, now.date, "us-east-1", "dynamodb"))
  }

  lemma NamesAreSpelled(op: AwsRequest)
    requires !op.Unlisted?
    ensures GetAwsRequestStr(op) == "DynamoDB_20120810." + ApiName(op).value.1
  {
  }

  lemma TargetSpelled(name: string)
    ensures "DynamoDB_20120810." + name == "DynamoDB_" + ("20120810" + ['.'] + name)
  {
    assert "DynamoDB_20120810." == "DynamoDB_" + "20120810" + ['.'];
  }

  lemma NamesHaveNoDot(op: AwsRequest)
    requires !op.Unlisted?
    ensures '.' !in ApiName(op).value.1 && '.' !in "20120810" && ApiName(op).value.0 == "20120810"
  {
  }

  /** The texts of the six operations read as their names; the text of any other reads as none. */
  lemma OperationReads(op: AwsRequest)
    ensures ParseTarget(GetAwsRequestStr(op)) == ApiName(op)
  {
    if op.Unlisted? {
      NotPrefix("DynamoDB_", "UNKNOWN");
    } else {
      NamesAreSpelled(op);
      NamesHaveNoDot(op);
      hide *;
      var name := ApiName(op).value.1;
      TargetSpelled(name);
      TargetReads("20120810", name);
      assert ApiName(op).value == ("20120810", name);
    }
  }

  /**
   The request built for a payload reads, at the receiver, as a POST of exactly that payload for that operation, time
   and access key, and carries the signature the receiver recomputes from what it read, whatever the hash functions are:
   that is so if and only if the access key holds none of the characters that would end it, its field or its line.
   */
  method PutDynamodbHttpRequest(
      c: Crypto, now: Option<Clock>, payload: string, op: AwsRequest, accessKey: string, secret: string,
      ghost secretOf: string -> string)
    returns (rc: int, request: string)
    requires c.Valid() && (now.Some? ==> now.value.Valid())
    requires secretOf(accessKey) == secret
    ensures rc == if now.Some? then 0 else -1
    ensures rc == 0 ==>
      (IsAccessKey(accessKey) <==>
       && ReadsAs(ParseRequest(request), now.value, op, payload, accessKey)
       && SignedBy(c, secretOf, ParseRequest(request).value))
  {
    if now.None? {
      return -1, "";
    }
    var time, payloadLength := now.value, Decimal(|payload|);
    var signature, authorization := Sign(c, time, payload, op, accessKey, secret);
    request := BuildMessage(time, op, payloadLength, authorization, payload);
    rc := 0;
    hide ReadsAs;
    hide SignedBy;
    hide ParseRequest;
    hide IsAccessKey;
    if IsAccessKey(accessKey) {
      MessageReads(c, secretOf, time, op, payload, payloadLength, accessKey, signature, authorization);
    } else if ReadsAs(ParseRequest(request), time, op, payload, accessKey) {
      ReadKeyIsAccessKey(request, time, op, payload, accessKey);
    }
  }

  /** A key that is read back as it was is an access key. */
  lemma ReadKeyIsAccessKey(msg: string, now: Clock, op: AwsRequest, payload: string, accessKey: string)
    requires ReadsAs(ParseRequest(msg), now, op, payload, accessKey)
    ensures IsAccessKey(accessKey)
  {
    hide ParseRequest;
    hide ParseAuthorization;
    hide Lookup;
    ReadValueIsLine(msg, "authorization");
    ReadKeyIsPlain(Lookup(ParseRequest(msg).value.headers, "authorization").value);
  }

  lemma SignatureIsPlain(c: Crypto, secret: string, now: Clock, op: AwsRequest, payload: string, signature: string)
    requires c.Valid() && signature == Expected(c, secret, now, op, payload)
    ensures PlainSignature(signature)
  {
    hide Canonical;
    var key := SigningKey(c, secret, now.date, AWS_REGION, AWS_SERVICE);
    var text := StringToSign(c, now.Full(), now.date, AWS_REGION, AWS_SERVICE, Canonical(c, now, op, payload));
    DigestIsPlain(c, key, text, signature);
  }

  lemma DigestIsPlain(c: Crypto, key: Key, text: string, signature: string)
    requires c.Valid() && signature == HexLower(c.hmac(key, text))
    ensures PlainSignature(signature)
  {
    HexIsPlain(c.hmac(key, text), ',');
    HexIsPlain(c.hmac(key, text), '\r');
    HexIsPlain(c.hmac(key, text), '\n');
    HexIsPlain(c.hmac(key, text), '\0');
    HexIsPlain(c.hmac(key, text), ' ');
  }

  lemma MessageReads(
      c: Crypto, secretOf: string -> string, now: Clock, op: AwsRequest, payload: string, length: string,
      accessKey: string, signature: string, authorization: string)
    requires c.Valid() && now.Valid() && IsAccessKey(accessKey) && length == Decimal(|payload|)
    requires signature == Expected(c, secretOf(accessKey), now, op, payload)
    requires authorization == AuthorizationText(Scope(accessKey, now.date), NAMES_JOINED, signature)
    ensures
      var hs := Headers(now, op, length, authorization);
      var r := ParseRequest("POST" + " " + "/" + " HTTP/1.1\r\n" + Lines(hs) + "\r\n" + payload);
      ReadsAs(r, now, op, payload, accessKey) && SignedBy(c, secretOf, r.value)
  {
    hide *;
    var hs := Headers(now, op, length, authorization);
    assert PlainSignature(signature) by {
      SignatureIsPlain(c, secretOf(accessKey), now, op, payload, signature);
    }
    assert SignedBy(c, secretOf, Request("POST", "/", hs, payload)) by {
      ReceiverAgrees(c, secretOf, now, op, payload, accessKey, signature, authorization);
    }
    assert PlainValue(authorization) by {
      AuthorizationIsPlain(accessKey, now, signature);
    }
    MessageParses(now, op, authorization, length, payload);
    assert ReadsAs(Some(Request("POST", "/", hs, payload)), now, op, payload, accessKey) by {
      FieldsRead(now, op, length, accessKey, signature, authorization, payload);
    }
  }

  lemma FullIsTime(now: Clock)
    requires now.Valid()
    ensures IsTime(now.Full(), now)
  {
  }

  lemma HostSpelled()
    ensures AWS_HOST + ";" == "dynamodb.us-east-1.amazonaws.com;"
  {
  }

  lemma FieldsRead(
      now: Clock, op: AwsRequest, length: string, accessKey: string, signature: string, authorization: string,
      payload: string)
    requires now.Valid() && IsAccessKey(accessKey) && PlainSignature(signature)
    requires authorization == AuthorizationText(Scope(accessKey, now.date), NAMES_JOINED, signature)
    ensures ReadsAs(Some(Request("POST", "/", Headers(now, op, length, authorization), payload)), now, op, payload,
                    accessKey)
  {
    hide Headers;
    hide AuthorizationText;
    hide ParseAuthorization;
    hide Lookup;
    hide ParseTarget;
    hide GetAwsRequestStr;
    HeaderValues(now, op, length, authorization);
    AuthorizationParses(accessKey, now, signature);
    OperationReads(op);
    FullIsTime(now);
    HostSpelled();
    hide IsTime;
    hide Clock.Full;
    hide Clock.Valid;
    hide ApiName;
  }

  lemma MessageParses(now: Clock, op: AwsRequest, authorization: string, length: string, payload: string)
    requires now.Valid() && PlainValue(authorization) && length == Decimal(|payload|)
    ensures var hs := Headers(now, op, length, authorization);
      ParseRequest("POST" + " " + "/" + " HTTP/1.1\r\n" + Lines(hs) + "\r\n" + payload) ==
      Some(Request("POST", "/", hs, payload))
  {
    hide Headers;
    hide ParseRequest;
    hide Lookup;
    hide Clock.Valid;
    hide Decimal;
    assert AllPlain(Headers(now, op, length, authorization)) by {
      HeadersPlain(now, op, length, authorization);
    }
    assert Lookup(Headers(now, op, length, authorization), "content-length") == Some(length) by {
      HeaderValues(now, op, length, authorization);
    }
    hide *;
    PostParses(Headers(now, op, length, authorization), payload);
  }

  lemma PostParses(hs: seq<Header>, payload: string)
    requires AllPlain(hs) && Lookup(hs, "content-length") == Some(Decimal(|payload|))
    ensures ParseRequest("POST" + " " + "/" + " HTTP/1.1\r\n" + Lines(hs) + "\r\n" + payload) ==
      Some(Request("POST", "/", hs, payload))
  {
    ParsePrinted("POST", "/", hs, payload);
  }
}
