/**
 The receiving side of AWS Signature Version 4, for requests without a query string: it recomputes the signature
 from the message as it arrived. The hash functions are parameters about which nothing is known.
 */
module SigV4 {
  import opened Types
  import opened Text
  import opened Http

  /** What DynamoDB reads in an x-amz-target field: the version of its interface and the name of an operation. */
  function ParseTarget(value: string): Option<(string, string)> {
    match After(value, "DynamoDB_")
    case None => None
    case Some(rest) =>
      var parts := Split(rest, '.');
      if |parts| == 2 then Some((parts[0], parts[1])) else None
  }

  lemma TargetReads(version: string, name: string)
    requires '.' !in version && '.' !in name
    ensures ParseTarget("DynamoDB_" + (version + ['.'] + name)) == Some((version, name))
  {
    AfterPrefix("DynamoDB_", version + ['.'] + name);
    SplitTwo(version, name, '.');
  }

  datatype Key = TextKey(text: string) | DigestKey(octets: seq<byte>)

  datatype Crypto = Crypto(sha256: string -> seq<byte>, hmac: (Key, string) -> seq<byte>) {
    /** Digests have 32 octets. */
    ghost predicate Valid() {
      forall k, m :: |hmac(k, m)| == 32
    }
  }

  /** The parts of an Authorization field. */
  datatype Authorization = Authorization(
    accessKey: string, date: string, region: string, service: string, names: seq<string>, signature: string)

  function ParseCredential(text: string): Option<seq<string>> {
    var parts := Split(text, '/');
    if |parts| == 5 && parts[4] == "aws4_request" then Some(parts) else None
  }

  function ParseAuthorization(value: string): Option<Authorization> {
    match After(value, "AWS4-HMAC-SHA256 ")
    case None => None
    case Some(rest) =>
      var parts := Split(rest, ',');
      if |parts| != 3 then None
      else
        match (After(Trim(parts[0]), "Credential="), After(Trim(parts[1]), "SignedHeaders="),
               After(Trim(parts[2]), "Signature="))
        case (Some(credential), Some(names), Some(signature)) =>
          (match ParseCredential(credential)
           case None => None
           case Some(p) => Some(Authorization(p[0], p[1], p[2], p[3], Split(names, ';'), signature)))
        case _ => None
  }

  lemma PartsRead(p0: string, p1: string, p2: string, cred: string, names: string, signature: string, p: seq<string>)
    requires ',' !in p0 && ',' !in p1 && ',' !in p2
    requires NoOuterBlanks(p0) && NoOuterBlanks(p1) && NoOuterBlanks(p2)
    requires After(p0, "Credential=") == Some(cred) && After(p1, "SignedHeaders=") == Some(names)
    requires After(p2, "Signature=") == Some(signature)
    requires |p| == 5 && ParseCredential(cred) == Some(p)
    ensures ParseAuthorization("AWS4-HMAC-SHA256 " + (p0 + [','] + (" " + p1 + [','] + (" " + p2)))) ==
            Some(Authorization(p[0], p[1], p[2], p[3], Split(names, ';'), signature))
  {
    AfterPrefix("AWS4-HMAC-SHA256 ", p0 + [','] + (" " + p1 + [','] + (" " + p2)));
    SplitThree(p0, " " + p1, " " + p2, ',');
    TrimOne(p0);
    TrimOne(p1);
    TrimOne(p2);
  }

  /** An Authorization field as its three parts. */
  function AuthorizationText(cred: string, names: string, signature: string): string {
    "AWS4-HMAC-SHA256 "
    + ("Credential=" + cred + [','] + (" " + ("SignedHeaders=" + names) + [','] + (" " + ("Signature=" + signature))))
  }

  lemma AuthorizationTextPlain(cred: string, names: string, signature: string)
    requires OneLine(cred) && OneLine(names) && OneLine(signature) && signature != "" && ' ' !in signature
    ensures OneLine(AuthorizationText(cred, names, signature))
    ensures NoOuterBlanks(AuthorizationText(cred, names, signature))
  {
    AuthorizationTextFree(cred, names, signature, '\r');
    AuthorizationTextFree(cred, names, signature, '\n');
    AuthorizationTextFree(cred, names, signature, '\0');
  }

  lemma AuthorizationTextFree(cred: string, names: string, signature: string, x: char)
    requires x in {'\r', '\n', '\0'} && x !in cred && x !in names && x !in signature
    ensures x !in AuthorizationText(cred, names, signature)
  {
  }

  lemma AuthorizationReads(cred: string, p: seq<string>, names: string, signature: string)
    requires ',' !in cred && ',' !in names && ',' !in signature && |p| == 5 && ParseCredential(cred) == Some(p)
    requires NoOuterBlanks("Credential=" + cred) && NoOuterBlanks(names) && NoOuterBlanks(signature)
    ensures ParseAuthorization(AuthorizationText(cred, names, signature)) ==
            Some(Authorization(p[0], p[1], p[2], p[3], Split(names, ';'), signature))
  {
    hide ParseCredential;
    hide ParseAuthorization;
    hide After;
    hide Split;
    AfterPrefix("Credential=", cred);
    AfterPrefix("SignedHeaders=", names);
    AfterPrefix("Signature=", signature);
    PartsRead("Credential=" + cred, "SignedHeaders=" + names, "Signature=" + signature, cred, names, signature, p);
  }

  /** The line of one signed field. */
  function CanonicalLine(name: string, value: string): string {
    name + ":" + value + "\n"
  }

  /** One line for each name, with the value of that field; None if a field is missing. */
  function CanonicalHeaders(hs: seq<Header>, names: seq<string>): Option<string> {
    if names == [] then Some("")
    else
      var n := |names| - 1;
      match (CanonicalHeaders(hs, names[..n]), Lookup(hs, names[n]))
      case (Some(lines), Some(value)) => Some(lines + CanonicalLine(names[n], value))
      case _ => None
  }

  lemma CanonicalStep(hs: seq<Header>, names: seq<string>, name: string, value: string, lines: string)
    requires CanonicalHeaders(hs, names) == Some(lines) && Lookup(hs, name) == Some(value)
    ensures CanonicalHeaders(hs, names + [name]) == Some(lines + CanonicalLine(name, value))
  {
    assert (names + [name])[..|names|] == names;
  }

  function CanonicalRequest(c: Crypto, r: Request, headers: string, names: seq<string>): string {
    r.verb + "\n" + r.target + "\n" + "" + "\n" + headers + "\n" + Join(names, ';') + "\n" + HexLower(c.sha256(r.body))
  }

  function StringToSign(
      c: Crypto, timestamp: string, date: string, region: string, service: string, canonical: string): string
  {
    "AWS4-HMAC-SHA256" + "\n" + timestamp + "\n" + date + "/" + region + "/" + service + "/" + "aws4_request" + "\n"
    + HexLower(c.sha256(canonical))
  }

  function SigningKey(c: Crypto, secret: string, date: string, region: string, service: string): Key {
    var dated := DigestKey(c.hmac(TextKey("AWS4" + secret), date));
    var regional := DigestKey(c.hmac(dated, region));
    var forService := DigestKey(c.hmac(regional, service));
    DigestKey(c.hmac(forService, "aws4_request"))
  }

  /** Every field that must be signed is: host and each x-amz field. */
  predicate CoversRequired(hs: seq<Header>, names: seq<string>) {
    "host" in names && forall i :: 0 <= i < |hs| && "x-amz-" <= Lower(hs[i].name) ==> Lower(hs[i].name) in names
  }

  /** The signature this message should carry, for the secret of the access key it names. */
  function Recompute(c: Crypto, secretOf: string -> string, r: Request, a: Authorization): Option<string> {
    var names := Sort(a.names);
    match (CanonicalHeaders(r.headers, names), Lookup(r.headers, "x-amz-date"))
    case (Some(headers), Some(timestamp)) =>
      if !CoversRequired(r.headers, names) || !(a.date <= timestamp) then None
      else
        var canonical := CanonicalRequest(c, r, headers, names);
        Some(HexLower(c.hmac(SigningKey(c, secretOf(a.accessKey), a.date, a.region, a.service),
                             StringToSign(c, timestamp, a.date, a.region, a.service, canonical))))
    case _ => None
  }

  /** The request carries the signature recomputed from it. */
  predicate SignedBy(c: Crypto, secretOf: string -> string, r: Request) {
    match Lookup(r.headers, "authorization")
    case None => false
    case Some(value) =>
      match ParseAuthorization(value)
      case None => false
      case Some(a) => Recompute(c, secretOf, r, a) == Some(a.signature)
  }

  /** Access key, date, region and service that the request names. */
  function Credential(r: Request): Option<(string, string, string, string)> {
    match Lookup(r.headers, "authorization")
    case None => None
    case Some(value) =>
      match ParseAuthorization(value)
      case None => None
      case Some(a) => Some((a.accessKey, a.date, a.region, a.service))
  }

  /** The access key that can be read out of an Authorization field. */
  lemma ReadKeyIsPlain(value: string)
    requires ParseAuthorization(value).Some? && OneLine(value)
    ensures var key := ParseAuthorization(value).value.accessKey;
      OneLine(key) && '/' !in key && ',' !in key
  {
    ReadKeyHas(value, ',');
    ReadKeyHas(value, '/');
    ReadKeyHas(value, '\r');
    ReadKeyHas(value, '\n');
    ReadKeyHas(value, '\0');
  }

  /** It holds neither separator, nor anything that the field has not. */
  lemma ReadKeyHas(value: string, x: char)
    requires ParseAuthorization(value).Some? && (x !in value || x == ',' || x == '/')
    ensures x !in ParseAuthorization(value).value.accessKey
  {
    var rest := After(value, "AWS4-HMAC-SHA256 ").value;
    var part := Split(rest, ',')[0];
    var credential := After(Trim(part), "Credential=").value;
    hide Trim;
    if x != '/' {
      SplitFree(rest, ',', x, 0);
      TrimFree(part, x);
    }
    SplitFree(credential, '/', x, 0);
    hide Split;
  }

  /** What a receiver recomputes once the parts of the message are known. */
  lemma RecomputeIs(
      c: Crypto, secretOf: string -> string, r: Request, a: Authorization, value: string, headers: string,
      timestamp: string)
    requires Lookup(r.headers, "authorization") == Some(value) && ParseAuthorization(value) == Some(a)
    requires Sort(a.names) == a.names && CanonicalHeaders(r.headers, a.names) == Some(headers)
    requires Lookup(r.headers, "x-amz-date") == Some(timestamp) && a.date <= timestamp
    requires CoversRequired(r.headers, a.names)
    requires a.signature ==
      HexLower(c.hmac(SigningKey(c, secretOf(a.accessKey), a.date, a.region, a.service),
                      StringToSign(c, timestamp, a.date, a.region, a.service,
                                   CanonicalRequest(c, r, headers, a.names))))
    ensures SignedBy(c, secretOf, r)
  {
  }
}
