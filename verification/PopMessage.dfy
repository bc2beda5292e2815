/** Request-bound proof of possession: the signed bytes and their verification. */
module PopMessage {
  import opened Text
  import opened Json
  import JsonReader

  datatype Operation = Operation(resource: string, action: string)

  /** Everything a workload key signs for one request. */
  datatype Request = Request(
    keyhash: string, challenge: string, htm: string, htu: string, ath: string, iat: int, jti: string,
    operation: Option<Operation>)

  /** A proof as a caller presents it. */
  datatype PopProof = PopProof(
    challenge: string, signature: string, pubkeyPem: string,
    htm: string, htu: string, ath: string, iat: int, jti: string)

  /**
   * The foreign functions the checks rely on: `str.upper`, the thumbprint of a PEM (none when the PEM
   * is not a readable Ed25519 key), and signature verification (false for malformed base64 as well).
   */
  datatype Host = Host(
    upper: string -> string,
    thumbprint: string -> Option<string>,
    verifies: (string, string, string) -> bool)

  /** The members of a signed payload other than the operation. */
  datatype Member = Ath | Cnf | Htm | Htu | Iat | Jti | Nonce | Typ

  function Name(m: Member): string {
    match m
    case Ath => "ath" case Cnf => "cnf" case Htm => "htm" case Htu => "htu"
    case Iat => "iat" case Jti => "jti" case Nonce => "nonce" case Typ => "typ"
  }

  function Content(upper: string -> string, r: Request, m: Member): Json {
    match m
    case Ath => JStr(r.ath)
    case Cnf => JStr(r.keyhash)
    case Htm => JStr(upper(r.htm))
    case Htu => JStr(r.htu)
    case Iat => JInt(r.iat)
    case Jti => JStr(r.jti)
    case Nonce => JStr(r.challenge)
    case Typ => JStr("clayseal-pop+jwt")
  }

  function Payload(upper: string -> string, r: Request): map<string, Json> {
    var base := map[
      "ath" := Content(upper, r, Ath), "cnf" := Content(upper, r, Cnf),
      "htm" := Content(upper, r, Htm), "htu" := Content(upper, r, Htu),
      "iat" := Content(upper, r, Iat), "jti" := Content(upper, r, Jti),
      "nonce" := Content(upper, r, Nonce), "typ" := Content(upper, r, Typ)];
    match r.operation
    case None => base
    case Some(op) => base["operation" := OperationJson(op)]
  }

  function OperationJson(op: Operation): Json {
    JObj(map["resource" := JStr(op.resource), "action" := JStr(op.action)])
  }

  ghost function Message(upper: string -> string, r: Request): string {
    Encode(JObj(Payload(upper, r)))
  }

  /** The same request up to the letter case of the method, which is upper-cased before signing. */
  predicate SameRequest(upper: string -> string, a: Request, b: Request) {
    && a.keyhash == b.keyhash && a.challenge == b.challenge && upper(a.htm) == upper(b.htm)
    && a.htu == b.htu && a.ath == b.ath && a.iat == b.iat && a.jti == b.jti && a.operation == b.operation
  }

  /** `p` holds the members that are signed for `r`. */
  ghost predicate Describes(upper: string -> string, r: Request, p: map<string, Json>) {
    && (forall m: Member :: Name(m) in p && p[Name(m)] == Content(upper, r, m))
    && ("operation" in p <==> r.operation.Some?)
    && (r.operation.Some? ==> p["operation"] == OperationJson(r.operation.value))
  }

  lemma PayloadDescribes(upper: string -> string, r: Request)
    ensures Describes(upper, r, Payload(upper, r))
  {
    var p := Payload(upper, r);
    forall m: Member ensures Name(m) in p && p[Name(m)] == Content(upper, r, m) {
      match m { case Ath => case Cnf => case Htm => case Htu => case Iat => case Jti => case Nonce => case Typ => }
    }
  }

  lemma DescribedOnce(upper: string -> string, a: Request, b: Request, p: map<string, Json>)
    requires Describes(upper, a, p) && Describes(upper, b, p)
    ensures SameRequest(upper, a, b)
  {
    assert forall m: Member :: Content(upper, a, m) == p[Name(m)] == Content(upper, b, m);
    assert Content(upper, a, Ath) == Content(upper, b, Ath) && Content(upper, a, Cnf) == Content(upper, b, Cnf);
    assert Content(upper, a, Htm) == Content(upper, b, Htm) && Content(upper, a, Htu) == Content(upper, b, Htu);
    assert Content(upper, a, Iat) == Content(upper, b, Iat) && Content(upper, a, Jti) == Content(upper, b, Jti);
    assert Content(upper, a, Nonce) == Content(upper, b, Nonce);
    if a.operation.Some? {
      OperationJsonInjective(a.operation.value, b.operation.value);
    }
  }

  lemma OperationJsonInjective(a: Operation, b: Operation)
    requires OperationJson(a) == OperationJson(b)
    ensures a == b
  {
    var f, g := OperationJson(a).fields, OperationJson(b).fields;
    assert f["resource"] == g["resource"] && f["action"] == g["action"];
  }

  lemma SamePayload(upper: string -> string, a: Request, b: Request, p: map<string, Json>, q: map<string, Json>)
    requires Describes(upper, a, p) && Describes(upper, b, q) && Encode(JObj(p)) == Encode(JObj(q))
    ensures SameRequest(upper, a, b)
  {
    CanonicalJsonInjective(JObj(p), JObj(q));
    DescribedOnce(upper, a, b, p);
  }

  lemma SameContent(upper: string -> string, a: Request, b: Request, m: Member)
    requires SameRequest(upper, a, b)
    ensures Content(upper, a, m) == Content(upper, b, m)
  {
  }

  lemma SameRequestSamePayload(upper: string -> string, a: Request, b: Request)
    requires SameRequest(upper, a, b)
    ensures Payload(upper, a) == Payload(upper, b)
  {
    forall m: Member ensures Content(upper, a, m) == Content(upper, b, m) {
      SameContent(upper, a, b, m);
    }
  }

  /** The signed bytes determine the request, including whether an operation is bound at all. */
  lemma MessageInjective(upper: string -> string, a: Request, b: Request)
    ensures Message(upper, a) == Message(upper, b) <==> SameRequest(upper, a, b)
  {
    if Message(upper, a) == Message(upper, b) {
      PayloadDescribes(upper, a);
      PayloadDescribes(upper, b);
      SamePayload(upper, a, b, Payload(upper, a), Payload(upper, b));
    }
    if SameRequest(upper, a, b) {
      SameRequestSamePayload(upper, a, b);
    }
  }

  /** A reader of the signed bytes finds each member under its name, and the operation when there is one. */
  lemma MessageReads(upper: string -> string, r: Request) returns (p: map<string, Json>)
    ensures JsonReader.ReadValue(Message(upper, r)) == Some((JObj(p), ""))
    ensures HoldsRequest(upper, r, p)
  {
    p := Payload(upper, r);
    PayloadKeys(upper, r);
    PayloadMembers(upper, r);
    JsonReader.CanonicalJsonReads(JObj(p));
  }

  predicate HasKeys(r: Request, p: map<string, Json>) {
    p.Keys == {"ath", "cnf", "htm", "htu", "iat", "jti", "nonce", "typ"}
      + (if r.operation.Some? then {"operation"} else {})
  }

  /** `p` has the members of a signed request and no others. */
  predicate HoldsRequest(upper: string -> string, r: Request, p: map<string, Json>) {
    && HasKeys(r, p)
    && p["ath"] == JStr(r.ath) && p["cnf"] == JStr(r.keyhash) && p["nonce"] == JStr(r.challenge)
    && p["htm"] == JStr(upper(r.htm)) && p["htu"] == JStr(r.htu)
    && p["iat"] == JInt(r.iat) && p["jti"] == JStr(r.jti) && p["typ"] == JStr("clayseal-pop+jwt")
    && (r.operation.Some? ==> OperationRead(p["operation"], r.operation.value))
  }

  lemma PayloadKeys(upper: string -> string, r: Request)
    ensures HasKeys(r, Payload(upper, r))
  {
  }

  lemma PayloadMembers(upper: string -> string, r: Request)
    requires HasKeys(r, Payload(upper, r))
    ensures HoldsRequest(upper, r, Payload(upper, r))
  {
    var p := Payload(upper, r);
    PayloadDescribes(upper, r);
    assert p[Name(Ath)] == Content(upper, r, Ath) && p[Name(Cnf)] == Content(upper, r, Cnf);
    assert p[Name(Htm)] == Content(upper, r, Htm) && p[Name(Htu)] == Content(upper, r, Htu);
    assert p[Name(Iat)] == Content(upper, r, Iat) && p[Name(Jti)] == Content(upper, r, Jti);
    assert p[Name(Nonce)] == Content(upper, r, Nonce) && p[Name(Typ)] == Content(upper, r, Typ);
  }

  predicate OperationRead(j: Json, op: Operation) {
    && j.JObj? && j.fields.Keys == {"resource", "action"}
    && j.fields["resource"] == JStr(op.resource) && j.fields["action"] == JStr(op.action)
  }

  /** Issued at most 30 seconds ahead of `now` and at most `maxAge` seconds before it. */
  predicate Fresh(iat: int, now: int, maxAge: int) {
    iat <= now + 30 && now - iat <= maxAge
  }

  /** `verify_request_pop`. */
  ghost predicate VerifyRequestPop(
      h: Host, keyhash: string, pop: PopProof, operation: Option<Operation>,
      expectedHtm: Option<string>, expectedHtu: Option<string>, expectedAth: Option<string>,
      maxAge: int, now: int)
  {
    && pop.jti != "" && pop.htm != "" && pop.htu != "" && pop.ath != ""
    && (expectedHtm.Some? ==> h.upper(pop.htm) == h.upper(expectedHtm.value))
    && (expectedHtu.Some? ==> pop.htu == expectedHtu.value)
    && (expectedAth.Some? ==> pop.ath == expectedAth.value)
    && Fresh(pop.iat, now, maxAge)
    && h.thumbprint(pop.pubkeyPem) == Some(keyhash)
    && h.verifies(pop.pubkeyPem,
         Message(h.upper, Request(keyhash, pop.challenge, pop.htm, pop.htu, pop.ath, pop.iat, pop.jti, operation)),
         pop.signature)
  }

  /** Signatures are ideal: a key's signature verifies only over the message of a request it signed. */
  ghost predicate Unforgeable(h: Host, signed: set<(string, Request)>) {
    forall pem, m, sig :: h.verifies(pem, m, sig) ==>
      exists r :: (pem, r) in signed && m == Message(h.upper, r)
  }

  /**
   * An accepted proof was signed by the presented key for exactly the challenge, method, endpoint,
   * token, time, proof id and operation that the verifier checks it against.
   */
  lemma AcceptedProofWasSignedForThisRequest(
      h: Host, signed: set<(string, Request)>, keyhash: string, pop: PopProof, operation: Option<Operation>,
      htm: string, htu: string, ath: string, maxAge: int, now: int)
    requires Unforgeable(h, signed)
    requires VerifyRequestPop(h, keyhash, pop, operation, Some(htm), Some(htu), Some(ath), maxAge, now)
    ensures exists r ::
      && (pop.pubkeyPem, r) in signed
      && SameRequest(h.upper, r, Request(keyhash, pop.challenge, htm, htu, ath, pop.iat, pop.jti, operation))
      && now - maxAge <= r.iat <= now + 30
  {
    var asked := Request(keyhash, pop.challenge, pop.htm, pop.htu, pop.ath, pop.iat, pop.jti, operation);
    var r :| (pop.pubkeyPem, r) in signed && Message(h.upper, asked) == Message(h.upper, r);
    MessageInjective(h.upper, asked, r);
  }

  /** A proof for one operation never passes for another, nor for an operation-free check. */
  lemma ProofBindsOperation(
      h: Host, pem: string, r: Request, keyhash: string, pop: PopProof, operation: Option<Operation>, now: int)
    requires Unforgeable(h, {(pem, r)})
    requires VerifyRequestPop(h, keyhash, pop, operation, None, None, None, 300, now)
    ensures pop.pubkeyPem == pem && operation == r.operation && pop.challenge == r.challenge && pop.jti == r.jti
  {
    AcceptedProofWasSignedForThisRequest(
      h, {(pem, r)}, keyhash, pop, operation, pop.htm, pop.htu, pop.ath, 300, now);
  }

  // ---- The JavaScript verifier ----

  /** One character inside a string, as `JSON.stringify` writes it. */
  function JsEscapeChar(c: char): string {
    if c == '\"' then "\\\""
    else if c == '\\' then "\\\\"
    else if c == '\n' then "\\n"
    else if c == '\r' then "\\r"
    else if c == '\t' then "\\t"
    else if c == '\U{0c}' then "\\f"
    else if c == '\U{08}' then "\\b"
    else if c < ' ' then "\\u" + Hex4(c as int)
    else [c]
  }

  function JsEscape(s: string): string {
    if s == "" then "" else JsEscapeChar(s[0]) + JsEscape(s[1..])
  }

  function JsQuote(s: string): string {
    "\"" + JsEscape(s) + "\""
  }

  /** A string or number, as `JSON.stringify` writes it. */
  function JsScalar(j: Json): string
    requires j.JStr? || j.JInt?
  {
    if j.JInt? then Decimal(j.i) else JsQuote(j.s)
  }

  /** An object literal is written in the order of its members. */
  function JsMembers(upper: string -> string, r: Request, ms: seq<Member>, sep: string): string {
    if ms == [] then "}"
    else
      sep + (JsQuote(Name(ms[0])) + (":" + (JsScalar(Content(upper, r, ms[0])) + JsMembers(upper, r, ms[1..], ","))))
  }

  /** The members of the object literal in `popMessage`, in the order in which they stand there. */
  const JS_LITERAL: seq<Member> := [Ath, Cnf, Htm, Htu, Iat, Jti, Nonce, Typ]

  /** `popMessage` in js/clayseal-verify; the signature covers no operation. */
  function JsMessage(upper: string -> string, r: Request): string {
    "{" + JsMembers(upper, r, JS_LITERAL, "")
  }

  function Names(ms: seq<Member>): seq<string> {
    if ms == [] then [] else [Name(ms[0])] + Names(ms[1..])
  }

  /** U+0000 to U+007E. */
  predicate Plain(s: string) {
    forall c :: c in s ==> c <= '~'
  }

  lemma {:induction false} EscapesAgree(s: string)
    requires Plain(s)
    ensures JsEscape(s) == Escape(s)
  {
    if s != "" {
      assert s[0] in s;
      assert forall c :: c in s[1..] ==> c in s;
      EscapesAgree(s[1..]);
    }
  }

  lemma {:induction false} JsKeepsLargeCharacters(s: string, c: char)
    requires c in s && c > '~'
    ensures c in JsEscape(s)
  {
    if s[0] == c {
      assert JsEscapeChar(c) == [c];
      assert JsEscape(s)[0] == c;
    } else {
      assert s == [s[0]] + s[1..];
      JsKeepsLargeCharacters(s[1..], c);
    }
  }

  /** Plain members written in key order are written as canonical JSON writes them. */
  lemma {:induction false} MembersAgree(upper: string -> string, r: Request, j: Json, ms: seq<Member>, sep: string)
    requires j.JObj? && Describes(upper, r, j.fields) && AllPlain(upper, r)
    ensures forall k :: k in Names(ms) ==> k in j.fields
    ensures EncodeFields(j, Names(ms), sep) == JsMembers(upper, r, ms, sep)
  {
    if ms != [] {
      MembersAgree(upper, r, j, ms[1..], ",");
      ContentAgrees(upper, r, ms[0]);
      assert Names(ms)[1..] == Names(ms[1..]);
    }
  }

  lemma NamePlain(m: Member)
    ensures Plain(Name(m))
  {
    match m {
      case Ath => case Cnf => case Htm => case Htu => case Iat => case Jti => case Nonce => case Typ =>
    }
  }

  lemma ContentPlain(upper: string -> string, r: Request, m: Member)
    requires AllPlain(upper, r) && m != Iat
    ensures Content(upper, r, m).JStr? && Plain(Content(upper, r, m).s)
  {
  }

  lemma ContentAgrees(upper: string -> string, r: Request, m: Member)
    requires AllPlain(upper, r)
    ensures JsQuote(Name(m)) == Quote(Name(m))
    ensures JsScalar(Content(upper, r, m)) == Encode(Content(upper, r, m))
  {
    NamePlain(m);
    EscapesAgree(Name(m));
    if m != Iat {
      ContentPlain(upper, r, m);
      EscapesAgree(Content(upper, r, m).s);
    }
  }

  lemma {:induction false} MembersPrintable(upper: string -> string, r: Request, ms: seq<Member>, sep: string)
    requires Printable(JsMembers(upper, r, ms, sep))
    ensures forall m :: m in ms ==> Printable(JsScalar(Content(upper, r, m)))
  {
    if ms != [] {
      var tail, all := JsMembers(upper, r, ms[1..], ","), JsMembers(upper, r, ms, sep);
      assert forall c :: c in JsScalar(Content(upper, r, ms[0])) || c in tail ==> c in all;
      MembersPrintable(upper, r, ms[1..], ",");
      assert ms == [ms[0]] + ms[1..];
    }
  }

  lemma PrintableQuoteIsPlain(x: string)
    requires Printable(JsQuote(x))
    ensures Plain(x)
  {
    assert forall c :: c in JsEscape(x) ==> c in JsQuote(x);
    forall c | c in x && c > '~' ensures c in JsEscape(x) {
      JsKeepsLargeCharacters(x, c);
    }
  }

  const KEYS: seq<string> := ["ath", "cnf", "htm", "htu", "iat", "jti", "nonce", "typ"]

  lemma LiteralKeys()
    ensures Names(JS_LITERAL) == KEYS
  {
    NamesOfFour(Iat, Jti, Nonce, Typ);
    NamesOfFour(Ath, Cnf, Htm, Htu);
    NamesConcat([Ath, Cnf, Htm, Htu], [Iat, Jti, Nonce, Typ]);
    assert JS_LITERAL == [Ath, Cnf, Htm, Htu] + [Iat, Jti, Nonce, Typ];
  }

  lemma NamesOfFour(a: Member, b: Member, c: Member, d: Member)
    ensures Names([a, b, c, d]) == [Name(a), Name(b), Name(c), Name(d)]
  {
    assert [a, b, c, d][1..] == [b, c, d] && [b, c, d][1..] == [c, d] && [c, d][1..] == [d] && [d][1..] == [];
    assert Names([d]) == [Name(d)];
    assert Names([c, d]) == [Name(c), Name(d)];
    assert Names([b, c, d]) == [Name(b), Name(c), Name(d)];
  }

  lemma {:induction false} NamesConcat(a: seq<Member>, b: seq<Member>)
    ensures Names(a + b) == Names(a) + Names(b)
  {
    if a == [] {
      assert a + b == b;
    } else {
      NamesConcat(a[1..], b);
      assert (a + b)[1..] == a[1..] + b;
    }
  }

  lemma KeysOrdered()
    ensures Ordered(KEYS)
  {
    assert "htm"[1..] == "tm" && "htu"[1..] == "tu" && "tm"[1..] == "m" && "tu"[1..] == "u";
    assert Before("m", "u");
    assert Before("tm", "tu");
    assert Before("htm", "htu");
    assert Before("ath", "cnf") && Before("cnf", "htm") && Before("htu", "iat");
    assert Before("iat", "jti") && Before("jti", "nonce") && Before("nonce", "typ");
    OrderedFromNeighbours(KEYS);
  }

  /** No signed string of an operation-free request holds a character above U+007E. */
  predicate AllPlain(upper: string -> string, r: Request) {
    Plain(r.ath) && Plain(r.keyhash) && Plain(upper(r.htm)) && Plain(r.htu) && Plain(r.jti) && Plain(r.challenge)
  }

  /**
   * For operation-free proofs the JavaScript verifier rebuilds exactly the bytes the Python signer
   * signed if and only if no signed string holds a character above U+007E.
   */
  lemma JsBytesMatchPythonBytes(upper: string -> string, r: Request)
    requires r.operation == None
    ensures JsMessage(upper, r) == Message(upper, r) <==> AllPlain(upper, r)
  {
    if AllPlain(upper, r) {
      PayloadOrder(upper, r);
      PayloadDescribes(upper, r);
      PlainBytesMatch(upper, r, Payload(upper, r), JS_LITERAL);
    } else if JsMessage(upper, r) == Message(upper, r) {
      EncodePrintable(JObj(Payload(upper, r)));
      PrintableBytesArePlain(upper, r);
    }
  }

  lemma EveryMemberWritten(m: Member)
    ensures m in JS_LITERAL
  {
    match m {
      case Ath => assert JS_LITERAL[0] == m;
      case Cnf => assert JS_LITERAL[1] == m;
      case Htm => assert JS_LITERAL[2] == m;
      case Htu => assert JS_LITERAL[3] == m;
      case Iat => assert JS_LITERAL[4] == m;
      case Jti => assert JS_LITERAL[5] == m;
      case Nonce => assert JS_LITERAL[6] == m;
      case Typ => assert JS_LITERAL[7] == m;
    }
  }

  lemma PrintableTail(head: string, tail: string)
    requires Printable(head + tail)
    ensures Printable(tail)
  {
    assert forall c :: c in tail ==> c in head + tail;
  }

  lemma PrintableMember(upper: string -> string, r: Request, ms: seq<Member>, m: Member)
    requires Printable("{" + JsMembers(upper, r, ms, "")) && m in ms && m != Iat
    ensures Plain(Content(upper, r, m).s)
  {
    PrintableTail("{", JsMembers(upper, r, ms, ""));
    MembersPrintable(upper, r, ms, "");
    PrintableQuoteIsPlain(Content(upper, r, m).s);
  }

  lemma PrintableBytesArePlain(upper: string -> string, r: Request)
    requires Printable(JsMessage(upper, r))
    ensures AllPlain(upper, r)
  {
    forall m: Member | m != Iat ensures Plain(Content(upper, r, m).s) {
      EveryMemberWritten(m);
      PrintableMember(upper, r, JS_LITERAL, m);
    }
    assert Plain(Content(upper, r, Ath).s) && Plain(Content(upper, r, Cnf).s) && Plain(Content(upper, r, Htm).s);
    assert Plain(Content(upper, r, Htu).s) && Plain(Content(upper, r, Jti).s) && Plain(Content(upper, r, Nonce).s);
  }

  lemma PlainBytesMatch(upper: string -> string, r: Request, p: map<string, Json>, ms: seq<Member>)
    requires Describes(upper, r, p) && AllPlain(upper, r) && SortedKeys(p.Keys) == Names(ms)
    ensures Encode(JObj(p)) == "{" + JsMembers(upper, r, ms, "")
  {
    MembersAgree(upper, r, JObj(p), ms, "");
  }

  lemma PayloadOrder(upper: string -> string, r: Request)
    requires r.operation == None
    ensures SortedKeys(Payload(upper, r).Keys) == Names(JS_LITERAL)
  {
    var keys := Payload(upper, r).Keys;
    LiteralKeys();
    KeysOrdered();
    SortedKeysFacts(keys);
    OrderedUnique(SortedKeys(keys), Names(JS_LITERAL));
  }
}
