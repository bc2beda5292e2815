/** The two decisions of the identity service: validating a credential and authorizing by capability token. */
module Services {
  import opened Text
  import opened Datalog
  import opened Paths
  import Biscuit
  import Challenges
  import PopMessage
  import Scopes

  // ---- The tables ----

  datatype Status = Active | Expired | Revoked

  /** The capability token stored with an agent, and the root key that signed it. */
  datatype Held = Held(kid: string, token: Token)

  datatype Agent = Agent(
    customer: string, status: Status, biscuit: Option<Held>, boundKeyhash: string, expires: int)

  datatype SigningKey = SigningKey(customer: string, supported: bool)

  datatype RootKey = RootKey(customer: string, hex: string)

  datatype Db = Db(
    agents: map<string, Agent>, keys: map<string, SigningKey>, roots: map<string, RootKey>,
    denied: set<(string, string)>)

  // ---- Credentials ----

  /** `jkt` is empty where the claim is missing. */
  datatype Claims = Claims(
    complete: bool, agentId: Option<string>, audience: string, issuerOk: bool, notBefore: int, exp: int, jkt: string)

  datatype Jwt = Jwt(kid: Option<string>, supported: bool, typeOk: bool, claims: Claims)

  /** Parsing of what callers present, and the host functions of proofs and path scopes. */
  datatype Host = Host(
    pop: PopMessage.Host, jwtOf: string -> Option<Jwt>, tokenHash: string -> string,
    biscuitOf: string -> Option<Token>, matches: Matcher)

  /** What each signing key ever signed. Signatures are ideal: nothing else verifies. */
  datatype Signatures = Signatures(jwts: set<(string, Jwt)>, biscuits: set<(string, Biscuit.Grant, string)>)

  /** `t` is `base` with any blocks appended by anyone; their revocation ids come after those of `base`. */
  predicate Extends(t: Token, base: Token) {
    t.authority == base.authority && base.ids <= t.ids
  }

  /** `t` verifies under the root key `hex`: it is a token minted with it, attenuated in whatever way. */
  ghost predicate VerifiesUnder(sigs: Signatures, t: Token, hex: string) {
    exists g, id :: (hex, g, id) in sigs.biscuits && Extends(t, Biscuit.Mint(g, id))
  }

  lemma {:induction false} ChainExtends(g: Biscuit.Grant, id: string, cs: seq<(Biscuit.Caveat, string)>)
    ensures Extends(Biscuit.Chain(g, id, cs), Biscuit.Mint(g, id))
  {
    if cs != [] {
      ChainExtends(g, id, cs[..|cs| - 1]);
    }
  }

  /** Attenuation leaves a token verifiable under the root key that it was minted with. */
  lemma ChainVerifies(
      sigs: Signatures, hex: string, g: Biscuit.Grant, id: string, cs: seq<(Biscuit.Caveat, string)>)
    requires (hex, g, id) in sigs.biscuits
    ensures VerifiesUnder(sigs, Biscuit.Chain(g, id, cs), hex)
  {
    ChainExtends(g, id, cs);
  }

  // ---- Validation ----

  datatype Validation =
    | Malformed | ForeignKey | UnsupportedAlgorithm | WrongType | TokenExpired | BadToken
    | UnknownAgent | AgentRevoked | Unbound | ProofMissing | ProofInvalid | Valid

  /** The outcome of decoding with the tenant's key; `None` is success. */
  ghost function Decode(sigs: Signatures, customer: string, kid: string, j: Jwt, now: int): Option<Validation> {
    if (kid, j) !in sigs.jwts || !j.claims.complete || j.claims.notBefore > now then Some(BadToken)
    else if j.claims.exp <= now then Some(TokenExpired)
    else if !j.claims.issuerOk || j.claims.audience != customer then Some(BadToken)
    else None
  }

  const VALIDATE := PopMessage.Operation("jwt", "validate")

  /** `validate_token`, apart from the bookkeeping that follows `TokenExpired`. */
  ghost function ValidateToken(
      h: Host, db: Db, sigs: Signatures, customer: string, text: string, pop: Option<PopMessage.PopProof>, now: int)
      : Validation
  {
    var j := h.jwtOf(text);
    if j.None? then Malformed
    else ValidateJwt(h, db, sigs, customer, text, j.value, pop, now)
  }

  ghost function ValidateJwt(
      h: Host, db: Db, sigs: Signatures, customer: string, text: string, j: Jwt, pop: Option<PopMessage.PopProof>,
      now: int)
      : Validation
  {
    if j.kid.None? || j.kid.value !in db.keys || db.keys[j.kid.value].customer != customer then ForeignKey
    else if !j.supported || !db.keys[j.kid.value].supported then UnsupportedAlgorithm
    else if !j.typeOk then WrongType
    else if Decode(sigs, customer, j.kid.value, j, now).Some? then Decode(sigs, customer, j.kid.value, j, now).value
    else if j.claims.agentId.None? || j.claims.agentId.value !in db.agents then UnknownAgent
    else
      var agent := db.agents[j.claims.agentId.value];
      var keyhash := ExpectedKeyhash(j.claims, agent);
      if agent.status == Revoked then AgentRevoked
      else if keyhash == "" then Unbound
      else if pop.None? then ProofMissing
      else if PopMessage.VerifyRequestPop(h.pop, keyhash, pop.value, Some(VALIDATE), Some("POST"), Some("/v1/validate"),
                                          Some(h.tokenHash(text)), 300, now) then Valid
      else ProofInvalid
  }

  /** The key hash that a proof must come from: the credential's own, or else the one stored with the agent. */
  function ExpectedKeyhash(claims: Claims, agent: Agent): string {
    if claims.jkt != "" then claims.jkt else agent.boundKeyhash
  }

  /** The credential in force at `now`: signed by a supported key of the tenant for this tenant, and not expired. */
  ghost predicate InForce(db: Db, sigs: Signatures, customer: string, j: Jwt, now: int) {
    && j.kid.Some? && j.kid.value in db.keys && db.keys[j.kid.value] == SigningKey(customer, true)
    && j.supported && j.typeOk && (j.kid.value, j) in sigs.jwts
    && j.claims.complete && j.claims.issuerOk && j.claims.audience == customer
    && j.claims.notBefore <= now < j.claims.exp
  }

  /** The agent of the credential is known, not revoked, and its workload key signed a proof over this call. */
  ghost predicate HeldByAgent(
      h: Host, db: Db, text: string, claims: Claims, pop: Option<PopMessage.PopProof>, now: int)
  {
    && claims.agentId.Some? && claims.agentId.value in db.agents
    && var agent := db.agents[claims.agentId.value];
       var key := if claims.jkt == "" then agent.boundKeyhash else claims.jkt;
       && agent.status != Revoked && key != "" && pop.Some?
       && PopMessage.VerifyRequestPop(
            h.pop, key, pop.value, Some(PopMessage.Operation("jwt", "validate")), Some("POST"), Some("/v1/validate"),
            Some(h.tokenHash(text)), 300, now)
  }

  /** A credential is valid exactly when it is in force and its agent's workload presents it. */
  lemma ValidExactly(
      h: Host, db: Db, sigs: Signatures, customer: string, text: string, pop: Option<PopMessage.PopProof>, now: int)
    ensures ValidateToken(h, db, sigs, customer, text, pop, now) == Valid <==>
      && h.jwtOf(text).Some?
      && InForce(db, sigs, customer, h.jwtOf(text).value, now)
      && HeldByAgent(h, db, text, h.jwtOf(text).value.claims, pop, now)
  {
  }

  /** A credential of the tenant's that would be in force if it had not expired, and one whose agent is revoked. */
  lemma RefusedExactly(
      h: Host, db: Db, sigs: Signatures, customer: string, text: string, pop: Option<PopMessage.PopProof>, now: int)
    ensures ValidateToken(h, db, sigs, customer, text, pop, now) == TokenExpired <==>
      && h.jwtOf(text).Some?
      && var j := h.jwtOf(text).value;
         && j.kid.Some? && j.kid.value in db.keys && db.keys[j.kid.value] == SigningKey(customer, true)
         && j.supported && j.typeOk && (j.kid.value, j) in sigs.jwts && j.claims.complete
         && j.claims.notBefore <= now && j.claims.exp <= now
    ensures ValidateToken(h, db, sigs, customer, text, pop, now) == AgentRevoked <==>
      && h.jwtOf(text).Some? && InForce(db, sigs, customer, h.jwtOf(text).value, now)
      && var agent := h.jwtOf(text).value.claims.agentId;
         agent.Some? && agent.value in db.agents && db.agents[agent.value].status == Revoked
    ensures ValidateToken(h, db, sigs, customer, text, pop, now) == UnknownAgent <==>
      && h.jwtOf(text).Some? && InForce(db, sigs, customer, h.jwtOf(text).value, now)
      && (h.jwtOf(text).value.claims.agentId.Some? ==> h.jwtOf(text).value.claims.agentId.value !in db.agents)
  {
  }

  /** What else a token that can be read is refused for. */
  lemma OtherRefusals(
      h: Host, db: Db, sigs: Signatures, customer: string, text: string, pop: Option<PopMessage.PopProof>, now: int,
      j: Jwt)
    requires h.jwtOf(text) == Some(j)
    ensures var answer := ValidateToken(h, db, sigs, customer, text, pop, now);
      var owned := j.kid.Some? && j.kid.value in db.keys && db.keys[j.kid.value].customer == customer;
      var supported := owned && j.supported && db.keys[j.kid.value].supported;
      var signed := supported && j.typeOk && (j.kid.value, j) in sigs.jwts && j.claims.complete;
      && (answer == ForeignKey <==> !owned)
      && (answer == UnsupportedAlgorithm <==> owned && !supported)
      && (answer == WrongType <==> supported && !j.typeOk)
      && (answer == BadToken <==>
            && supported && j.typeOk
            && (signed && j.claims.notBefore <= now ==>
                  now < j.claims.exp && !(j.claims.issuerOk && j.claims.audience == customer)))
    ensures var answer := ValidateToken(h, db, sigs, customer, text, pop, now);
      answer == Unbound || answer == ProofMissing <==>
        && InForce(db, sigs, customer, j, now) && j.claims.agentId.Some? && j.claims.agentId.value in db.agents
        && var agent := db.agents[j.claims.agentId.value];
           var keyless := j.claims.jkt == "" && agent.boundKeyhash == "";
           agent.status != Revoked && (answer == Unbound <==> keyless) && (keyless || pop.None?)
  {
  }

  // ---- Authorization ----

  datatype Authorization = NoRootKey | Unverifiable | TokenRevoked | OwnerRevoked | Decided(decision: Biscuit.Decision)

  /** `token_has_revocation`. */
  predicate HasRevocation(db: Db, customer: string, t: Token) {
    exists id :: id in t.ids && (customer, id) in db.denied
  }

  /** The token's authority block names `agent`. */
  predicate Names(t: Token, agent: string) {
    Fact(AgentId, [Str(agent)]) in FactsOf(t.authority)
  }

  predicate OwnerIsRevoked(db: Db, t: Token) {
    exists a :: a in db.agents && Names(t, a) && db.agents[a].status == Revoked
  }

  /** What one root key makes of the token: `None` where it does not verify the token. */
  ghost function Attempt(
      h: Host, db: Db, sigs: Signatures, customer: string, text: string, call: Biscuit.Call, hex: string)
      : Option<Authorization>
  {
    var t := h.biscuitOf(text);
    if t.None? || !VerifiesUnder(sigs, t.value, hex) then None
    else if HasRevocation(db, customer, t.value) then Some(TokenRevoked)
    else if OwnerIsRevoked(db, t.value) then Some(OwnerRevoked)
    else Some(Decided(Biscuit.AuthorizeBiscuit(h.pop, h.matches, t.value, call)))
  }

  /** The first attempt that does not fail with an unverifiable token. */
  function FirstAnswer<T>(hexes: seq<string>, attempt: string -> Option<T>): Option<T> {
    if hexes == [] then None
    else if attempt(hexes[0]).Some? then attempt(hexes[0])
    else FirstAnswer(hexes[1..], attempt)
  }

  /** The loop of `verify_capability` over a tenant's root keys. */
  method TryRootKeys<T>(hexes: seq<string>, attempt: string -> Option<T>) returns (answer: Option<T>)
    ensures answer == FirstAnswer(hexes, attempt)
    ensures answer.None? <==> forall hex :: hex in hexes ==> attempt(hex).None?
  {
    var i := 0;
    while i < |hexes|
      invariant 0 <= i <= |hexes|
      invariant FirstAnswer(hexes, attempt) == FirstAnswer(hexes[i..], attempt)
      invariant forall k :: 0 <= k < i ==> attempt(hexes[k]).None?
    {
      answer := attempt(hexes[i]);
      if answer.Some? {
        return answer;
      }
      assert hexes[i..][1..] == hexes[i + 1..];
      i := i + 1;
    }
    return None;
  }

  /** `hexes` are the public keys of a tenant's roots, active or retired, in some order. */
  ghost predicate RootsOf(db: Db, customer: string, hexes: seq<string>) {
    forall hex :: hex in hexes <==> exists kid :: kid in db.roots && db.roots[kid] == RootKey(customer, hex)
  }

  ghost function VerifyCapability(
      h: Host, db: Db, sigs: Signatures, customer: string, hexes: seq<string>, text: string, call: Biscuit.Call)
      : Authorization
  {
    if hexes == [] then NoRootKey
    else match FirstAnswer(hexes, hex => Attempt(h, db, sigs, customer, text, call, hex))
      case None => Unverifiable
      case Some(a) => a
  }

  lemma {:induction false} AnswerComesFromOne<T>(hexes: seq<string>, attempt: string -> Option<T>)
    requires FirstAnswer(hexes, attempt).Some?
    ensures exists hex :: hex in hexes && FirstAnswer(hexes, attempt) == attempt(hex)
  {
    if attempt(hexes[0]).None? {
      AnswerComesFromOne(hexes[1..], attempt);
    }
  }

  lemma {:induction false} NoAnswerMeansNone<T>(hexes: seq<string>, attempt: string -> Option<T>)
    ensures FirstAnswer(hexes, attempt).None? <==> forall hex :: hex in hexes ==> attempt(hex).None?
  {
    if hexes != [] {
      NoAnswerMeansNone(hexes[1..], attempt);
      assert hexes[0] in hexes && forall hex :: hex in hexes ==> hex == hexes[0] || hex in hexes[1..];
    }
  }

  lemma SameFirstAnswer<T>(a: seq<string>, b: seq<string>, attempt: string -> Option<T>)
    requires forall hex :: hex in a <==> hex in b
    requires forall x, y :: x in a && y in a && attempt(x).Some? && attempt(y).Some? ==> x == y
    ensures FirstAnswer(a, attempt) == FirstAnswer(b, attempt)
  {
    NoAnswerMeansNone(a, attempt);
    NoAnswerMeansNone(b, attempt);
    if FirstAnswer(a, attempt).Some? {
      AnswerComesFromOne(a, attempt);
      AnswerComesFromOne(b, attempt);
    }
  }

  ghost predicate OneVerifier(sigs: Signatures, t: Token, hexes: seq<string>) {
    forall x, y :: x in hexes && y in hexes && VerifiesUnder(sigs, t, x) && VerifiesUnder(sigs, t, y) ==> x == y
  }

  lemma EmptyTogether(a: seq<string>, b: seq<string>)
    requires forall hex :: hex in a <==> hex in b
    ensures a == [] <==> b == []
  {
    if a != [] {
      assert a[0] in b;
    }
    if b != [] {
      assert b[0] in a;
    }
  }

  /** When at most one root key verifies the token, the order in which keys are tried does not matter. */
  lemma RootOrderDoesNotMatter(
      h: Host, db: Db, sigs: Signatures, customer: string, a: seq<string>, b: seq<string>, text: string,
      call: Biscuit.Call)
    requires forall hex :: hex in a <==> hex in b
    requires h.biscuitOf(text).Some? ==> OneVerifier(sigs, h.biscuitOf(text).value, a)
    ensures VerifyCapability(h, db, sigs, customer, a, text, call)
         == VerifyCapability(h, db, sigs, customer, b, text, call)
  {
    var attempt := hex => Attempt(h, db, sigs, customer, text, call, hex);
    SameFirstAnswer(a, b, attempt);
    EmptyTogether(a, b);
  }

  /** Some root key tried verifies the token. */
  ghost predicate SomeVerifies(sigs: Signatures, t: Token, hexes: seq<string>) {
    exists hex :: hex in hexes && VerifiesUnder(sigs, t, hex)
  }

  /** Every root key that verifies a token leads to the same answer, and the others to none. */
  lemma OneAnswerPerToken(
      h: Host, db: Db, sigs: Signatures, customer: string, hexes: seq<string>, text: string, call: Biscuit.Call,
      t: Token)
    requires h.biscuitOf(text) == Some(t)
    ensures !SomeVerifies(sigs, t, hexes) ==>
      VerifyCapability(h, db, sigs, customer, hexes, text, call) == if hexes == [] then NoRootKey else Unverifiable
    ensures SomeVerifies(sigs, t, hexes) ==>
      VerifyCapability(h, db, sigs, customer, hexes, text, call) ==
        if HasRevocation(db, customer, t) then TokenRevoked
        else if OwnerIsRevoked(db, t) then OwnerRevoked
        else Decided(Biscuit.AuthorizeBiscuit(h.pop, h.matches, t, call))
  {
    var attempt := hex => Attempt(h, db, sigs, customer, text, call, hex);
    NoAnswerMeansNone(hexes, attempt);
    if FirstAnswer(hexes, attempt).Some? {
      AnswerComesFromOne(hexes, attempt);
    }
    if SomeVerifies(sigs, t, hexes) {
      var hex :| hex in hexes && VerifiesUnder(sigs, t, hex);
      assert attempt(hex).Some?;
    }
  }

  /** The deny list names a block of the chain: the minted one or a caveat's. */
  predicate DeniesBlock(db: Db, customer: string, id: string, cs: seq<(Biscuit.Caveat, string)>) {
    (customer, id) in db.denied || exists i :: 0 <= i < |cs| && (customer, cs[i].1) in db.denied
  }

  lemma ChainRevocation(db: Db, customer: string, g: Biscuit.Grant, id: string, cs: seq<(Biscuit.Caveat, string)>)
    ensures HasRevocation(db, customer, Biscuit.Chain(g, id, cs)) <==> DeniesBlock(db, customer, id, cs)
    ensures OwnerIsRevoked(db, Biscuit.Chain(g, id, cs))
       <==> g.agentId in db.agents && db.agents[g.agentId].status == Revoked
  {
    forall x ensures x in Biscuit.Chain(g, id, cs).ids <==> x == id || exists i :: 0 <= i < |cs| && cs[i].1 == x {
      Biscuit.ChainIds(g, id, cs, x);
    }
    forall a ensures Names(Biscuit.Chain(g, id, cs), a) <==> a == g.agentId {
      Biscuit.ChainAgent(g, id, cs, a);
    }
    if DeniesBlock(db, customer, id, cs) && (customer, id) !in db.denied {
      var i :| 0 <= i < |cs| && (customer, cs[i].1) in db.denied;
      assert cs[i].1 in Biscuit.Chain(g, id, cs).ids;
    }
  }

  /**
   * The answer for any chain of caveats: a denied block comes first, then a revoked agent, and otherwise
   * the call is allowed exactly when the path gate, the proof, the expiries, the grant and every block's
   * list permit it.
   */
  lemma CapabilityClosedForm(
      h: Host, db: Db, sigs: Signatures, customer: string, hexes: seq<string>, text: string, call: Biscuit.Call,
      g: Biscuit.Grant, id: string, cs: seq<(Biscuit.Caveat, string)>)
    requires h.biscuitOf(text) == Some(Biscuit.Chain(g, id, cs))
    ensures var answer := VerifyCapability(h, db, sigs, customer, hexes, text, call);
      var verified := SomeVerifies(sigs, Biscuit.Chain(g, id, cs), hexes);
      var denied := (customer, id) in db.denied || exists i :: 0 <= i < |cs| && (customer, cs[i].1) in db.denied;
      var revoked := g.agentId in db.agents && db.agents[g.agentId].status == Revoked;
      && (answer == TokenRevoked <==> verified && denied)
      && (answer == OwnerRevoked <==> verified && !denied && revoked)
      && (answer == Decided(Biscuit.Allowed) <==>
            && verified && !denied && !revoked
            && Biscuit.PathPermitted(h.matches, cs, call.filePath)
            && Biscuit.ChainPermits(g, cs, call.operation, call.now, Biscuit.ProofPermits(h.pop, g, call)))
  {
    OneAnswerPerToken(h, db, sigs, customer, hexes, text, call, Biscuit.Chain(g, id, cs));
    ChainRevocation(db, customer, g, id, cs);
    Biscuit.AuthorizeClosedForm(h.pop, h.matches, g, id, cs, call);
  }

  /** The call that the endpoint makes of a request. */
  function ServerCall(
      h: Host, text: string, operation: PopMessage.Operation, pop: Option<PopMessage.PopProof>, popClock: int, now: int)
      : Biscuit.Call
  {
    Biscuit.Call(operation, None, pop, true, Some("POST"), Some("/v1/authorize"), h.tokenHash(text), popClock, now)
  }

  /** The server presents no path, so its answer on any chain of tokens ignores every path pattern. */
  lemma ServerIgnoresPathScope(
      h: Host, db: Db, sigs: Signatures, customer: string, hexes: seq<string>, text: string,
      g: Biscuit.Grant, id: string, cs: seq<(Biscuit.Caveat, string)>,
      operation: PopMessage.Operation, pop: Option<PopMessage.PopProof>, popClock: int, now: int)
    requires h.biscuitOf(text) == Some(Biscuit.Chain(g, id, cs))
    ensures var call := ServerCall(h, text, operation, pop, popClock, now);
      VerifyCapability(h, db, sigs, customer, hexes, text, call) == Decided(Biscuit.Allowed) <==>
        && SomeVerifies(sigs, Biscuit.Chain(g, id, cs), hexes) && !DeniesBlock(db, customer, id, cs)
        && (g.agentId in db.agents ==> db.agents[g.agentId].status != Revoked)
        && now <= g.expires && Biscuit.Granted(Scopes.Normalize(g.capabilities), operation)
        && (forall i :: 0 <= i < |cs| ==> Biscuit.CaveatPermits(cs[i].0, operation, now))
        && pop.Some? && h.pop.thumbprint(pop.value.pubkeyPem) == Some(g.boundKey)
        && PopMessage.VerifyRequestPop(
             h.pop, g.boundKey, pop.value, Some(operation), Some("POST"), Some("/v1/authorize"),
             Some(h.tokenHash(text)), 300, popClock)
  {
    CapabilityClosedForm(
      h, db, sigs, customer, hexes, text, ServerCall(h, text, operation, pop, popClock, now), g, id, cs);
  }

  // ---- Every positive answer rests on a verified proof ----

  /** The tables, the clocks and the order of root keys at the moment of a decision. */
  datatype Moment = Moment(db: Db, sigs: Signatures, hexes: seq<string>, popClock: int, now: int)

  ghost predicate Grants(h: Host, r: Challenges.Request, m: Moment) {
    match r.endpoint
    case ValidateEndpoint => ValidateToken(h, m.db, m.sigs, r.customer, r.token, r.pop, m.now) == Valid
    case AuthorizeEndpoint =>
      VerifyCapability(h, m.db, m.sigs, r.customer, m.hexes, r.token,
                       ServerCall(h, r.token, r.operation, r.pop, m.popClock, m.now))
      == Decided(Biscuit.Allowed)
  }

  function Path(e: Challenges.Endpoint): string {
    if e == Challenges.ValidateEndpoint then "/v1/validate" else "/v1/authorize"
  }

  ghost predicate CoversAs(h: Host, r: Challenges.Request, pop: PopMessage.PopProof, keyhash: string, now: int) {
    PopMessage.VerifyRequestPop(
      h.pop, keyhash, pop,
      Some(if r.endpoint == Challenges.ValidateEndpoint then PopMessage.Operation("jwt", "validate") else r.operation),
      Some("POST"), Some(Path(r.endpoint)), Some(h.tokenHash(r.token)), 300, now)
  }

  /** The key that the presented token is bound to, as the tables and signatures stand at the moment. */
  ghost predicate HolderKey(h: Host, r: Challenges.Request, m: Moment, keyhash: string) {
    match r.endpoint
    case ValidateEndpoint =>
      && h.jwtOf(r.token).Some?
      && var claims := h.jwtOf(r.token).value.claims;
         claims.agentId.Some? && claims.agentId.value in m.db.agents
         && keyhash == ExpectedKeyhash(claims, m.db.agents[claims.agentId.value])
    case AuthorizeEndpoint =>
      && h.biscuitOf(r.token).Some?
      && exists hex, g, id :: hex in m.hexes && (hex, g, id) in m.sigs.biscuits
           && Extends(h.biscuitOf(r.token).value, Biscuit.Mint(g, id)) && keyhash == g.boundKey
  }

  /** The clock that the proof is checked against. */
  function ProofClock(e: Challenges.Endpoint, m: Moment): int {
    if e == Challenges.ValidateEndpoint then m.now else m.popClock
  }

  /**
   * `pop` is a proof over this endpoint, this token and the operation asked for, by the key the token is
   * bound to, and fresh when the request is decided.
   */
  ghost predicate Covers(h: Host, r: Challenges.Request, m: Moment, pop: PopMessage.PopProof) {
    exists keyhash :: HolderKey(h, r, m, keyhash) && CoversAs(h, r, pop, keyhash, ProofClock(r.endpoint, m))
  }

  /** No minted token, attenuated in whatever way, allows anything without a valid proof. */
  lemma NoProofNoAccess(
      t: Token, g: Biscuit.Grant, id: string, op: PopMessage.Operation, now: int, validPop: bool)
    requires Extends(t, Biscuit.Mint(g, id)) && Biscuit.LogicAllows(t, op, now, validPop)
    ensures validPop
  {
    Biscuit.MintedLogic(g, id, op, now, validPop);
  }

  lemma AllowedTokenHasProof(h: Host, t: Token, g: Biscuit.Grant, id: string, call: Biscuit.Call)
    requires Extends(t, Biscuit.Mint(g, id)) && Biscuit.AuthorizeBiscuit(h.pop, h.matches, t, call) == Biscuit.Allowed
    ensures Biscuit.ProofVerdict(h.pop, t, call) == Biscuit.Allowed
  {
    var verdict := Biscuit.ProofVerdict(h.pop, t, call);
    if verdict != Biscuit.Allowed && Biscuit.LogicAllows(t, call.operation, call.now, false) {
      NoProofNoAccess(t, g, id, call.operation, call.now, false);
    }
  }

  lemma MintedBoundKey(t: Token, g: Biscuit.Grant, id: string, keyhash: string)
    requires Extends(t, Biscuit.Mint(g, id))
    ensures Biscuit.BoundTo(t, keyhash) <==> keyhash == g.boundKey
  {
    Biscuit.ChainBoundKey(g, id, [], keyhash);
  }

  lemma GoodVerdictCovers(
      h: Host, t: Token, g: Biscuit.Grant, id: string, r: Challenges.Request, popClock: int, now: int)
    requires r.endpoint == Challenges.AuthorizeEndpoint && Extends(t, Biscuit.Mint(g, id))
    requires Biscuit.ProofVerdict(h.pop, t, ServerCall(h, r.token, r.operation, r.pop, popClock, now))
          == Biscuit.Allowed
    ensures r.pop.Some? && CoversAs(h, r, r.pop.value, g.boundKey, popClock)
  {
    var keyhash := match h.pop.thumbprint(r.pop.value.pubkeyPem) case Some(k) => k case None => "";
    MintedBoundKey(t, g, id, g.boundKey);
    MintedBoundKey(t, g, id, keyhash);
    assert Biscuit.HasBoundKey(t);
  }

  /** An allowed request was allowed for a token that verifies under one of the keys tried. */
  lemma AllowedForSomeToken(
      h: Host, db: Db, sigs: Signatures, customer: string, hexes: seq<string>, text: string, call: Biscuit.Call)
      returns (hex: string, t: Token)
    requires VerifyCapability(h, db, sigs, customer, hexes, text, call) == Decided(Biscuit.Allowed)
    ensures hex in hexes && h.biscuitOf(text) == Some(t) && VerifiesUnder(sigs, t, hex)
    ensures !HasRevocation(db, customer, t) && !OwnerIsRevoked(db, t)
    ensures Biscuit.AuthorizeBiscuit(h.pop, h.matches, t, call) == Biscuit.Allowed
  {
    var attempt := hex => Attempt(h, db, sigs, customer, text, call, hex);
    AnswerComesFromOne(hexes, attempt);
    hex :| hex in hexes && FirstAnswer(hexes, attempt) == attempt(hex);
    t := h.biscuitOf(text).value;
  }

  lemma AllowedHasProof(h: Host, r: Challenges.Request, m: Moment)
    requires r.endpoint == Challenges.AuthorizeEndpoint && Grants(h, r, m)
    ensures r.pop.Some? && Covers(h, r, m, r.pop.value)
  {
    var call := ServerCall(h, r.token, r.operation, r.pop, m.popClock, m.now);
    var hex, t := AllowedForSomeToken(h, m.db, m.sigs, r.customer, m.hexes, r.token, call);
    var g, id :| (hex, g, id) in m.sigs.biscuits && Extends(t, Biscuit.Mint(g, id));
    AllowedTokenHasProof(h, t, g, id, call);
    GoodVerdictCovers(h, t, g, id, r, m.popClock, m.now);
    assert HolderKey(h, r, m, g.boundKey);
  }

  lemma ValidHasProof(h: Host, r: Challenges.Request, m: Moment)
    requires r.endpoint == Challenges.ValidateEndpoint && Grants(h, r, m)
    ensures r.pop.Some? && Covers(h, r, m, r.pop.value)
  {
    ValidExactly(h, m.db, m.sigs, r.customer, r.token, r.pop, m.now);
    var claims := h.jwtOf(r.token).value.claims;
    var keyhash := ExpectedKeyhash(claims, m.db.agents[claims.agentId.value]);
    assert HolderKey(h, r, m, keyhash) && CoversAs(h, r, r.pop.value, keyhash, m.now);
  }

  /** Both services answer positively only for a proof by the bound key that covers the request then. */
  lemma ServicesNeedProof(h: Host)
    ensures Challenges.NeedsProof((r, m) => Grants(h, r, m), (r, m, pop) => Covers(h, r, m, pop))
  {
    forall r, m | Grants(h, r, m) ensures r.pop.Some? && Covers(h, r, m, r.pop.value) {
      if r.endpoint == Challenges.AuthorizeEndpoint {
        AllowedHasProof(h, r, m);
      } else {
        ValidHasProof(h, r, m);
      }
    }
  }

  /**
   * Over every interleaving of challenge issues, requests to both endpoints, decisions at any later
   * moment and prunes: each positive answer spent a challenge of its own, issued to the same tenant and
   * not yet expired at the claim, and the bound key's proof over this request and that challenge was
   * fresh at the moment of the decision.
   */
  lemma PositiveAnswersSpendChallenges(h: Host, actions: seq<Challenges.Action<Moment>>)
    ensures var s := Challenges.Run((r, m) => Grants(h, r, m), actions);
      && (forall k :: 0 <= k < |s.granted| ==> Challenges.Settled(s, (r, m, pop) => Covers(h, r, m, pop), s.granted[k]))
      && (forall k, l :: 0 <= k < l < |s.granted| ==> Challenges.PaidApart(s.granted[k], s.granted[l]))
  {
    ServicesNeedProof(h);
    Challenges.EveryGrantSpentItsOwnChallenge((r, m) => Grants(h, r, m), (r, m, pop) => Covers(h, r, m, pop), actions);
  }
}
