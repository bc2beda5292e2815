/** The JavaScript verifier's decision on a tool call, against the Python authorizer's. */
module JsVerify {
  import opened Text
  import opened Datalog
  import opened Paths
  import opened PopMessage
  import opened Biscuit
  import opened Scopes

  /** What `authorizeTool` is given; `serverUrl` may be missing or empty. */
  datatype Options = Options(
    pop: Option<PopProof>, operation: Operation, serverUrl: Option<string>, verb: string, ath: string,
    popClock: int, now: int)

  /**
   * `verifyPop` accepts: a readable Ed25519 key, at most 300 seconds between the issue time and now in
   * either direction, the method, the endpoint if one is configured, the token's hash, and the signature.
   */
  ghost predicate JsProofOk(h: Host, pop: PopProof, o: Options) {
    && h.thumbprint(pop.pubkeyPem).Some?
    && -300 <= o.popClock - pop.iat <= 300
    && h.upper(pop.htm) == h.upper(o.verb)
    && (o.serverUrl.Some? && o.serverUrl.value != "" ==> pop.htu == o.serverUrl.value)
    && pop.ath == o.ath
    && h.verifies(pop.pubkeyPem, JsMessage(h.upper, Signed(h, pop)), pop.signature)
  }

  /** The operation-free request that a proof claims to be for. */
  function Signed(h: Host, pop: PopProof): Request {
    Request(KeyOf(h, pop), pop.challenge, pop.htm, pop.htu, pop.ath, pop.iat, pop.jti, None)
  }

  function KeyOf(h: Host, pop: PopProof): string {
    match h.thumbprint(pop.pubkeyPem) case Some(k) => k case None => ""
  }

  /** `authorizeTool` up to the replay cache, under a root key that verifies the token. */
  ghost predicate JsAllows(h: Host, t: Token, o: Options) {
    o.pop.Some? && JsProofOk(h, o.pop.value, o) && LogicAllows(t, o.operation, o.now, true)
  }

  /** The call that the Python guard makes of the same request, with the path it presents. */
  function PythonCall(o: Options, filePath: Option<string>): Call {
    Call(o.operation, filePath, o.pop, false, Some(o.verb), o.serverUrl, o.ath, o.popClock, o.now)
  }

  /** For any chain the JavaScript decision is the proof, the expiries, the grant and the blocks' lists. */
  lemma JsClosedForm(h: Host, g: Grant, id: string, cs: seq<(Caveat, string)>, o: Options)
    ensures JsAllows(h, Chain(g, id, cs), o) <==>
      && ChainPermits(g, cs, o.operation, o.now, true)
      && o.pop.Some?
      && var pop := o.pop.value;
         && pop.iat - 300 <= o.popClock <= pop.iat + 300 && h.upper(pop.htm) == h.upper(o.verb) && pop.ath == o.ath
         && (o.serverUrl == None || o.serverUrl == Some("") || o.serverUrl == Some(pop.htu))
         && h.thumbprint(pop.pubkeyPem).Some?
         && var key := h.thumbprint(pop.pubkeyPem).value;
            var signed := Request(key, pop.challenge, pop.htm, pop.htu, pop.ath, pop.iat, pop.jti, None);
            h.verifies(pop.pubkeyPem, JsMessage(h.upper, signed), pop.signature)
  {
    ChainLogic(g, id, cs, o.operation, o.now, true);
  }

  /** The key that a token is bound to makes no difference to the JavaScript decision. */
  lemma JsIgnoresBoundKey(h: Host, g: Grant, keyhash: string, id: string, cs: seq<(Caveat, string)>, o: Options)
    ensures JsAllows(h, Chain(g, id, cs), o) <==> JsAllows(h, Chain(g.(boundKey := keyhash), id, cs), o)
  {
    JsClosedForm(h, g, id, cs, o);
    JsClosedForm(h, g.(boundKey := keyhash), id, cs, o);
  }

  /** The members that the Python verifier wants to be there, and the endpoint where it is configured as empty. */
  predicate Complete(pop: PopProof, serverUrl: Option<string>) {
    && pop.jti != "" && pop.htm != "" && pop.htu != "" && pop.ath != ""
    && (serverUrl.Some? ==> pop.htu == serverUrl.value)
  }

  lemma ProofsAgree(h: Host, g: Grant, o: Options, filePath: Option<string>)
    requires o.pop.Some? && AllPlain(h.upper, Signed(h, o.pop.value))
    ensures ProofPermits(h, g, PythonCall(o, filePath)) <==>
      var pop := o.pop.value;
      && JsProofOk(h, pop, o)
      && h.thumbprint(pop.pubkeyPem) == Some(g.boundKey)
      && pop.iat <= o.popClock + 30
      && Complete(pop, o.serverUrl)
  {
    JsBytesMatchPythonBytes(h.upper, Signed(h, o.pop.value));
  }

  /**
   * On any chain, and as long as the signed strings are those on which the bytes agree, the Python
   * authorizer allows what the JavaScript one allows if and only if, besides, the proof is by the bound
   * key, issued at most 30 seconds ahead and complete, and the path gate is open.
   */
  lemma PythonAllowsIff(h: Host, matches: Matcher, g: Grant, id: string, cs: seq<(Caveat, string)>, o: Options,
                        filePath: Option<string>)
    requires o.pop.Some? ==> AllPlain(h.upper, Signed(h, o.pop.value))
    ensures AuthorizeBiscuit(h, matches, Chain(g, id, cs), PythonCall(o, filePath)) == Allowed <==>
      && JsAllows(h, Chain(g, id, cs), o)
      && h.thumbprint(o.pop.value.pubkeyPem) == Some(g.boundKey)
      && o.pop.value.iat <= o.popClock + 30
      && Complete(o.pop.value, o.serverUrl)
      && PathPermitted(matches, cs, filePath)
  {
    AuthorizeClosedForm(h, matches, g, id, cs, PythonCall(o, filePath));
    JsClosedForm(h, g, id, cs, o);
    if o.pop.Some? {
      ProofsAgree(h, g, o, filePath);
    }
  }

  /**
   * A minted token that grants the operation, with a good proof by a key that it is not bound to: the
   * JavaScript verifier allows the call, and the Python authorizer refuses it whatever the path.
   */
  lemma ForeignKeyPassesInJsOnly(
      h: Host, matches: Matcher, g: Grant, id: string, o: Options, filePath: Option<string>)
    requires o.pop.Some? && JsProofOk(h, o.pop.value, o)
    requires h.thumbprint(o.pop.value.pubkeyPem) != Some(g.boundKey)
    requires Granted(Normalize(g.capabilities), o.operation) && o.now <= g.expires
    ensures JsAllows(h, Mint(g, id), o)
    ensures AuthorizeBiscuit(h, matches, Mint(g, id), PythonCall(o, filePath)) != Allowed
  {
    assert Chain(g, id, []) == Mint(g, id);
    JsClosedForm(h, g, id, [], o);
    AuthorizeClosedForm(h, matches, g, id, [], PythonCall(o, filePath));
  }

  /** A proof that is good at some clock reading is good exactly from 300 seconds before its issue to 300 after. */
  lemma JsProofWindow(h: Host, pop: PopProof, o: Options, clock: int)
    requires JsProofOk(h, pop, o)
    ensures JsProofOk(h, pop, o.(popClock := clock)) <==> pop.iat - 300 <= clock <= pop.iat + 300
  {
  }
}
