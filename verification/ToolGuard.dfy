/** Single-use proofs at a tool server: the replay cache and the guard that consults it. */
module ToolGuard {
  import opened Text
  import Biscuit
  import Services
  import PopMessage
  import Scopes

  /** Freshness window of a proof, in seconds; also how long the cache remembers it. */
  const POP_MAX_AGE: int := 300

  // ---- The cache ----

  function Live(seen: map<string, int>, now: int): map<string, int> {
    map jti | jti in seen && seen[jti] > now :: seen[jti]
  }

  /** The answer and the new contents of the cache for one `store_if_new`. */
  function Store(seen: map<string, int>, now: int, jti: string, expiresAt: int): (bool, map<string, int>) {
    var live := Live(seen, now);
    if jti in live then (false, live) else (true, live[jti := expiresAt])
  }

  class InMemoryReplayCache {
    var seen: map<string, int>

    constructor ()
      ensures seen == map[]
    {
      seen := map[];
    }

    /** `store_if_new`: expired entries are deleted one by one, then the proof is looked up. */
    method StoreIfNew(now: int, jti: string, expiresAt: int) returns (isNew: bool)
      modifies this
      ensures (isNew, seen) == Store(old(seen), now, jti, expiresAt)
    {
      var todo := seen.Keys;
      while todo != {}
        invariant todo <= seen.Keys
        invariant seen == map k | k in old(seen) && (k in todo || old(seen)[k] > now) :: old(seen)[k]
      {
        var key :| key in todo;
        if seen[key] <= now {
          seen := seen - {key};
        }
        todo := todo - {key};
      }
      assert seen == Live(old(seen), now);
      if jti in seen {
        return false;
      }
      seen := seen[jti := expiresAt];
      return true;
    }
  }

  // ---- Runs of the cache ----

  datatype Call = Call(now: int, jti: string, expiresAt: int)

  /** The contents after the first `n` calls on a new cache. */
  function Contents(calls: seq<Call>, n: nat): map<string, int>
    requires n <= |calls|
  {
    if n == 0 then map[]
    else Store(Contents(calls, n - 1), calls[n - 1].now, calls[n - 1].jti, calls[n - 1].expiresAt).1
  }

  predicate Accepted(calls: seq<Call>, n: nat)
    requires n < |calls|
  {
    Store(Contents(calls, n), calls[n].now, calls[n].jti, calls[n].expiresAt).0
  }

  ghost predicate ClockMonotone(calls: seq<Call>) {
    forall i, j :: 0 <= i < j < |calls| ==> calls[i].now <= calls[j].now
  }

  /** An accepted proof stays in the cache until the clock reaches its expiry. */
  lemma {:induction false} AcceptedStays(calls: seq<Call>, i: nat, n: nat)
    requires i < n <= |calls| && ClockMonotone(calls) && Accepted(calls, i)
    requires calls[n - 1].now < calls[i].expiresAt
    ensures calls[i].jti in Contents(calls, n) && Contents(calls, n)[calls[i].jti] == calls[i].expiresAt
    decreases n
  {
    if n > i + 1 {
      AcceptedStays(calls, i, n - 1);
    }
  }

  /** After a proof is accepted, no call with the same id is accepted before its expiry. */
  lemma SingleUse(calls: seq<Call>, i: nat, j: nat)
    requires i < j < |calls| && ClockMonotone(calls) && Accepted(calls, i)
    requires calls[j].jti == calls[i].jti && calls[j].now < calls[i].expiresAt
    ensures !Accepted(calls, j)
  {
    AcceptedStays(calls, i, j);
  }

  /** Every proof id always comes with the same issue time, hence with the same expiry. */
  ghost predicate OneExpiryPerId(calls: seq<Call>) {
    forall i, j :: 0 <= i < |calls| && 0 <= j < |calls| && calls[i].jti == calls[j].jti
      ==> calls[i].expiresAt == calls[j].expiresAt
  }

  /** What is in the cache was put there by an earlier call with that id and expiry. */
  lemma {:induction false} ContentsOrigin(calls: seq<Call>, n: nat, jti: string)
    requires n <= |calls| && jti in Contents(calls, n)
    ensures exists i :: 0 <= i < n && calls[i].jti == jti && calls[i].expiresAt == Contents(calls, n)[jti]
  {
    if calls[n - 1].jti != jti || jti in Live(Contents(calls, n - 1), calls[n - 1].now) {
      ContentsOrigin(calls, n - 1, jti);
    }
  }

  /** The first call with an id is accepted. */
  lemma FirstIsAccepted(calls: seq<Call>, n: nat)
    requires n < |calls| && forall i :: 0 <= i < n ==> calls[i].jti != calls[n].jti
    ensures Accepted(calls, n)
  {
    if calls[n].jti in Contents(calls, n) {
      ContentsOrigin(calls, n, calls[n].jti);
    }
  }

  lemma FirstOccurrence(calls: seq<Call>, i: nat) returns (first: nat)
    requires i < |calls|
    ensures first <= i && calls[first].jti == calls[i].jti
    ensures forall k :: 0 <= k < first ==> calls[k].jti != calls[i].jti
  {
    first := 0;
    while calls[first].jti != calls[i].jti
      invariant first <= i && forall k :: 0 <= k < first ==> calls[k].jti != calls[i].jti
      decreases i - first
    {
      first := first + 1;
    }
  }

  /**
   * The pruned cache answers like a set that never forgets, except that it accepts every call at or
   * after the expiry of its own proof.
   */
  lemma PrunedCacheAnswers(calls: seq<Call>, n: nat)
    requires n < |calls| && ClockMonotone(calls) && OneExpiryPerId(calls)
    ensures Accepted(calls, n) <==>
      calls[n].now >= calls[n].expiresAt || forall i :: 0 <= i < n ==> calls[i].jti != calls[n].jti
  {
    var jti := calls[n].jti;
    if jti in Contents(calls, n) {
      ContentsOrigin(calls, n, jti);
    }
    if forall i :: 0 <= i < n ==> calls[i].jti != jti {
      FirstIsAccepted(calls, n);
    } else if calls[n].now < calls[n].expiresAt {
      var i :| 0 <= i < n && calls[i].jti == jti;
      var first := FirstOccurrence(calls, i);
      FirstIsAccepted(calls, first);
      SingleUse(calls, first, n);
    }
  }

  /** An id that was used before, always with one expiry, is accepted again exactly from that expiry on. */
  lemma UsedAgainIff(calls: seq<Call>, i: nat, j: nat)
    requires i < j < |calls| && ClockMonotone(calls) && calls[i].jti == calls[j].jti
    requires forall k :: 0 <= k < |calls| && calls[k].jti == calls[j].jti ==> calls[k].expiresAt == calls[j].expiresAt
    ensures Accepted(calls, j) <==> calls[j].now >= calls[j].expiresAt
  {
    if calls[j].now < calls[j].expiresAt {
      var first := FirstOccurrence(calls, i);
      FirstIsAccepted(calls, first);
      SingleUse(calls, first, j);
    } else if calls[j].jti in Contents(calls, j) {
      ContentsOrigin(calls, j, calls[j].jti);
    }
  }

  // ---- The guard ----

  /** A tool call as the guard sees it; the empty token stands for a missing one. The clocks are the authorizer's. */
  datatype ToolRequest = ToolRequest(
    token: string, proof: Option<PopMessage.PopProof>, operation: PopMessage.Operation, filePath: Option<string>,
    popClock: int, now: int)

  /** The call of `authorize_biscuit` that the guard makes; its proofs cover no operation. */
  function GuardCall(h: Services.Host, serverUrl: Option<string>, r: ToolRequest): Biscuit.Call {
    Biscuit.Call(
      r.operation, r.filePath, r.proof, false, Some("POST"), serverUrl, h.tokenHash(r.token), r.popClock, r.now)
  }

  /** What that call does under one trusted root key; it raises if the key does not verify the token. */
  datatype RootOutcome = Raises | Denies(decision: Biscuit.Decision) | Grants

  ghost function OutcomeUnder(
      h: Services.Host, sigs: Services.Signatures, serverUrl: Option<string>, r: ToolRequest, root: string): RootOutcome
  {
    var t := h.biscuitOf(r.token);
    if t.None? || !Services.VerifiesUnder(sigs, t.value, root) then Raises
    else
      var decision := Biscuit.AuthorizeBiscuit(h.pop, h.matches, t.value, GuardCall(h, serverUrl, r));
      if decision == Biscuit.Allowed then Grants else Denies(decision)
  }

  ghost predicate CallsAuthorizer(
      h: Services.Host, sigs: Services.Signatures, serverUrl: Option<string>, r: ToolRequest,
      attempt: string -> RootOutcome)
  {
    forall root :: attempt(root) == OutcomeUnder(h, sigs, serverUrl, r, root)
  }

  /** Some root key verifies the token, and `authorize_biscuit` allows the guard's call. */
  ghost predicate AllowedUnderSome(
      h: Services.Host, sigs: Services.Signatures, serverUrl: Option<string>, r: ToolRequest, roots: seq<string>)
  {
    && h.biscuitOf(r.token).Some?
    && (exists root :: root in roots && Services.VerifiesUnder(sigs, h.biscuitOf(r.token).value, root))
    && Biscuit.AuthorizeBiscuit(h.pop, h.matches, h.biscuitOf(r.token).value, GuardCall(h, serverUrl, r))
       == Biscuit.Allowed
  }

  lemma GrantsMeansAllowed(
      h: Services.Host, sigs: Services.Signatures, serverUrl: Option<string>, r: ToolRequest, roots: seq<string>,
      attempt: string -> RootOutcome)
    requires CallsAuthorizer(h, sigs, serverUrl, r, attempt)
    ensures SomeGrants(roots, attempt) <==> AllowedUnderSome(h, sigs, serverUrl, r, roots)
  {
    forall root ensures attempt(root) == Grants <==>
      && h.biscuitOf(r.token).Some? && Services.VerifiesUnder(sigs, h.biscuitOf(r.token).value, root)
      && Biscuit.AuthorizeBiscuit(h.pop, h.matches, h.biscuitOf(r.token).value, GuardCall(h, serverUrl, r))
         == Biscuit.Allowed
    {
      assert attempt(root) == OutcomeUnder(h, sigs, serverUrl, r, root);
    }
  }

  /**
   * For a token with any chain of caveats, the guard's authorizer allows a call exactly when some root
   * key verifies the token, the path gate is open, and the proof, the expiries, the grant and every
   * block's list permit it.
   */
  lemma GuardClosedForm(
      h: Services.Host, sigs: Services.Signatures, serverUrl: Option<string>, r: ToolRequest, roots: seq<string>,
      grant: Biscuit.Grant, id: string, cs: seq<(Biscuit.Caveat, string)>)
    requires h.biscuitOf(r.token) == Some(Biscuit.Chain(grant, id, cs))
    ensures AllowedUnderSome(h, sigs, serverUrl, r, roots) <==>
      && (exists root :: root in roots && Services.VerifiesUnder(sigs, Biscuit.Chain(grant, id, cs), root))
      && Biscuit.PathPermitted(h.matches, cs, r.filePath)
      && Biscuit.ChainPermits(grant, cs, r.operation, r.now, true)
      && r.proof.Some? && h.pop.thumbprint(r.proof.value.pubkeyPem) == Some(grant.boundKey)
      && PopMessage.VerifyRequestPop(
           h.pop, grant.boundKey, r.proof.value, None, Some("POST"), serverUrl, Some(h.tokenHash(r.token)), 300,
           r.popClock)
  {
    Biscuit.AuthorizeClosedForm(h.pop, h.matches, grant, id, cs, GuardCall(h, serverUrl, r));
  }

  /** The token that an allowed call presents, as it was minted. */
  lemma AllowedWasMinted(
      h: Services.Host, sigs: Services.Signatures, serverUrl: Option<string>, r: ToolRequest, roots: seq<string>)
      returns (root: string, grant: Biscuit.Grant, id: string)
    requires AllowedUnderSome(h, sigs, serverUrl, r, roots)
    ensures root in roots && (root, grant, id) in sigs.biscuits
    ensures Services.Extends(h.biscuitOf(r.token).value, Biscuit.Mint(grant, id))
    ensures r.proof.Some?
    ensures PopMessage.VerifyRequestPop(
      h.pop, grant.boundKey, r.proof.value, None, Some("POST"), serverUrl, Some(h.tokenHash(r.token)), 300, r.popClock)
  {
    var t := h.biscuitOf(r.token).value;
    root :| root in roots && Services.VerifiesUnder(sigs, t, root);
    grant, id :| (root, grant, id) in sigs.biscuits && Services.Extends(t, Biscuit.Mint(grant, id));
    Services.AllowedTokenHasProof(h, t, grant, id, GuardCall(h, serverUrl, r));
    var keyhash := match h.pop.thumbprint(r.proof.value.pubkeyPem) case Some(k) => k case None => "";
    Services.MintedBoundKey(t, grant, id, grant.boundKey);
    Services.MintedBoundKey(t, grant, id, keyhash);
    assert Biscuit.HasBoundKey(t);
  }

  /** Whatever is allowed carries a proof for POST, for the configured endpoint and for this very token. */
  lemma AllowedProofCarries(
      h: Services.Host, sigs: Services.Signatures, serverUrl: Option<string>, r: ToolRequest, roots: seq<string>)
    requires AllowedUnderSome(h, sigs, serverUrl, r, roots)
    ensures r.proof.Some?
    ensures h.pop.upper(r.proof.value.htm) == h.pop.upper("POST")
    ensures serverUrl.Some? ==> r.proof.value.htu == serverUrl.value
    ensures r.proof.value.ath == h.tokenHash(r.token)
    ensures r.proof.value.iat - 30 <= r.popClock <= r.proof.value.iat + 300
  {
    var _, _, _ := AllowedWasMinted(h, sigs, serverUrl, r, roots);
  }

  /** `pem` signed an operation-free POST request to `htu` with this token and proof. */
  ghost predicate SignedCall(
      h: Services.Host, signed: set<(string, PopMessage.Request)>, pem: string, boundKey: string,
      challenge: string, htu: string, ath: string, iat: int, jti: string)
  {
    exists q :: (pem, q) in signed && PopMessage.SameRequest(
      h.pop.upper, q, PopMessage.Request(boundKey, challenge, "POST", htu, ath, iat, jti, None))
  }

  /** If signatures are ideal, the key that the token is bound to signed exactly this call of this endpoint. */
  lemma AllowedCallWasSigned(
      h: Services.Host, sigs: Services.Signatures, serverUrl: Option<string>, r: ToolRequest, roots: seq<string>,
      signed: set<(string, PopMessage.Request)>)
    requires AllowedUnderSome(h, sigs, serverUrl, r, roots) && PopMessage.Unforgeable(h.pop, signed)
    ensures r.proof.Some?
    ensures exists root, grant, id ::
      && root in roots && (root, grant, id) in sigs.biscuits
      && Services.Extends(h.biscuitOf(r.token).value, Biscuit.Mint(grant, id))
      && h.pop.thumbprint(r.proof.value.pubkeyPem) == Some(grant.boundKey)
      && SignedCall(
           h, signed, r.proof.value.pubkeyPem, grant.boundKey, r.proof.value.challenge,
           if serverUrl.Some? then serverUrl.value else r.proof.value.htu, h.tokenHash(r.token),
           r.proof.value.iat, r.proof.value.jti)
  {
    var root, grant, id := AllowedWasMinted(h, sigs, serverUrl, r, roots);
    var p := r.proof.value;
    var htu := if serverUrl.Some? then serverUrl.value else p.htu;
    PopMessage.AcceptedProofWasSignedForThisRequest(
      h.pop, signed, grant.boundKey, p, None, "POST", htu, h.tokenHash(r.token), 300, r.popClock);
    assert SignedCall(
      h, signed, p.pubkeyPem, grant.boundKey, p.challenge, htu, h.tokenHash(r.token), p.iat, p.jti);
  }

  datatype Verdict = NoToken | NoProof | Refused(last: Option<Biscuit.Decision>) | Replayed | Authorized

  /** The refusal by the last root key that verifies the token. */
  function LastRefusal(roots: seq<string>, attempt: string -> RootOutcome): Option<Biscuit.Decision> {
    if roots == [] then None
    else match attempt(roots[|roots| - 1])
      case Denies(decision) => Some(decision)
      case _ => LastRefusal(roots[..|roots| - 1], attempt)
  }

  predicate LastDenialAt(roots: seq<string>, attempt: string -> RootOutcome, decision: Biscuit.Decision, i: int) {
    && 0 <= i < |roots| && attempt(roots[i]) == Denies(decision)
    && forall j :: i < j < |roots| ==> !attempt(roots[j]).Denies?
  }

  /** The reason reported is the last one given by a root key that verifies the token. */
  lemma {:induction false} LastRefusalIsLast(roots: seq<string>, attempt: string -> RootOutcome)
    ensures LastRefusal(roots, attempt).None? <==> forall i :: 0 <= i < |roots| ==> !attempt(roots[i]).Denies?
    ensures LastRefusal(roots, attempt).Some? ==>
      exists i :: LastDenialAt(roots, attempt, LastRefusal(roots, attempt).value, i)
  {
    if roots != [] {
      var init := roots[..|roots| - 1];
      LastRefusalIsLast(init, attempt);
      if attempt(roots[|roots| - 1]).Denies? {
        assert LastDenialAt(roots, attempt, LastRefusal(roots, attempt).value, |roots| - 1);
      } else if LastRefusal(init, attempt).Some? {
        var i :| LastDenialAt(init, attempt, LastRefusal(init, attempt).value, i);
        assert roots[i] == init[i] && forall j :: i < j < |init| ==> roots[j] == init[j];
        assert LastDenialAt(roots, attempt, LastRefusal(roots, attempt).value, i);
      }
    }
  }

  predicate SomeGrants(roots: seq<string>, attempt: string -> RootOutcome) {
    exists root :: root in roots && attempt(root) == Grants
  }

  /** Which verdict a call gets, given whether the authorizer allows it. */
  predicate Verdicts(r: ToolRequest, allowed: bool, verdict: Verdict) {
    && (verdict == NoToken <==> r.token == "")
    && (verdict == NoProof <==> r.token != "" && r.proof.None?)
    && (verdict == Authorized || verdict == Replayed <==> r.token != "" && r.proof.Some? && allowed)
  }

  /** The cache is asked for calls that are allowed, which pass if it has not seen the proof, and for no others. */
  predicate Caches(r: ToolRequest, verdict: Verdict, now: int, before: map<string, int>, after: map<string, int>) {
    if verdict == Authorized || verdict == Replayed then
      && r.proof.Some?
      && (verdict == Authorized, after)
         == Store(before, now, r.proof.value.jti, r.proof.value.iat + POP_MAX_AGE)
    else before == after
  }

  class ToolGuard {
    const roots: seq<string>
    const serverUrl: Option<string>
    const cache: InMemoryReplayCache

    constructor (roots: seq<string>, serverUrl: Option<string>)
      ensures this.roots == roots && this.serverUrl == serverUrl
      ensures fresh(cache) && cache.seen == map[]
    {
      this.roots := roots;
      this.serverUrl := serverUrl;
      cache := new InMemoryReplayCache();
    }

    /**
     * `_authorize_operation`, where `attempt` stands for the call of `authorize_biscuit` under a root key.
     * A call passes exactly when the authorizer allows it under some root and the proof is new to the
     * cache; a call refused before leaves the cache as it was.
     */
    method AuthorizeOperation(
        ghost h: Services.Host, ghost sigs: Services.Signatures, r: ToolRequest, attempt: string -> RootOutcome,
        now: int)
      returns (verdict: Verdict)
      requires CallsAuthorizer(h, sigs, serverUrl, r, attempt)
      modifies cache
      ensures Verdicts(r, AllowedUnderSome(h, sigs, serverUrl, r, roots), verdict)
      ensures verdict.Refused? ==> verdict.last == LastRefusal(roots, attempt)
      ensures Caches(r, verdict, now, old(cache.seen), cache.seen)
    {
      verdict := AuthorizeWith(r, attempt, now);
      GrantsMeansAllowed(h, sigs, serverUrl, r, roots, attempt);
    }

    /** The same for whatever is done under a root key. */
    method AuthorizeWith(r: ToolRequest, attempt: string -> RootOutcome, now: int) returns (verdict: Verdict)
      modifies cache
      ensures Verdicts(r, SomeGrants(roots, attempt), verdict)
      ensures verdict.Refused? ==> verdict.last == LastRefusal(roots, attempt)
      ensures Caches(r, verdict, now, old(cache.seen), cache.seen)
    {
      if r.token == "" {
        return NoToken;
      }
      if r.proof.None? {
        return NoProof;
      }
      verdict := TryRoots(r.proof.value, attempt, now);
    }

    /** The loop over the root keys. */
    method TryRoots(proof: PopMessage.PopProof, attempt: string -> RootOutcome, now: int) returns (verdict: Verdict)
      modifies cache
      ensures verdict == Authorized || verdict == Replayed || verdict.Refused?
      ensures verdict.Refused? <==> forall root :: root in roots ==> attempt(root) != Grants
      ensures verdict.Refused? ==> verdict.last == LastRefusal(roots, attempt) && cache.seen == old(cache.seen)
      ensures !verdict.Refused? ==>
        (verdict == Authorized, cache.seen) == Store(old(cache.seen), now, proof.jti, proof.iat + POP_MAX_AGE)
    {
      var last: Option<Biscuit.Decision> := None;
      for i := 0 to |roots|
        invariant forall k :: 0 <= k < i ==> attempt(roots[k]) != Grants
        invariant last == LastRefusal(roots[..i], attempt)
        invariant cache.seen == old(cache.seen)
      {
        assert roots[..i + 1][..i] == roots[..i];
        match attempt(roots[i]) {
          case Raises =>
          case Grants =>
            assert roots[i] in roots;
            var isNew := cache.StoreIfNew(now, proof.jti, proof.iat + POP_MAX_AGE);
            return if isNew then Authorized else Replayed;
          case Denies(decision) =>
            last := Some(decision);
        }
      }
      assert roots[..|roots|] == roots;
      return Refused(last);
    }
  }

  // ---- Runs of the guard ----

  /** A call that the authorizer allows under some root key, and the clock when it meets the cache. */
  datatype Granted = Granted(sigs: Services.Signatures, request: ToolRequest, root: string, cacheClock: int)

  ghost predicate IsGranted(h: Services.Host, serverUrl: Option<string>, g: Granted) {
    && g.request.proof.Some?
    && OutcomeUnder(h, g.sigs, serverUrl, g.request, g.root) == Grants
    && g.request.popClock <= g.cacheClock
  }

  function Jti(g: Granted): string {
    if g.request.proof.Some? then g.request.proof.value.jti else ""
  }

  function Iat(g: Granted): int {
    if g.request.proof.Some? then g.request.proof.value.iat else 0
  }

  function CacheCalls(gs: seq<Granted>): seq<Call> {
    seq(|gs|, i requires 0 <= i < |gs| => Call(gs[i].cacheClock, Jti(gs[i]), Iat(gs[i]) + POP_MAX_AGE))
  }

  /** Calls that pass one guard's authorizer, in the order in which they meet the cache. */
  ghost predicate GuardRun(h: Services.Host, serverUrl: Option<string>, gs: seq<Granted>) {
    && (forall i :: 0 <= i < |gs| ==> IsGranted(h, serverUrl, gs[i]))
    && (forall i, j :: 0 <= i < j < |gs| ==> gs[i].cacheClock <= gs[j].cacheClock)
  }

  /** Whatever the authorizer allows has a proof that is fresh on the authorizer's clock. */
  lemma GrantedIsFresh(h: Services.Host, serverUrl: Option<string>, g: Granted)
    requires IsGranted(h, serverUrl, g)
    ensures PopMessage.Fresh(Iat(g), g.request.popClock, POP_MAX_AGE)
  {
    var t := h.biscuitOf(g.request.token).value;
    var grant, id :| (g.root, grant, id) in g.sigs.biscuits && Services.Extends(t, Biscuit.Mint(grant, id));
    Services.AllowedTokenHasProof(h, t, grant, id, GuardCall(h, serverUrl, g.request));
  }

  /**
   * A proof that has been used passes the guard again exactly when the cache is asked at or after the
   * last second of the proof's freshness; if both clocks agree, exactly in that second.
   */
  lemma ReplayOnlyWhenWindowCloses(h: Services.Host, serverUrl: Option<string>, gs: seq<Granted>, i: nat, j: nat)
    requires GuardRun(h, serverUrl, gs) && i < j < |gs| && Jti(gs[i]) == Jti(gs[j])
    requires forall k :: 0 <= k < |gs| && Jti(gs[k]) == Jti(gs[i]) ==> Iat(gs[k]) == Iat(gs[i])
    ensures Accepted(CacheCalls(gs), j) <==> gs[j].cacheClock >= Iat(gs[j]) + POP_MAX_AGE
    ensures gs[j].request.popClock == gs[j].cacheClock ==>
      (Accepted(CacheCalls(gs), j) <==> gs[j].cacheClock == Iat(gs[j]) + POP_MAX_AGE)
  {
    UsedProofIff(gs, i, j);
    GrantedIsFresh(h, serverUrl, gs[j]);
  }

  lemma UsedProofIff(gs: seq<Granted>, i: nat, j: nat)
    requires i < j < |gs| && Jti(gs[i]) == Jti(gs[j])
    requires forall k, l :: 0 <= k < l < |gs| ==> gs[k].cacheClock <= gs[l].cacheClock
    requires forall k :: 0 <= k < |gs| && Jti(gs[k]) == Jti(gs[i]) ==> Iat(gs[k]) == Iat(gs[i])
    ensures Accepted(CacheCalls(gs), j) <==> gs[j].cacheClock >= Iat(gs[j]) + POP_MAX_AGE
  {
    UsedAgainIff(CacheCalls(gs), i, j);
  }

  /** A minted token, its root key, and a proof made for it, for calls of one operation without a path. */
  datatype Holder = Holder(
    token: string, root: string, grant: Biscuit.Grant, id: string, pop: PopMessage.PopProof,
    operation: PopMessage.Operation, sigs: Services.Signatures)

  /**
   * The token is what the root key signed, it grants the operation and is good for 300 seconds from the
   * proof's issue time, and its bound key made the proof for this token and endpoint.
   */
  ghost predicate Holds(h: Services.Host, serverUrl: Option<string>, x: Holder) {
    && h.biscuitOf(x.token) == Some(Biscuit.Mint(x.grant, x.id)) && (x.root, x.grant, x.id) in x.sigs.biscuits
    && Biscuit.Granted(Scopes.Normalize(x.grant.capabilities), x.operation) && x.pop.iat + 300 <= x.grant.expires
    && h.pop.thumbprint(x.pop.pubkeyPem) == Some(x.grant.boundKey)
    && PopMessage.VerifyRequestPop(
         h.pop, x.grant.boundKey, x.pop, None, Some("POST"), serverUrl, Some(h.tokenHash(x.token)), 300, x.pop.iat)
  }

  /** The holder's call when all clocks read `at`. */
  function CallAt(x: Holder, at: int): Granted {
    Granted(x.sigs, ToolRequest(x.token, Some(x.pop), x.operation, None, at, at), x.root, at)
  }

  lemma HolderIsGranted(h: Services.Host, serverUrl: Option<string>, x: Holder, at: int)
    requires Holds(h, serverUrl, x) && x.pop.iat <= at <= x.pop.iat + 300
    ensures IsGranted(h, serverUrl, CallAt(x, at))
  {
    Services.ChainVerifies(x.sigs, x.root, x.grant, x.id, []);
    assert Biscuit.Chain(x.grant, x.id, []) == Biscuit.Mint(x.grant, x.id);
    HolderIsAllowed(h, serverUrl, x, at);
  }

  lemma HolderIsAllowed(h: Services.Host, serverUrl: Option<string>, x: Holder, at: int)
    requires Holds(h, serverUrl, x) && x.pop.iat <= at <= x.pop.iat + 300
    ensures Biscuit.AuthorizeBiscuit(
              h.pop, h.matches, Biscuit.Mint(x.grant, x.id), GuardCall(h, serverUrl, CallAt(x, at).request))
         == Biscuit.Allowed
  {
    var call := GuardCall(h, serverUrl, CallAt(x, at).request);
    assert Biscuit.Chain(x.grant, x.id, []) == Biscuit.Mint(x.grant, x.id);
    assert Biscuit.ProofPermits(h.pop, x.grant, call);
    assert Biscuit.PathPermitted(h.matches, [], None);
    Biscuit.AuthorizeClosedForm(h.pop, h.matches, x.grant, x.id, [], call);
  }

  /** When the example's calls are made. */
  function BoundaryTime(x: Holder, i: nat): int {
    if i == 0 then x.pop.iat else x.pop.iat + 300
  }

  /** One proof used at its issue and twice 300 seconds later. */
  function AtTheBoundary(x: Holder): seq<Granted> {
    seq(3, i requires 0 <= i < 3 => CallAt(x, BoundaryTime(x, i)))
  }

  lemma BoundaryCallIsGranted(h: Services.Host, serverUrl: Option<string>, x: Holder, i: nat)
    requires Holds(h, serverUrl, x) && i < 3
    ensures IsGranted(h, serverUrl, AtTheBoundary(x)[i])
  {
    HolderIsGranted(h, serverUrl, x, BoundaryTime(x, i));
  }

  lemma BoundaryIsRun(h: Services.Host, serverUrl: Option<string>, x: Holder)
    requires Holds(h, serverUrl, x)
    ensures GuardRun(h, serverUrl, AtTheBoundary(x))
  {
    forall i | 0 <= i < 3 ensures IsGranted(h, serverUrl, AtTheBoundary(x)[i]) {
      BoundaryCallIsGranted(h, serverUrl, x, i);
    }
  }

  /** The holder's one proof passes the guard when it is issued, and again and again 300 seconds later. */
  lemma BoundarySecondExample(h: Services.Host, serverUrl: Option<string>, x: Holder)
    requires Holds(h, serverUrl, x)
    ensures GuardRun(h, serverUrl, AtTheBoundary(x))
    ensures forall i :: 0 <= i < 3 ==> Accepted(CacheCalls(AtTheBoundary(x)), i)
  {
    BoundaryIsRun(h, serverUrl, x);
    BoundaryCallsPass(x);
  }

  lemma BoundaryCallsPass(x: Holder)
    ensures forall i :: 0 <= i < 3 ==> Accepted(CacheCalls(AtTheBoundary(x)), i)
  {
    var calls := CacheCalls(AtTheBoundary(x));
    FirstIsAccepted(calls, 0);
    UsedAgainIff(calls, 0, 1);
    UsedAgainIff(calls, 0, 2);
  }
}
