/** Revocation over whole runs of minting, validating, pruning and key rotation. */
module Revocation {
  import opened Text
  import opened Datalog
  import opened Services
  import Biscuit
  import PopMessage

  // ---- Revoking and pruning in the tables ----

  predicate Owns(db: Db, customer: string, agent: string) {
    agent in db.agents && db.agents[agent].customer == customer
  }

  /** The deny-list entries of some revocation ids. */
  function Denials(customer: string, ids: seq<string>): set<(string, string)> {
    set id | id in ids :: (customer, id)
  }

  /** The revocation ids of the capability token stored with an agent whose root key is known. */
  function HeldIds(db: Db, agent: Agent): seq<string> {
    if agent.biscuit.Some? && agent.biscuit.value.kid in db.roots then agent.biscuit.value.token.ids else []
  }

  function RevokedIn(db: Db, customer: string, agent: string): Db
    requires agent in db.agents
  {
    db.(agents := db.agents[agent := db.agents[agent].(status := Revoked)],
        denied := db.denied + Denials(customer, HeldIds(db, db.agents[agent])))
  }

  /** Agents marked expired whose expiry is past the grace period are deleted, revoked ones are not. */
  function PrunedIn(db: Db, now: int, grace: int): Db {
    db.(agents := map a | a in db.agents
          && !(db.agents[a].status == Expired && db.agents[a].expires <= now - grace) :: db.agents[a])
  }

  lemma PruningRemoves(db: Db, now: int, grace: int, gone: set<string>)
    requires gone <= db.agents.Keys
    requires forall a :: a in db.agents ==>
      (a in gone <==> db.agents[a].status == Expired && db.agents[a].expires <= now - grace)
    ensures PrunedIn(db, now, grace) == db.(agents := db.agents - gone)
    ensures db.agents.Keys - PrunedIn(db, now, grace).agents.Keys == gone
  {
    var kept := PrunedIn(db, now, grace).agents;
    assert forall a :: a in kept <==> a in db.agents - gone;
    assert kept == db.agents - gone;
  }

  class AgentStore {
    var db: Db

    constructor (db: Db)
      ensures this.db == db
    {
      this.db := db;
    }

    /** `revoke_biscuit_ids`, given the ids that the token carries; an id on the list already is skipped. */
    method RevokeBiscuitIds(customer: string, ids: seq<string>) returns (inserted: seq<string>)
      modifies this
      ensures db == old(db).(denied := old(db).denied + Denials(customer, ids))
      ensures forall id :: id in inserted <==> id in ids && (customer, id) !in old(db).denied
      ensures forall i, j :: 0 <= i < j < |inserted| ==> inserted[i] != inserted[j]
    {
      inserted := [];
      for i := 0 to |ids|
        invariant db == old(db).(denied := old(db).denied + Denials(customer, ids[..i]))
        invariant forall id :: id in inserted <==> id in ids[..i] && (customer, id) !in old(db).denied
        invariant forall i, j :: 0 <= i < j < |inserted| ==> inserted[i] != inserted[j]
      {
        assert Denials(customer, ids[..i + 1]) == Denials(customer, ids[..i]) + {(customer, ids[i])};
        if (customer, ids[i]) in db.denied {
          continue;
        }
        db := db.(denied := db.denied + {(customer, ids[i])});
        inserted := inserted + [ids[i]];
      }
      assert ids[..|ids|] == ids;
    }

    /** `revoke_agent` up to its commit. */
    method RevokeAgent(customer: string, agentId: string) returns (found: bool)
      modifies this
      ensures found <==> Owns(old(db), customer, agentId)
      ensures db == if found then RevokedIn(old(db), customer, agentId) else old(db)
    {
      if agentId !in db.agents || db.agents[agentId].customer != customer {
        return false;
      }
      var agent := db.agents[agentId];
      db := db.(agents := db.agents[agentId := agent.(status := Revoked)]);
      if agent.biscuit.Some? && agent.biscuit.value.kid in db.roots {
        var _ := RevokeBiscuitIds(customer, agent.biscuit.value.token.ids);
      }
      return true;
    }

    /** The deletion of agents in `prune_expired`. */
    method PruneAgents(now: int, grace: int) returns (deleted: nat)
      modifies this
      ensures db == PrunedIn(old(db), now, grace)
      ensures forall a :: a in old(db).agents && a !in db.agents <==>
        a in old(db).agents && old(db).agents[a].status == Expired && old(db).agents[a].expires + grace <= now
      ensures deleted == |old(db).agents.Keys - db.agents.Keys|
    {
      var cutoff := now - grace;
      var gone := set a | a in db.agents && db.agents[a].status == Expired && db.agents[a].expires <= cutoff;
      PruningRemoves(db, now, grace, gone);
      deleted := |gone|;
      db := db.(agents := db.agents - gone);
    }
  }

  // ---- Runs ----

  /** The capability token minted with a credential: its root key, what it grants and its revocation id. */
  datatype Minted = Minted(kid: string, grant: Biscuit.Grant, id: string)

  /** What was issued under an agent id, once and for all. */
  datatype Credential = Credential(customer: string, exp: int, biscuit: Option<Minted>)

  /**
   * `issued` and `revoked` remember every agent ever issued and ever revoked; `pending` holds the
   * agents that validations of expired credentials have read as active and are about to write back.
   */
  datatype State = State(
    clock: int, db: Db, sigs: Signatures, issued: map<string, Credential>, pending: map<int, string>,
    revoked: set<string>)

  /** Atomic steps; a validation that finds an expired credential takes two, `BeginFlip` and `CommitFlip`. */
  datatype Action =
    | Tick(elapsed: nat)
    | CreateKey(kid: string, customer: string)
    | CreateRoot(kid: string, customer: string, hex: string)
    | Issue(agent: string, customer: string, kid: string, exp: int, keyhash: string, biscuit: Option<Minted>)
    | BeginFlip(request: int, customer: string, text: string, pop: Option<PopMessage.PopProof>)
    | CommitFlip(request: int)
    | Revoke(customer: string, agent: string)
    | Prune(grace: nat)

  /** Agent ids are never drawn twice, and neither are revocation ids, which are signatures. */
  predicate MayIssue(s: State, agent: string, customer: string, kid: string, biscuit: Option<Minted>) {
    && agent !in s.issued
    && kid in s.db.keys && s.db.keys[kid].customer == customer
    && (biscuit.Some? ==>
          && biscuit.value.kid in s.db.roots && s.db.roots[biscuit.value.kid].customer == customer
          && forall m :: m in s.sigs.biscuits ==> m.2 != biscuit.value.id)
  }

  function DoIssue(
      s: State, agent: string, customer: string, kid: string, exp: int, keyhash: string, biscuit: Option<Minted>): State
    requires MayIssue(s, agent, customer, kid, biscuit)
  {
    var jwt := Jwt(Some(kid), true, true, Claims(true, Some(agent), customer, true, s.clock, exp, keyhash));
    var held := match biscuit
      case None => None
      case Some(m) => Some(Held(m.kid, Biscuit.Mint(m.grant, m.id)));
    var minted := match biscuit
      case None => {}
      case Some(m) => {(s.db.roots[m.kid].hex, m.grant, m.id)};
    s.(db := s.db.(agents := s.db.agents[agent := Agent(customer, Active, held, keyhash, exp)]),
       sigs := Signatures(s.sigs.jwts + {(kid, jwt)}, s.sigs.biscuits + minted),
       issued := s.issued[agent := Credential(customer, exp, biscuit)])
  }

  /** The read half of the bookkeeping after a validation that found the credential expired. */
  ghost function DoBeginFlip(
      h: Host, s: State, request: int, customer: string, text: string, pop: Option<PopMessage.PopProof>): State
  {
    if ValidateToken(h, s.db, s.sigs, customer, text, pop, s.clock) != TokenExpired || request in s.pending then s
    else
      var agent := h.jwtOf(text).value.claims.agentId;
      if agent.None? || agent.value !in s.db.agents || s.db.agents[agent.value].status != Active then s
      else s.(pending := s.pending[request := agent.value])
  }

  /** The write half, which overwrites whatever the status has become unless the row is gone. */
  function DoCommitFlip(s: State, request: int): State {
    if request !in s.pending then s
    else
      var agent := s.pending[request];
      var t := s.(pending := s.pending - {request});
      if agent !in s.db.agents then t
      else t.(db := s.db.(agents := s.db.agents[agent := s.db.agents[agent].(status := Expired)]))
  }

  predicate MayRevoke(s: State, customer: string, agent: string) {
    Owns(s.db, customer, agent)
  }

  /** `revoke_agent`: the status and the deny list change in one commit. */
  function DoRevoke(s: State, customer: string, agent: string): State {
    if !MayRevoke(s, customer, agent) then s
    else s.(db := RevokedIn(s.db, customer, agent), revoked := s.revoked + {agent})
  }

  function DoPrune(s: State, grace: nat): State {
    s.(db := PrunedIn(s.db, s.clock, grace))
  }

  ghost function Step(h: Host, s: State, a: Action): State {
    match a
    case Tick(elapsed) => s.(clock := s.clock + elapsed)
    case CreateKey(kid, customer) =>
      if kid in s.db.keys then s else s.(db := s.db.(keys := s.db.keys[kid := SigningKey(customer, true)]))
    case CreateRoot(kid, customer, hex) =>
      if kid in s.db.roots || exists k :: k in s.db.roots && s.db.roots[k].hex == hex then s
      else s.(db := s.db.(roots := s.db.roots[kid := RootKey(customer, hex)]))
    case Issue(agent, customer, kid, exp, keyhash, biscuit) =>
      if MayIssue(s, agent, customer, kid, biscuit) then DoIssue(s, agent, customer, kid, exp, keyhash, biscuit) else s
    case BeginFlip(request, customer, text, pop) => DoBeginFlip(h, s, request, customer, text, pop)
    case CommitFlip(request) => DoCommitFlip(s, request)
    case Revoke(customer, agent) => DoRevoke(s, customer, agent)
    case Prune(grace) => DoPrune(s, grace)
  }

  ghost function Run(h: Host, s: State, actions: seq<Action>): State
    decreases |actions|
  {
    if actions == [] then s else Run(h, Step(h, s, actions[0]), actions[1..])
  }

  predicate SameKey(before: Db, after: Db, kid: string) {
    && (kid in before.keys ==> kid in after.keys && after.keys[kid] == before.keys[kid])
    && (kid in before.roots ==> kid in after.roots && after.roots[kid] == before.roots[kid])
  }

  lemma StepKeepsKeys(h: Host, s: State, a: Action, kid: string)
    ensures SameKey(s.db, Step(h, s, a).db, kid)
  {
  }

  /** Nobody takes over the id of a signing key or of a root key. */
  lemma {:induction false} KeysStay(h: Host, s: State, actions: seq<Action>, kid: string)
    ensures SameKey(s.db, Run(h, s, actions).db, kid)
    decreases |actions|
  {
    if actions != [] {
      StepKeepsKeys(h, s, actions[0], kid);
      KeysStay(h, Step(h, s, actions[0]), actions[1..], kid);
    }
  }

  const START := State(0, Db(map[], map[], map[], {}), Signatures({}, {}), map[], map[], {})

  // ---- The invariant ----

  /** Public keys and revocation ids belong to one root key and one token each. */
  ghost predicate UniqueKeys(s: State) {
    && (forall k, l :: k in s.db.roots && l in s.db.roots && s.db.roots[k].hex == s.db.roots[l].hex ==> k == l)
    && (forall m, n :: m in s.sigs.biscuits && n in s.sigs.biscuits && m.2 == n.2 ==> m == n)
  }

  /** A minted capability token is signed with a root key of the credential's tenant. */
  predicate MintedWell(s: State, c: Credential) {
    c.biscuit.Some? ==>
      && c.biscuit.value.kid in s.db.roots && s.db.roots[c.biscuit.value.kid].customer == c.customer
      && (s.db.roots[c.biscuit.value.kid].hex, c.biscuit.value.grant, c.biscuit.value.id) in s.sigs.biscuits
  }

  /** An agent's row shows what was issued. */
  predicate RowMatches(row: Agent, c: Credential) {
    && row.customer == c.customer && row.expires == c.exp
    && row.biscuit == match c.biscuit
       case None => None
       case Some(m) => Some(Held(m.kid, Biscuit.Mint(m.grant, m.id)))
  }

  /** Credentials, rows and signed tokens agree. */
  ghost predicate Consistent(s: State) {
    && (forall a :: a in s.issued ==> MintedWell(s, s.issued[a]))
    && (forall a :: a in s.db.agents ==> a in s.issued && RowMatches(s.db.agents[a], s.issued[a]))
    && (forall k, j :: (k, j) in s.sigs.jwts ==>
          && j.claims.agentId.Some? && j.claims.agentId.value in s.issued
          && j.claims.exp == s.issued[j.claims.agentId.value].exp)
  }

  /** Only credentials that have expired are about to be written back as expired. */
  predicate FlipsAreLate(s: State) {
    forall r :: r in s.pending ==> s.pending[r] in s.issued && s.issued[s.pending[r]].exp <= s.clock
  }

  /** A revoked agent that is still there and has not expired says so, and its token is on the deny list. */
  predicate StaysRevoked(s: State, a: string) {
    && a in s.issued
    && (a in s.db.agents && s.clock < s.issued[a].exp ==> s.db.agents[a].status == Revoked)
    && (s.issued[a].biscuit.Some? ==> (s.issued[a].customer, s.issued[a].biscuit.value.id) in s.db.denied)
  }

  ghost predicate Inv(s: State) {
    UniqueKeys(s) && Consistent(s) && FlipsAreLate(s) && forall a :: a in s.revoked ==> StaysRevoked(s, a)
  }

  lemma IssueKeepsInv(
      s: State, agent: string, customer: string, kid: string, exp: int, keyhash: string, biscuit: Option<Minted>)
    requires Inv(s) && MayIssue(s, agent, customer, kid, biscuit)
    ensures Inv(DoIssue(s, agent, customer, kid, exp, keyhash, biscuit))
  {
    var t := DoIssue(s, agent, customer, kid, exp, keyhash, biscuit);
    assert s.sigs.biscuits <= t.sigs.biscuits && t.db.roots == s.db.roots;
    assert UniqueKeys(t);
    forall a | a in t.issued ensures MintedWell(t, t.issued[a]) {
      assert a in s.issued ==> MintedWell(s, s.issued[a]);
    }
    assert agent !in s.db.agents && agent !in s.revoked;
  }

  lemma BeginFlipKeepsInv(
      h: Host, s: State, request: int, customer: string, text: string, pop: Option<PopMessage.PopProof>)
    requires Inv(s)
    ensures Inv(DoBeginFlip(h, s, request, customer, text, pop))
  {
    if ValidateToken(h, s.db, s.sigs, customer, text, pop, s.clock) == TokenExpired {
      var j := h.jwtOf(text).value;
      assert (j.kid.value, j) in s.sigs.jwts && j.claims.exp <= s.clock;
    }
  }

  lemma RevokeKeepsInv(s: State, customer: string, agent: string)
    requires Inv(s)
    ensures Inv(DoRevoke(s, customer, agent))
    ensures MayRevoke(s, customer, agent) ==> agent in DoRevoke(s, customer, agent).revoked
  {
    if MayRevoke(s, customer, agent) {
      var t := DoRevoke(s, customer, agent);
      var c := s.issued[agent];
      assert MintedWell(s, c);
      if c.biscuit.Some? {
        assert HeldIds(s.db, s.db.agents[agent]) == [c.biscuit.value.id];
        assert (customer, c.biscuit.value.id) in Denials(customer, [c.biscuit.value.id]);
      }
      assert StaysRevoked(t, agent);
      forall a | a in s.revoked ensures StaysRevoked(t, a) {
        assert StaysRevoked(s, a);
      }
    }
  }

  lemma CommitFlipKeepsInv(s: State, request: int)
    requires Inv(s)
    ensures Inv(DoCommitFlip(s, request))
  {
  }

  lemma PruneKeepsInv(s: State, grace: nat)
    requires Inv(s)
    ensures Inv(DoPrune(s, grace))
  {
    var t := DoPrune(s, grace);
    forall a | a in s.revoked ensures StaysRevoked(t, a) {
      assert StaysRevoked(s, a);
    }
  }

  lemma CreateKeepsInv(h: Host, s: State, a: Action)
    requires Inv(s) && (a.CreateKey? || a.CreateRoot? || a.Tick?)
    ensures Inv(Step(h, s, a))
  {
  }

  lemma StepKeepsInv(h: Host, s: State, a: Action)
    requires Inv(s)
    ensures Inv(Step(h, s, a))
  {
    match a {
      case Tick(_) =>
        CreateKeepsInv(h, s, a);
      case CreateKey(_, _) =>
        CreateKeepsInv(h, s, a);
      case CreateRoot(_, _, _) =>
        CreateKeepsInv(h, s, a);
      case Issue(agent, customer, kid, exp, keyhash, biscuit) =>
        if MayIssue(s, agent, customer, kid, biscuit) {
          IssueKeepsInv(s, agent, customer, kid, exp, keyhash, biscuit);
        }
      case BeginFlip(request, customer, text, pop) =>
        BeginFlipKeepsInv(h, s, request, customer, text, pop);
      case CommitFlip(request) =>
        CommitFlipKeepsInv(s, request);
      case Revoke(customer, agent) =>
        RevokeKeepsInv(s, customer, agent);
      case Prune(grace) =>
        PruneKeepsInv(s, grace);
    }
  }

  /** What was issued stays issued, and what was revoked stays revoked. */
  predicate Later(s: State, t: State) {
    s.revoked <= t.revoked && s.issued.Keys <= t.issued.Keys && forall a :: a in s.issued ==> t.issued[a] == s.issued[a]
  }

  lemma StepIsLater(h: Host, s: State, a: Action)
    ensures Later(s, Step(h, s, a))
  {
  }

  lemma {:induction false} RunKeepsInv(h: Host, s: State, actions: seq<Action>)
    requires Inv(s)
    ensures Inv(Run(h, s, actions)) && Later(s, Run(h, s, actions))
    decreases |actions|
  {
    if actions != [] {
      StepKeepsInv(h, s, actions[0]);
      StepIsLater(h, s, actions[0]);
      RunKeepsInv(h, Step(h, s, actions[0]), actions[1..]);
    }
  }

  /** A credential just issued is valid for its workload until it expires. */
  lemma IssuedIsValid(
      h: Host, s: State, agent: string, customer: string, kid: string, exp: int, keyhash: string,
      biscuit: Option<Minted>, text: string, pop: PopMessage.PopProof, now: int)
    requires MayIssue(s, agent, customer, kid, biscuit) && s.db.keys[kid].supported && keyhash != ""
    requires h.jwtOf(text) == Some(
      Jwt(Some(kid), true, true, Claims(true, Some(agent), customer, true, s.clock, exp, keyhash)))
    requires s.clock <= now
    requires PopMessage.VerifyRequestPop(
      h.pop, keyhash, pop, Some(PopMessage.Operation("jwt", "validate")), Some("POST"), Some("/v1/validate"),
      Some(h.tokenHash(text)), 300, now)
    ensures var t := DoIssue(s, agent, customer, kid, exp, keyhash, biscuit);
      ValidateToken(h, t.db, t.sigs, customer, text, Some(pop), now) == Valid <==> now < exp
    ensures var t := DoIssue(s, agent, customer, kid, exp, keyhash, biscuit);
      var u := DoRevoke(t, customer, agent);
      ValidateToken(h, u.db, u.sigs, customer, text, Some(pop), now) == AgentRevoked <==> now < exp
  {
    var t := DoIssue(s, agent, customer, kid, exp, keyhash, biscuit);
    var u := DoRevoke(t, customer, agent);
    ValidExactly(h, t.db, t.sigs, customer, text, Some(pop), now);
    RefusedExactly(h, u.db, u.sigs, customer, text, Some(pop), now);
  }

  // ---- What a revoked agent can still do ----

  /** The text is the JWT of `agent`. */
  predicate IsCredentialOf(h: Host, agent: string, text: string) {
    h.jwtOf(text).Some? && h.jwtOf(text).value.claims.agentId == Some(agent)
  }

  /** The text is the capability token minted for `agent` or was made from it by any attenuation. */
  predicate IsTokenOf(h: Host, s: State, agent: string, text: string) {
    && agent in s.issued && s.issued[agent].biscuit.Some? && h.biscuitOf(text).Some?
    && var m := s.issued[agent].biscuit.value;
       Extends(h.biscuitOf(text).value, Biscuit.Mint(m.grant, m.id))
  }

  lemma RevokedNeverValid(
      h: Host, s: State, agent: string, caller: string, text: string, pop: Option<PopMessage.PopProof>)
    requires Inv(s) && agent in s.revoked && IsCredentialOf(h, agent, text)
    ensures ValidateToken(h, s.db, s.sigs, caller, text, pop, s.clock) != Valid
  {
    ValidExactly(h, s.db, s.sigs, caller, text, pop, s.clock);
    assert StaysRevoked(s, agent);
  }

  /** A token made from a revoked agent's is on the deny list of whoever holds the root key it verifies under. */
  lemma MadeFromRevoked(h: Host, s: State, agent: string, caller: string, t: Token, hex: string)
    requires Inv(s) && agent in s.revoked && agent in s.issued && s.issued[agent].biscuit.Some?
    requires Extends(t, Biscuit.Mint(s.issued[agent].biscuit.value.grant, s.issued[agent].biscuit.value.id))
    requires VerifiesUnder(s.sigs, t, hex)
    requires exists kid :: kid in s.db.roots && s.db.roots[kid] == RootKey(caller, hex)
    ensures HasRevocation(s.db, caller, t)
  {
    var c := s.issued[agent];
    var m := c.biscuit.value;
    assert StaysRevoked(s, agent) && MintedWell(s, c);
    var g, id :| (hex, g, id) in s.sigs.biscuits && Extends(t, Biscuit.Mint(g, id));
    assert t.ids[0] == Biscuit.Mint(g, id).ids[0] == id;
    assert t.ids[0] == Biscuit.Mint(m.grant, m.id).ids[0] == m.id;
    assert (hex, g, id) == (s.db.roots[m.kid].hex, m.grant, m.id);
    assert caller == c.customer;
    assert m.id in t.ids;
  }

  lemma RevokedNeverAllowed(
      h: Host, s: State, agent: string, caller: string, hexes: seq<string>, text: string, call: Biscuit.Call)
    requires Inv(s) && agent in s.revoked && RootsOf(s.db, caller, hexes) && IsTokenOf(h, s, agent, text)
    ensures VerifyCapability(h, s.db, s.sigs, caller, hexes, text, call) != Decided(Biscuit.Allowed)
  {
    if VerifyCapability(h, s.db, s.sigs, caller, hexes, text, call) == Decided(Biscuit.Allowed) {
      var hex, t := AllowedForSomeToken(h, s.db, s.sigs, caller, hexes, text, call);
      MadeFromRevoked(h, s, agent, caller, t, hex);
    }
  }

  /**
   * After a revocation commits, and whatever mints, rotations, prunes and racing expiry writes follow,
   * nobody can validate the agent's credential nor use its capability token or anything made from it.
   */
  lemma RevocationIsFinal(
      h: Host, before: seq<Action>, customer: string, agent: string, after: seq<Action>,
      caller: string, hexes: seq<string>, text: string, pop: Option<PopMessage.PopProof>, call: Biscuit.Call)
    requires MayRevoke(Run(h, START, before), customer, agent)
    requires RootsOf(Run(h, DoRevoke(Run(h, START, before), customer, agent), after).db, caller, hexes)
    ensures var s := Run(h, DoRevoke(Run(h, START, before), customer, agent), after);
      && (IsCredentialOf(h, agent, text) ==> ValidateToken(h, s.db, s.sigs, caller, text, pop, s.clock) != Valid)
      && (IsTokenOf(h, s, agent, text) ==>
            VerifyCapability(h, s.db, s.sigs, caller, hexes, text, call) != Decided(Biscuit.Allowed))
  {
    RunKeepsInv(h, START, before);
    var s := Run(h, START, before);
    RevokeKeepsInv(s, customer, agent);
    var t := DoRevoke(s, customer, agent);
    RunKeepsInv(h, t, after);
    var u := Run(h, t, after);
    if IsCredentialOf(h, agent, text) {
      RevokedNeverValid(h, u, agent, caller, text, pop);
    }
    if IsTokenOf(h, u, agent, text) {
      RevokedNeverAllowed(h, u, agent, caller, hexes, text, call);
    }
  }

  /** In particular no attenuation of the agent's capability token is allowed anything any more. */
  lemma AttenuationDoesNotEscapeRevocation(
      h: Host, before: seq<Action>, customer: string, agent: string, after: seq<Action>, m: Minted,
      cs: seq<(Biscuit.Caveat, string)>, caller: string, hexes: seq<string>, text: string, call: Biscuit.Call)
    requires MayRevoke(Run(h, START, before), customer, agent)
    requires agent in Run(h, START, before).issued && Run(h, START, before).issued[agent].biscuit == Some(m)
    requires h.biscuitOf(text) == Some(Biscuit.Chain(m.grant, m.id, cs))
    requires RootsOf(Run(h, DoRevoke(Run(h, START, before), customer, agent), after).db, caller, hexes)
    ensures var s := Run(h, DoRevoke(Run(h, START, before), customer, agent), after);
      VerifyCapability(h, s.db, s.sigs, caller, hexes, text, call) != Decided(Biscuit.Allowed)
  {
    var s := Run(h, START, before);
    RunKeepsInv(h, START, before);
    RevokeKeepsInv(s, customer, agent);
    RunKeepsInv(h, DoRevoke(s, customer, agent), after);
    ChainExtends(m.grant, m.id, cs);
    RevocationIsFinal(h, before, customer, agent, after, caller, hexes, text, None, call);
  }

  // ---- Whether the row of a revoked agent is kept ----

  lemma {:induction false} RunConcat(h: Host, s: State, a: seq<Action>, b: seq<Action>)
    ensures Run(h, s, a + b) == Run(h, Run(h, s, a), b)
    decreases |a|
  {
    if a == [] {
      assert a + b == b;
    } else {
      assert (a + b)[0] == a[0] && (a + b)[1..] == a[1..] + b;
      RunConcat(h, Step(h, s, a[0]), a[1..], b);
    }
  }

  /** The agent's row is there and says revoked, and nothing is about to overwrite it. */
  predicate RowSafe(s: State, agent: string) {
    && agent in s.issued && agent in s.db.agents && s.db.agents[agent].status == Revoked
    && forall r :: r in s.pending ==> s.pending[r] != agent
  }

  lemma StepKeepsRow(h: Host, s: State, a: Action, agent: string)
    requires RowSafe(s, agent)
    ensures RowSafe(Step(h, s, a), agent)
  {
  }

  lemma {:induction false} RunKeepsRow(h: Host, s: State, actions: seq<Action>, agent: string)
    requires RowSafe(s, agent)
    ensures RowSafe(Run(h, s, actions), agent)
    decreases |actions|
  {
    if actions != [] {
      StepKeepsRow(h, s, actions[0], agent);
      RunKeepsRow(h, Step(h, s, actions[0]), actions[1..], agent);
    }
  }

  /** A validation has read the agent as active and is about to write it back as expired. */
  predicate FlipPending(s: State, agent: string) {
    exists r :: r in s.pending && s.pending[r] == agent
  }

  /** The pending write overwrites the revocation, and pruning then deletes the row. */
  lemma FlipLosesRow(h: Host, s: State, request: int, agent: string)
    requires Inv(s) && agent in s.db.agents && request in s.pending && s.pending[request] == agent
    ensures agent !in Run(h, s, [CommitFlip(request), Prune(0)]).db.agents
  {
    var a := [CommitFlip(request), Prune(0)];
    assert a[1..] == [Prune(0)] && [Prune(0)][1..] == [];
    var t := DoCommitFlip(s, request);
    assert RowMatches(s.db.agents[agent], s.issued[agent]);
    assert Run(h, s, a) == Run(h, t, [Prune(0)]) == Run(h, DoPrune(t, 0), []);
  }

  /**
   * The row of an agent can be lost after its revocation if and only if, when it is revoked, some
   * validation that found the credential expired has read the row as active and not yet written it.
   */
  lemma RevokedRowLostIff(h: Host, s: State, customer: string, agent: string)
    requires Inv(s) && MayRevoke(s, customer, agent)
    ensures (exists after :: agent !in Run(h, DoRevoke(s, customer, agent), after).db.agents) <==> FlipPending(s, agent)
  {
    var t := DoRevoke(s, customer, agent);
    RevokeKeepsInv(s, customer, agent);
    if FlipPending(s, agent) {
      var r :| r in s.pending && s.pending[r] == agent;
      FlipLosesRow(h, t, r, agent);
    } else {
      forall after ensures agent in Run(h, t, after).db.agents {
        RunKeepsRow(h, t, after, agent);
      }
    }
  }

  /** An agent that is revoked before its credential expires keeps its row for ever. */
  lemma RevokedInTimeKeepsRow(h: Host, s: State, customer: string, agent: string, after: seq<Action>)
    requires Inv(s) && MayRevoke(s, customer, agent) && s.clock < s.db.agents[agent].expires
    ensures agent in Run(h, DoRevoke(s, customer, agent), after).db.agents
  {
    assert RowMatches(s.db.agents[agent], s.issued[agent]);
    assert !FlipPending(s, agent);
    RevokedRowLostIff(h, s, customer, agent);
  }

  /** A run that gets as far as that: a credential is issued, expires, and is presented once more. */
  function ExpiredAndPresented(kid: string, customer: string, agent: string, exp: nat, keyhash: string, text: string)
      : seq<Action>
  {
    [CreateKey(kid, customer), Issue(agent, customer, kid, exp, keyhash, None), Tick(exp),
     BeginFlip(0, customer, text, None)]
  }

  /** The credential that this run issues. */
  function Issued(kid: string, customer: string, agent: string, exp: int, keyhash: string): Jwt {
    Jwt(Some(kid), true, true, Claims(true, Some(agent), customer, true, 0, exp, keyhash))
  }

  lemma PresentedIsPending(
      h: Host, kid: string, customer: string, agent: string, exp: nat, keyhash: string, text: string)
    requires h.jwtOf(text) == Some(Issued(kid, customer, agent, exp, keyhash))
    ensures var s := Run(h, START, ExpiredAndPresented(kid, customer, agent, exp, keyhash, text));
      MayRevoke(s, customer, agent) && s.pending == map[0 := agent]
  {
    var a := ExpiredAndPresented(kid, customer, agent, exp, keyhash, text);
    assert a[1..] == [a[1], a[2], a[3]] && a[1..][1..] == [a[2], a[3]];
    assert [a[2], a[3]][1..] == [a[3]] && [a[3]][1..] == [];
    var s1 := Step(h, START, a[0]);
    assert s1.db.keys == map[kid := SigningKey(customer, true)];
    assert MayIssue(s1, agent, customer, kid, None);
    var s2 := Step(h, s1, a[1]);
    var s3 := Step(h, s2, a[2]);
    assert Run(h, START, a) == Run(h, s1, a[1..]) == Run(h, s2, [a[2], a[3]]) == Run(h, s3, [a[3]]);
    ExpiredOutcome(h, s3, kid, customer, agent, exp, keyhash, text);
    assert Run(h, s3, [a[3]]) == Run(h, Step(h, s3, a[3]), []);
  }

  lemma ExpiredOutcome(
      h: Host, s: State, kid: string, customer: string, agent: string, exp: nat, keyhash: string, text: string)
    requires h.jwtOf(text) == Some(Issued(kid, customer, agent, exp, keyhash)) && s.clock == exp
    requires kid in s.db.keys && s.db.keys[kid] == SigningKey(customer, true)
    requires (kid, Issued(kid, customer, agent, exp, keyhash)) in s.sigs.jwts
    ensures ValidateToken(h, s.db, s.sigs, customer, text, None, s.clock) == TokenExpired
  {
  }

  /**
   * Such a run exists for every tenant, agent and expiry: revoked after the validation has read the row
   * and before it writes, the agent ends up without a row, although it was revoked.
   */
  lemma RacingWriteErasesRevocation(
      h: Host, kid: string, customer: string, agent: string, exp: nat, keyhash: string, text: string)
    requires h.jwtOf(text) == Some(Issued(kid, customer, agent, exp, keyhash))
    ensures var s := Run(h, START, ExpiredAndPresented(kid, customer, agent, exp, keyhash, text)
                                   + [Revoke(customer, agent), CommitFlip(0), Prune(0)]);
      agent in s.revoked && agent !in s.db.agents
  {
    var before := ExpiredAndPresented(kid, customer, agent, exp, keyhash, text);
    RunConcat(h, START, before, [Revoke(customer, agent), CommitFlip(0), Prune(0)]);
    RunKeepsInv(h, START, before);
    PresentedIsPending(h, kid, customer, agent, exp, keyhash, text);
    RevokedThenErased(h, Run(h, START, before), 0, customer, agent);
  }

  lemma RevokedThenErased(h: Host, s: State, request: int, customer: string, agent: string)
    requires Inv(s) && MayRevoke(s, customer, agent) && request in s.pending && s.pending[request] == agent
    ensures var t := Run(h, s, [Revoke(customer, agent), CommitFlip(request), Prune(0)]);
      agent in t.revoked && agent !in t.db.agents
  {
    var end := [Revoke(customer, agent), CommitFlip(request), Prune(0)];
    assert end[1..] == [CommitFlip(request), Prune(0)];
    RevokeKeepsInv(s, customer, agent);
    FlipLosesRow(h, DoRevoke(s, customer, agent), request, agent);
    RunKeepsInv(h, DoRevoke(s, customer, agent), [CommitFlip(request), Prune(0)]);
  }
}
