/** Capability tokens: minting, attenuation and the authorization decision. */
module Biscuit {
  import opened Text
  import opened Datalog
  import opened Scopes
  import opened Paths
  import opened PopMessage

  // ---- Tokens ----

  /** What `mint_biscuit` is given. */
  datatype Grant = Grant(
    capabilities: seq<Capability>, spiffeId: string, agentId: string, boundKey: string, expires: int)

  /** What `attenuate_biscuit` is given. */
  datatype Caveat = Caveat(
    capabilities: seq<Capability>, allowedPaths: seq<string>, deniedPaths: seq<string>, expires: Option<int>)

  function CapabilityFacts(name: Relation, cs: seq<Capability>): seq<Fact> {
    seq(|cs|, i requires 0 <= i < |cs| => Fact(name, [Str(cs[i].resource), Str(cs[i].action)]))
  }

  function PathFacts(name: Relation, ps: seq<string>): seq<Fact> {
    seq(|ps|, i requires 0 <= i < |ps| => Fact(name, [Str(ps[i])]))
  }

  /** `check if valid_pop(true)`. */
  const POP_CHECK := Query([Atom(ValidPop, [Lit(Bool(true))])], NoGuard)

  /** `check if time($t), $t <= expires`. */
  function TimeCheck(expires: int): Query {
    Query([Atom(Time, [Var("t")])], NotAfter("t", expires))
  }

  /** `check if operation($r, $a), allowed_cap($r, $a)`. */
  const NARROWING_CHECK :=
    Query([Atom(OperationFact, [Var("r"), Var("a")]), Atom(AllowedCap, [Var("r"), Var("a")])], NoGuard)

  function AuthorityBlock(g: Grant): Block {
    Block(
      CapabilityFacts(CapabilityFact, Normalize(g.capabilities))
      + [Fact(SpiffeId, [Str(g.spiffeId)]), Fact(AgentId, [Str(g.agentId)]), Fact(BoundKey, [Str(g.boundKey)])],
      [POP_CHECK, TimeCheck(g.expires)])
  }

  function CaveatBlock(c: Caveat): Block {
    var caps := Normalize(c.capabilities);
    Block(
      CapabilityFacts(AllowedCap, caps) + PathFacts(AllowedPath, c.allowedPaths) + PathFacts(DeniedPath, c.deniedPaths),
      (if caps == [] then [] else [NARROWING_CHECK])
      + (if c.expires.Some? then [TimeCheck(c.expires.value)] else []))
  }

  function Mint(g: Grant, id: string): Token {
    Token(AuthorityBlock(g), [], [id])
  }

  function Attenuate(t: Token, c: Caveat, id: string): Token {
    Append(t, CaveatBlock(c), id)
  }

  /** A minted token after any number of attenuations, each with the revocation id of its block. */
  function Chain(g: Grant, id: string, cs: seq<(Caveat, string)>): Token {
    if cs == [] then Mint(g, id)
    else Attenuate(Chain(g, id, cs[..|cs| - 1]), cs[|cs| - 1].0, cs[|cs| - 1].1)
  }

  method AddCapabilityFacts(facts: seq<Fact>, name: Relation, cs: seq<Capability>) returns (r: seq<Fact>)
    ensures r == facts + CapabilityFacts(name, cs)
  {
    r := facts;
    for i := 0 to |cs|
      invariant r == facts + CapabilityFacts(name, cs)[..i]
    {
      r := r + [Fact(name, [Str(cs[i].resource), Str(cs[i].action)])];
    }
  }

  method AddPathFacts(facts: seq<Fact>, name: Relation, ps: seq<string>) returns (r: seq<Fact>)
    ensures r == facts + PathFacts(name, ps)
  {
    r := facts;
    for i := 0 to |ps|
      invariant r == facts + PathFacts(name, ps)[..i]
    {
      r := r + [Fact(name, [Str(ps[i])])];
    }
  }

  /** The builder of `mint_biscuit`. */
  method BuildAuthorityBlock(g: Grant) returns (b: Block)
    ensures b == AuthorityBlock(g)
  {
    var facts := AddCapabilityFacts([], CapabilityFact, Normalize(g.capabilities));
    facts := facts + [Fact(SpiffeId, [Str(g.spiffeId)])];
    facts := facts + [Fact(AgentId, [Str(g.agentId)])];
    facts := facts + [Fact(BoundKey, [Str(g.boundKey)])];
    assert facts == AuthorityBlock(g).facts;
    var checks := [POP_CHECK];
    checks := checks + [TimeCheck(g.expires)];
    b := Block(facts, checks);
  }

  /** The builder of `attenuate_biscuit`: facts and checks are added one by one. */
  method BuildCaveatBlock(c: Caveat) returns (b: Block)
    ensures b == CaveatBlock(c)
  {
    var checks: seq<Query> := [];
    var caps := Normalize(c.capabilities);
    var facts := AddCapabilityFacts([], AllowedCap, caps);
    if caps != [] {
      checks := checks + [NARROWING_CHECK];
    }
    facts := AddPathFacts(facts, AllowedPath, c.allowedPaths);
    facts := AddPathFacts(facts, DeniedPath, c.deniedPaths);
    if c.expires.Some? {
      checks := checks + [TimeCheck(c.expires.value)];
    }
    b := Block(facts, checks);
  }

  // ---- The authorizer ----

  /** `allow if capability($r, $a), operation($r, $a)`. */
  const ALLOW_EXACT :=
    Query([Atom(CapabilityFact, [Var("r"), Var("a")]), Atom(OperationFact, [Var("r"), Var("a")])], NoGuard)

  /** `allow if capability($r, "*"), operation($r, $_)`. */
  const ALLOW_WILDCARD :=
    Query([Atom(CapabilityFact, [Var("r"), Lit(Str("*"))]), Atom(OperationFact, [Var("r"), Var("_")])], NoGuard)

  function OperationOf(op: Operation): Fact {
    Fact(OperationFact, [Str(op.resource), Str(op.action)])
  }

  function Ambient(op: Operation, now: int, validPop: bool): set<Fact> {
    {OperationOf(op), Fact(Time, [Date(now)])} + (if validPop then {Fact(ValidPop, [Bool(true)])} else {})
  }

  /** The Datalog decision; the policy's final `deny if true` is the absence of a matching allow. */
  ghost predicate LogicAllows(t: Token, op: Operation, now: int, validPop: bool) {
    Authorizes(t, Ambient(op, now, validPop), [ALLOW_EXACT, ALLOW_WILDCARD])
  }

  // ---- Closed form of the logic ----

  /** Exactly granted, or granted for every action of the resource. */
  predicate Granted(cs: seq<Capability>, op: Operation) {
    Capability(op.resource, op.action) in cs || Capability(op.resource, "*") in cs
  }

  predicate CaveatPermits(c: Caveat, op: Operation, now: int) {
    && (Normalize(c.capabilities) != [] ==> Capability(op.resource, op.action) in Normalize(c.capabilities))
    && (c.expires.Some? ==> now <= c.expires.value)
  }

  predicate ChainPermits(g: Grant, cs: seq<(Caveat, string)>, op: Operation, now: int, validPop: bool) {
    && validPop
    && now <= g.expires
    && Granted(Normalize(g.capabilities), op)
    && forall i :: 0 <= i < |cs| ==> CaveatPermits(cs[i].0, op, now)
  }

  lemma CapabilityFactIn(name: Relation, cs: seq<Capability>, f: Fact)
    ensures f in CapabilityFacts(name, cs) <==>
      f.name == name && |f.args| == 2 && f.args[0].Str? && f.args[1].Str?
      && Capability(f.args[0].s, f.args[1].s) in cs
  {
    var fs := CapabilityFacts(name, cs);
    if f in fs {
      var i :| 0 <= i < |fs| && fs[i] == f;
      assert cs[i] == Capability(f.args[0].s, f.args[1].s);
    }
    if f.name == name && |f.args| == 2 && f.args[0].Str? && f.args[1].Str?
       && Capability(f.args[0].s, f.args[1].s) in cs {
      var i :| 0 <= i < |cs| && cs[i] == Capability(f.args[0].s, f.args[1].s);
      assert fs[i].args == f.args;
      assert fs[i] == f;
    }
  }

  lemma PathFactIn(name: Relation, ps: seq<string>, f: Fact)
    ensures f in PathFacts(name, ps) <==> f.name == name && |f.args| == 1 && f.args[0].Str? && f.args[0].s in ps
  {
    var fs := PathFacts(name, ps);
    if f in fs {
      var i :| 0 <= i < |fs| && fs[i] == f;
      assert ps[i] == f.args[0].s;
    }
    if f.name == name && |f.args| == 1 && f.args[0].Str? && f.args[0].s in ps {
      var i :| 0 <= i < |ps| && ps[i] == f.args[0].s;
      assert fs[i].args == f.args;
      assert fs[i] == f;
    }
  }

  lemma AuthorityFactIn(g: Grant, f: Fact)
    ensures f in FactsOf(AuthorityBlock(g)) <==>
      || f in CapabilityFacts(CapabilityFact, Normalize(g.capabilities))
      || f == Fact(SpiffeId, [Str(g.spiffeId)]) || f == Fact(AgentId, [Str(g.agentId)])
      || f == Fact(BoundKey, [Str(g.boundKey)])
  {
  }

  lemma CaveatFactIn(c: Caveat, f: Fact)
    ensures f in FactsOf(CaveatBlock(c)) <==>
      || f in CapabilityFacts(AllowedCap, Normalize(c.capabilities))
      || f in PathFacts(AllowedPath, c.allowedPaths)
      || f in PathFacts(DeniedPath, c.deniedPaths)
  {
  }

  /** What the facts visible to the authority block say, relation by relation. */
  lemma TrustedFacts(g: Grant, op: Operation, now: int, validPop: bool)
    ensures var fs := FactsOf(AuthorityBlock(g)) + Ambient(op, now, validPop);
      && (forall u, v :: Fact(CapabilityFact, [u, v]) in fs <==>
            u.Str? && v.Str? && Capability(u.s, v.s) in Normalize(g.capabilities))
      && (forall u, v :: Fact(OperationFact, [u, v]) in fs <==> u == Str(op.resource) && v == Str(op.action))
      && (forall t :: Fact(Time, [Date(t)]) in fs <==> t == now)
      && (Fact(ValidPop, [Bool(true)]) in fs <==> validPop)
      && (forall f :: f in fs ==> f.name != AllowedCap)
  {
    AuthorityNames(g);
    AuthorityCapabilities(g);
    AmbientFacts(op, now, validPop);
  }

  lemma AuthorityCapabilities(g: Grant)
    ensures forall u, v :: Fact(CapabilityFact, [u, v]) in FactsOf(AuthorityBlock(g)) <==>
      u.Str? && v.Str? && Capability(u.s, v.s) in Normalize(g.capabilities)
  {
    forall u, v
      ensures Fact(CapabilityFact, [u, v]) in FactsOf(AuthorityBlock(g)) <==>
        u.Str? && v.Str? && Capability(u.s, v.s) in Normalize(g.capabilities)
    {
      AuthorityFactIn(g, Fact(CapabilityFact, [u, v]));
      CapabilityFactIn(CapabilityFact, Normalize(g.capabilities), Fact(CapabilityFact, [u, v]));
    }
  }

  lemma AmbientFacts(op: Operation, now: int, validPop: bool)
    ensures var fs := Ambient(op, now, validPop);
      && (forall f :: f in fs ==> f.name == OperationFact || f.name == Time || f.name == ValidPop)
      && (forall u, v :: Fact(OperationFact, [u, v]) in fs <==> u == Str(op.resource) && v == Str(op.action))
      && (forall t :: Fact(Time, [Date(t)]) in fs <==> t == now)
      && (Fact(ValidPop, [Bool(true)]) in fs <==> validPop)
  {
    var fs := Ambient(op, now, validPop);
    forall u, v | Fact(OperationFact, [u, v]) in fs ensures u == Str(op.resource) && v == Str(op.action) {
      assert Fact(OperationFact, [u, v]).args[0] == u && Fact(OperationFact, [u, v]).args[1] == v;
    }
    forall t | Fact(Time, [Date(t)]) in fs ensures t == now {
      assert Fact(Time, [Date(t)]).args[0] == Date(t);
    }
  }

  lemma AuthorityNames(g: Grant)
    ensures forall f :: f in FactsOf(AuthorityBlock(g)) ==>
      f.name == CapabilityFact || f.name == SpiffeId || f.name == AgentId || f.name == BoundKey
  {
    forall f | f in FactsOf(AuthorityBlock(g))
      ensures f.name == CapabilityFact || f.name == SpiffeId || f.name == AgentId || f.name == BoundKey
    {
      AuthorityFactIn(g, f);
      CapabilityFactIn(CapabilityFact, Normalize(g.capabilities), f);
    }
  }

  /** The same for the facts visible to an appended block. */
  lemma CaveatFacts(g: Grant, c: Caveat, op: Operation, now: int, validPop: bool)
    ensures var fs := FactsOf(AuthorityBlock(g)) + Ambient(op, now, validPop) + FactsOf(CaveatBlock(c));
      && (forall u, v :: Fact(OperationFact, [u, v]) in fs <==> u == Str(op.resource) && v == Str(op.action))
      && (forall t :: Fact(Time, [Date(t)]) in fs <==> t == now)
      && (forall r, a :: Fact(AllowedCap, [Str(r), Str(a)]) in fs <==> Capability(r, a) in Normalize(c.capabilities))
  {
    var caps := Normalize(c.capabilities);
    TrustedFacts(g, op, now, validPop);
    forall f | f in FactsOf(CaveatBlock(c)) ensures f.name != OperationFact && f.name != Time {
      CaveatFactIn(c, f);
      CapabilityFactIn(AllowedCap, caps, f);
      PathFactIn(AllowedPath, c.allowedPaths, f);
      PathFactIn(DeniedPath, c.deniedPaths, f);
    }
    forall r, a
      ensures Fact(AllowedCap, [Str(r), Str(a)]) in FactsOf(CaveatBlock(c)) <==> Capability(r, a) in caps
    {
      var f := Fact(AllowedCap, [Str(r), Str(a)]);
      CaveatFactIn(c, f);
      CapabilityFactIn(AllowedCap, caps, f);
      PathFactIn(AllowedPath, c.allowedPaths, f);
      PathFactIn(DeniedPath, c.deniedPaths, f);
    }
  }

  lemma MintedLogic(g: Grant, id: string, op: Operation, now: int, validPop: bool)
    ensures LogicAllows(Mint(g, id), op, now, validPop) <==> ChainPermits(g, [], op, now, validPop)
  {
    var fs := FactsOf(AuthorityBlock(g)) + Ambient(op, now, validPop);
    TrustedFacts(g, op, now, validPop);
    ConstantQuery(ValidPop, Bool(true), fs);
    DateQuery(Time, "t", g.expires, fs);
    assert ChecksHold(AuthorityBlock(g), fs) <==> validPop && now <= g.expires by {
      assert AuthorityBlock(g).checks[0] == POP_CHECK && AuthorityBlock(g).checks[1] == TimeCheck(g.expires);
    }
    PoliciesAllow(g, op, now, validPop);
  }

  lemma PoliciesAllow(g: Grant, op: Operation, now: int, validPop: bool)
    ensures var fs := FactsOf(AuthorityBlock(g)) + Ambient(op, now, validPop);
      (exists q :: q in [ALLOW_EXACT, ALLOW_WILDCARD] && Holds(q, fs)) <==> Granted(Normalize(g.capabilities), op)
  {
    var fs := FactsOf(AuthorityBlock(g)) + Ambient(op, now, validPop);
    TrustedFacts(g, op, now, validPop);
    SamePairJoin(CapabilityFact, OperationFact, "r", "a", fs);
    ConstantJoin(CapabilityFact, Str("*"), OperationFact, "r", "_", fs);
    var r, a := Str(op.resource), Str(op.action);
    assert Fact(OperationFact, [r, a]) in fs;
    assert Holds(ALLOW_EXACT, fs) <==> Fact(CapabilityFact, [r, a]) in fs;
    assert Holds(ALLOW_WILDCARD, fs) <==> Fact(CapabilityFact, [r, Str("*")]) in fs;
    assert ALLOW_EXACT in [ALLOW_EXACT, ALLOW_WILDCARD] && ALLOW_WILDCARD in [ALLOW_EXACT, ALLOW_WILDCARD];
  }

  lemma CaveatLogic(g: Grant, c: Caveat, op: Operation, now: int, validPop: bool)
    ensures var trusted := FactsOf(AuthorityBlock(g)) + Ambient(op, now, validPop);
      ChecksHold(CaveatBlock(c), trusted + FactsOf(CaveatBlock(c))) <==> CaveatPermits(c, op, now)
  {
    var fs := FactsOf(AuthorityBlock(g)) + Ambient(op, now, validPop) + FactsOf(CaveatBlock(c));
    CaveatFacts(g, c, op, now, validPop);
    CaveatChecks(c, op, now, fs);
  }

  lemma CaveatChecks(c: Caveat, op: Operation, now: int, fs: set<Fact>)
    requires forall u, v :: Fact(OperationFact, [u, v]) in fs <==> u == Str(op.resource) && v == Str(op.action)
    requires forall t :: Fact(Time, [Date(t)]) in fs <==> t == now
    requires forall r, a :: Fact(AllowedCap, [Str(r), Str(a)]) in fs <==> Capability(r, a) in Normalize(c.capabilities)
    ensures ChecksHold(CaveatBlock(c), fs) <==> CaveatPermits(c, op, now)
  {
    var r, a := Str(op.resource), Str(op.action);
    SamePairJoin(OperationFact, AllowedCap, "r", "a", fs);
    assert Holds(NARROWING_CHECK, fs) <==> Fact(AllowedCap, [r, a]) in fs by {
      assert Fact(OperationFact, [r, a]) in fs;
    }
    assert Fact(AllowedCap, [r, a]) in fs <==> Capability(op.resource, op.action) in Normalize(c.capabilities);
    if c.expires.Some? {
      DateQuery(Time, "t", c.expires.value, fs);
      assert Holds(TimeCheck(c.expires.value), fs) <==> now <= c.expires.value by {
        assert Fact(Time, [Date(now)]) in fs;
      }
    }
    CaveatCheckIn(c);
  }

  lemma CaveatCheckIn(c: Caveat)
    ensures forall q :: q in CaveatBlock(c).checks <==>
      || (Normalize(c.capabilities) != [] && q == NARROWING_CHECK)
      || (c.expires.Some? && q == TimeCheck(c.expires.value))
  {
  }

  lemma {:induction false} ChainAuthority(g: Grant, id: string, cs: seq<(Caveat, string)>)
    ensures Chain(g, id, cs).authority == AuthorityBlock(g)
  {
    if cs != [] {
      ChainAuthority(g, id, cs[..|cs| - 1]);
    }
  }

  lemma AttenuatedLogic(g: Grant, t: Token, c: Caveat, id: string, op: Operation, now: int, validPop: bool)
    requires t.authority == AuthorityBlock(g)
    ensures LogicAllows(Attenuate(t, c, id), op, now, validPop)
       <==> LogicAllows(t, op, now, validPop) && CaveatPermits(c, op, now)
  {
    CaveatLogic(g, c, op, now, validPop);
    AppendOnlyRestricts(t, CaveatBlock(c), id, Ambient(op, now, validPop), [ALLOW_EXACT, ALLOW_WILDCARD]);
  }

  lemma ChainPermitsAppended(
      g: Grant, cs: seq<(Caveat, string)>, c: (Caveat, string), op: Operation, now: int, validPop: bool)
    ensures ChainPermits(g, cs + [c], op, now, validPop)
       <==> ChainPermits(g, cs, op, now, validPop) && CaveatPermits(c.0, op, now)
  {
    var ds := cs + [c];
    assert ds[|cs|] == c && forall i :: 0 <= i < |cs| ==> ds[i] == cs[i];
  }

  lemma ChainLogicStep(
      g: Grant, t: Token, cs: seq<(Caveat, string)>, c: (Caveat, string), op: Operation, now: int, validPop: bool)
    requires t.authority == AuthorityBlock(g)
    requires LogicAllows(t, op, now, validPop) <==> ChainPermits(g, cs, op, now, validPop)
    ensures LogicAllows(Attenuate(t, c.0, c.1), op, now, validPop) <==> ChainPermits(g, cs + [c], op, now, validPop)
  {
    AttenuatedLogic(g, t, c.0, c.1, op, now, validPop);
    ChainPermitsAppended(g, cs, c, op, now, validPop);
  }

  /** Join-based evaluation of a token with any chain of caveats equals the closed form. */
  lemma {:induction false} ChainLogic(
      g: Grant, id: string, cs: seq<(Caveat, string)>, op: Operation, now: int, validPop: bool)
    ensures LogicAllows(Chain(g, id, cs), op, now, validPop) <==> ChainPermits(g, cs, op, now, validPop)
  {
    if cs == [] {
      MintedLogic(g, id, op, now, validPop);
    } else {
      var init, last := cs[..|cs| - 1], cs[|cs| - 1];
      ChainLogic(g, id, init, op, now, validPop);
      ChainAuthority(g, id, init);
      ChainLogicStep(g, Chain(g, id, init), init, last, op, now, validPop);
      assert cs == init + [last];
    }
  }

  // ---- Path scope of a token ----

  predicate IsPattern(f: Fact, name: Relation) {
    f.name == name && |f.args| == 1 && f.args[0].Str? && f.args[0].s != ""
  }

  /** The patterns found where facts are written; the expression finds no empty pattern. */
  function PatternsIn(fs: seq<Fact>, name: Relation): seq<string> {
    if fs == [] then []
    else (if IsPattern(fs[0], name) then [fs[0].args[0].s] else []) + PatternsIn(fs[1..], name)
  }

  /** An atom of a check with a literal argument is written like a fact. */
  predicate LooksLikePattern(a: Atom, name: Relation) {
    a.name == name && |a.terms| == 1 && a.terms[0].Lit? && a.terms[0].value.Str? && a.terms[0].value.s != ""
  }

  function PatternsInBody(body: seq<Atom>, name: Relation): seq<string> {
    if body == [] then []
    else (if LooksLikePattern(body[0], name) then [body[0].terms[0].value.s] else []) + PatternsInBody(body[1..], name)
  }

  function PatternsInChecks(qs: seq<Query>, name: Relation): seq<string> {
    if qs == [] then [] else PatternsInBody(qs[0].body, name) + PatternsInChecks(qs[1..], name)
  }

  /** The patterns found in one block's source, which lists the facts and then the checks. */
  function PatternsInBlock(b: Block, name: Relation): seq<string> {
    PatternsIn(b.facts, name) + PatternsInChecks(b.checks, name)
  }

  function PatternsOf(bs: seq<Block>, name: Relation): seq<string> {
    if bs == [] then []
    else PatternsOf(bs[..|bs| - 1], name) + PatternsInBlock(bs[|bs| - 1], name)
  }

  /** `list(dict.fromkeys(s))`: first occurrences in order. */
  function Distinct(s: seq<string>): seq<string> {
    if s == [] then []
    else
      var init, last := s[..|s| - 1], s[|s| - 1];
      Distinct(init) + (if last in init then [] else [last])
  }

  function Blocks(t: Token): seq<Block> {
    [t.authority] + t.appended
  }

  /** `path_patterns_from_biscuit_blocks`. */
  method PathPatternsFromBlocks(t: Token) returns (allowed: seq<string>, denied: seq<string>)
    ensures allowed == Distinct(PatternsOf(Blocks(t), AllowedPath))
    ensures denied == Distinct(PatternsOf(Blocks(t), DeniedPath))
  {
    allowed, denied := [], [];
    var bs := Blocks(t);
    for index := 0 to |bs|
      invariant allowed == PatternsOf(bs[..index], AllowedPath)
      invariant denied == PatternsOf(bs[..index], DeniedPath)
    {
      assert bs[..index + 1][..index] == bs[..index];
      allowed := allowed + PatternsInBlock(bs[index], AllowedPath);
      denied := denied + PatternsInBlock(bs[index], DeniedPath);
    }
    assert bs[..|bs|] == bs;
    allowed, denied := Distinct(allowed), Distinct(denied);
  }

  lemma {:induction false} DistinctFacts(s: seq<string>)
    ensures forall p :: p in Distinct(s) <==> p in s
    ensures forall i, j :: 0 <= i < j < |Distinct(s)| ==> Distinct(s)[i] != Distinct(s)[j]
  {
    if s != [] {
      DistinctFacts(s[..|s| - 1]);
      assert s == s[..|s| - 1] + [s[|s| - 1]];
    }
  }

  lemma {:induction false} PatternsInFacts(fs: seq<Fact>, name: Relation, p: string)
    ensures p in PatternsIn(fs, name) <==> p != "" && Fact(name, [Str(p)]) in fs
  {
    if fs != [] {
      PatternsInFacts(fs[1..], name, p);
      assert fs == [fs[0]] + fs[1..];
      assert IsPattern(fs[0], name) ==> fs[0] == Fact(name, [Str(fs[0].args[0].s)]);
    }
  }

  /** The non-empty patterns that the caveats of a chain add, whichever caveat adds them. */
  ghost predicate AllowsPattern(cs: seq<(Caveat, string)>, p: string) {
    p != "" && exists i :: 0 <= i < |cs| && p in cs[i].0.allowedPaths
  }

  ghost predicate DeniesPattern(cs: seq<(Caveat, string)>, p: string) {
    p != "" && exists i :: 0 <= i < |cs| && p in cs[i].0.deniedPaths
  }

  lemma AuthorityHasNoPattern(g: Grant, name: Relation, p: string)
    requires name == AllowedPath || name == DeniedPath
    ensures p !in PatternsInBlock(AuthorityBlock(g), name)
  {
    AuthorityNames(g);
    AuthorityChecksHoldNoPattern(g, name);
    PatternsOfFacts(AuthorityBlock(g), name);
    PatternsInFacts(AuthorityBlock(g).facts, name, p);
    assert Fact(name, [Str(p)]) !in FactsOf(AuthorityBlock(g));
  }

  lemma PatternsOfFacts(b: Block, name: Relation)
    requires PatternsInChecks(b.checks, name) == []
    ensures PatternsInBlock(b, name) == PatternsIn(b.facts, name)
  {
  }

  lemma {:induction false} NoPatternInBody(body: seq<Atom>, name: Relation)
    requires forall i :: 0 <= i < |body| ==> body[i].name != name
    ensures PatternsInBody(body, name) == []
  {
    if body != [] {
      NoPatternInBody(body[1..], name);
    }
  }

  lemma {:induction false} NoPatternInChecks(qs: seq<Query>, name: Relation)
    requires forall i :: 0 <= i < |qs| ==> PatternsInBody(qs[i].body, name) == []
    ensures PatternsInChecks(qs, name) == []
  {
    if qs != [] {
      NoPatternInChecks(qs[1..], name);
    }
  }

  lemma AuthorityChecksHoldNoPattern(g: Grant, name: Relation)
    requires name == AllowedPath || name == DeniedPath
    ensures PatternsInChecks(AuthorityBlock(g).checks, name) == []
  {
    NoPatternInBody(POP_CHECK.body, name);
    NoPatternInBody(TimeCheck(g.expires).body, name);
    NoPatternInChecks(AuthorityBlock(g).checks, name);
  }

  lemma CaveatChecksHoldNoPattern(c: Caveat, name: Relation)
    requires name == AllowedPath || name == DeniedPath
    ensures PatternsInChecks(CaveatBlock(c).checks, name) == []
  {
    NoPatternInBody(NARROWING_CHECK.body, name);
    if c.expires.Some? {
      NoPatternInBody(TimeCheck(c.expires.value).body, name);
    }
    NoPatternInChecks(CaveatBlock(c).checks, name);
  }

  lemma CaveatPatterns(c: Caveat, p: string)
    ensures p in PatternsInBlock(CaveatBlock(c), AllowedPath) <==> p != "" && p in c.allowedPaths
    ensures p in PatternsInBlock(CaveatBlock(c), DeniedPath) <==> p != "" && p in c.deniedPaths
  {
    CaveatChecksHoldNoPattern(c, AllowedPath);
    CaveatChecksHoldNoPattern(c, DeniedPath);
    PatternsOfFacts(CaveatBlock(c), AllowedPath);
    PatternsOfFacts(CaveatBlock(c), DeniedPath);
    var caps := Normalize(c.capabilities);
    var f, d := Fact(AllowedPath, [Str(p)]), Fact(DeniedPath, [Str(p)]);
    PatternsInFacts(CaveatBlock(c).facts, AllowedPath, p);
    PatternsInFacts(CaveatBlock(c).facts, DeniedPath, p);
    CaveatFactIn(c, f);
    CaveatFactIn(c, d);
    CapabilityFactIn(AllowedCap, caps, f);
    CapabilityFactIn(AllowedCap, caps, d);
    PathFactIn(AllowedPath, c.allowedPaths, f);
    PathFactIn(AllowedPath, c.allowedPaths, d);
    PathFactIn(DeniedPath, c.deniedPaths, f);
    PathFactIn(DeniedPath, c.deniedPaths, d);
    assert f in FactsOf(CaveatBlock(c)) <==> f in CaveatBlock(c).facts;
    assert d in FactsOf(CaveatBlock(c)) <==> d in CaveatBlock(c).facts;
  }

  /** `p` stands in a fact of the block or in an atom of one of its checks that is written alike. */
  predicate WritesPattern(b: Block, name: Relation, p: string) {
    || Fact(name, [Str(p)]) in b.facts
    || exists i :: 0 <= i < |b.checks| && Atom(name, [Lit(Str(p))]) in b.checks[i].body
  }

  lemma {:induction false} PatternsInAtoms(body: seq<Atom>, name: Relation, p: string)
    ensures p in PatternsInBody(body, name) <==> p != "" && Atom(name, [Lit(Str(p))]) in body
  {
    if body != [] {
      PatternsInAtoms(body[1..], name, p);
      assert body == [body[0]] + body[1..];
      assert LooksLikePattern(body[0], name) ==> body[0] == Atom(name, [Lit(Str(body[0].terms[0].value.s))]);
    }
  }

  lemma {:induction false} PatternsInQueries(qs: seq<Query>, name: Relation, p: string)
    ensures p in PatternsInChecks(qs, name)
       <==> p != "" && exists i :: 0 <= i < |qs| && Atom(name, [Lit(Str(p))]) in qs[i].body
  {
    if qs != [] {
      PatternsInQueries(qs[1..], name, p);
      PatternsInAtoms(qs[0].body, name, p);
      assert qs == [qs[0]] + qs[1..];
    }
  }

  ghost predicate SomeBlockWrites(bs: seq<Block>, name: Relation, p: string) {
    exists i :: 0 <= i < |bs| && WritesPattern(bs[i], name, p)
  }

  lemma PatternsInBlockIff(b: Block, name: Relation, p: string)
    ensures p in PatternsInBlock(b, name) <==> p != "" && WritesPattern(b, name, p)
  {
    PatternsInFacts(b.facts, name, p);
    PatternsInQueries(b.checks, name, p);
  }

  lemma SomeBlockWritesAppended(bs: seq<Block>, b: Block, name: Relation, p: string)
    ensures SomeBlockWrites(bs + [b], name, p) <==> SomeBlockWrites(bs, name, p) || WritesPattern(b, name, p)
  {
    var all := bs + [b];
    assert all[|bs|] == b && forall i :: 0 <= i < |bs| ==> all[i] == bs[i];
  }

  /** `p` is found in `bs` exactly if it is not empty and some block writes it. */
  ghost predicate FoundIffWritten(bs: seq<Block>, name: Relation, p: string) {
    p in PatternsOf(bs, name) <==> p != "" && SomeBlockWrites(bs, name, p)
  }

  lemma FoundInOneMore(bs: seq<Block>, b: Block, name: Relation, p: string)
    requires FoundIffWritten(bs, name, p)
    ensures FoundIffWritten(bs + [b], name, p)
  {
    PatternsInBlockIff(b, name, p);
    PatternsOfAppended(bs, b, name);
    SomeBlockWritesAppended(bs, b, name, p);
  }

  lemma {:induction false} PatternsFound(bs: seq<Block>, name: Relation, p: string)
    ensures FoundIffWritten(bs, name, p)
  {
    if bs != [] {
      PatternsFound(bs[..|bs| - 1], name, p);
      FoundInOneMore(bs[..|bs| - 1], bs[|bs| - 1], name, p);
      assert bs == bs[..|bs| - 1] + [bs[|bs| - 1]];
    }
  }

  /** Whatever the blocks are, a pattern is collected if and only if it is not empty and some block writes it. */
  lemma PatternsFoundIff(bs: seq<Block>, name: Relation, p: string)
    ensures p in Distinct(PatternsOf(bs, name)) <==> p != "" && SomeBlockWrites(bs, name, p)
  {
    DistinctFacts(PatternsOf(bs, name));
    PatternsFound(bs, name, p);
  }

  lemma PatternsOfAppended(bs: seq<Block>, b: Block, name: Relation)
    ensures PatternsOf(bs + [b], name) == PatternsOf(bs, name) + PatternsInBlock(b, name)
  {
    assert (bs + [b])[..|bs|] == bs;
  }

  lemma PatternsOfChainAppended(cs: seq<(Caveat, string)>, c: (Caveat, string), p: string)
    ensures AllowsPattern(cs + [c], p) <==> AllowsPattern(cs, p) || (p != "" && p in c.0.allowedPaths)
    ensures DeniesPattern(cs + [c], p) <==> DeniesPattern(cs, p) || (p != "" && p in c.0.deniedPaths)
  {
    var ds := cs + [c];
    assert ds[|cs|] == c && forall i :: 0 <= i < |cs| ==> ds[i] == cs[i];
    if i :| 0 <= i < |cs| && p in cs[i].0.allowedPaths {
      assert p in ds[i].0.allowedPaths;
    }
    if i :| 0 <= i < |cs| && p in cs[i].0.deniedPaths {
      assert p in ds[i].0.deniedPaths;
    }
  }

  /** The token's patterns are the caveats' patterns, as far as `p` is concerned. */
  ghost predicate SamePatterns(t: Token, cs: seq<(Caveat, string)>, p: string) {
    && (p in PatternsOf(Blocks(t), AllowedPath) <==> AllowsPattern(cs, p))
    && (p in PatternsOf(Blocks(t), DeniedPath) <==> DeniesPattern(cs, p))
  }

  lemma MintedPatterns(g: Grant, id: string, p: string)
    ensures SamePatterns(Mint(g, id), [], p)
  {
    AuthorityHasNoPattern(g, AllowedPath, p);
    AuthorityHasNoPattern(g, DeniedPath, p);
    assert Blocks(Mint(g, id)) == [] + [AuthorityBlock(g)];
    PatternsOfAppended([], AuthorityBlock(g), AllowedPath);
    PatternsOfAppended([], AuthorityBlock(g), DeniedPath);
  }

  lemma AttenuatedPatterns(t: Token, cs: seq<(Caveat, string)>, c: (Caveat, string), p: string)
    requires SamePatterns(t, cs, p)
    ensures SamePatterns(Attenuate(t, c.0, c.1), cs + [c], p)
  {
    CaveatPatterns(c.0, p);
    AttenuatedPattern(t, c.0, c.1, AllowedPath, p);
    AttenuatedPattern(t, c.0, c.1, DeniedPath, p);
    PatternsOfChainAppended(cs, c, p);
  }

  lemma AttenuatedPattern(t: Token, c: Caveat, id: string, name: Relation, p: string)
    ensures p in PatternsOf(Blocks(Attenuate(t, c, id)), name)
       <==> p in PatternsOf(Blocks(t), name) || p in PatternsInBlock(CaveatBlock(c), name)
  {
    assert Blocks(Attenuate(t, c, id)) == Blocks(t) + [CaveatBlock(c)];
    PatternsOfAppended(Blocks(t), CaveatBlock(c), name);
  }

  lemma ChainPatternsStep(g: Grant, id: string, cs: seq<(Caveat, string)>, c: (Caveat, string), p: string)
    requires SamePatterns(Chain(g, id, cs), cs, p)
    ensures SamePatterns(Chain(g, id, cs + [c]), cs + [c], p)
  {
    assert (cs + [c])[..|cs|] == cs;
    assert Chain(g, id, cs + [c]) == Attenuate(Chain(g, id, cs), c.0, c.1);
    AttenuatedPatterns(Chain(g, id, cs), cs, c, p);
  }

  lemma {:induction false} ChainSamePatterns(g: Grant, id: string, cs: seq<(Caveat, string)>, p: string)
    ensures SamePatterns(Chain(g, id, cs), cs, p)
  {
    if cs == [] {
      MintedPatterns(g, id, p);
    } else {
      var init, last := cs[..|cs| - 1], cs[|cs| - 1];
      ChainSamePatterns(g, id, init, p);
      ChainPatternsStep(g, id, init, last, p);
      assert cs == init + [last];
    }
  }

  /** Patterns of different caveats are united, the allowed ones as well as the denied ones. */
  lemma ChainPatterns(g: Grant, id: string, cs: seq<(Caveat, string)>, p: string)
    ensures p in PatternsOf(Blocks(Chain(g, id, cs)), AllowedPath) <==> AllowsPattern(cs, p)
    ensures p in PatternsOf(Blocks(Chain(g, id, cs)), DeniedPath) <==> DeniesPattern(cs, p)
  {
    ChainSamePatterns(g, id, cs, p);
  }

  // ---- The decision ----

  datatype Decision = Allowed | PathRefused(reason: ScopeReason) | NoProof | WrongKey | BadProof | Refused

  /** Everything besides the token that a decision depends on; `ath` is the hash of the token's text. */
  datatype Call = Call(
    operation: Operation, filePath: Option<string>, pop: Option<PopProof>, bindsOperation: bool,
    expectedHtm: Option<string>, expectedHtu: Option<string>, ath: string, popClock: int, now: int)

  ghost predicate BoundTo(t: Token, keyhash: string) {
    Fact(BoundKey, [Str(keyhash)]) in FactsOf(t.authority)
  }

  ghost predicate HasBoundKey(t: Token) {
    exists k :: BoundTo(t, k)
  }

  /** The path gate; it runs for the resource "file" and for every call that presents a path. */
  function PathGate(matches: Matcher, t: Token, call: Call): ScopeReason {
    var allowed := Distinct(PatternsOf(Blocks(t), AllowedPath));
    var denied := Distinct(PatternsOf(Blocks(t), DeniedPath));
    if (call.operation.resource == "file" || call.filePath.Some?) && (allowed != [] || denied != [])
    then EvaluatePathScope(matches, call.filePath, allowed, denied)
    else NoPath
  }

  /** What the proof is worth: `Allowed` when it verifies, otherwise the reason why it does not. */
  ghost function ProofVerdict(h: Host, t: Token, call: Call): Decision {
    match call.pop
    case None => NoProof
    case Some(pop) =>
      var keyhash := match h.thumbprint(pop.pubkeyPem) case Some(k) => k case None => "";
      if HasBoundKey(t) && !BoundTo(t, keyhash) then WrongKey
      else if VerifyRequestPop(h, keyhash, pop, if call.bindsOperation then Some(call.operation) else None,
                call.expectedHtm, call.expectedHtu, Some(call.ath), 300, call.popClock) then Allowed
      else BadProof
  }

  /** `authorize_biscuit`. */
  ghost function AuthorizeBiscuit(h: Host, matches: Matcher, t: Token, call: Call): Decision {
    if !InScope(PathGate(matches, t, call)) then PathRefused(PathGate(matches, t, call))
    else
      var verdict := ProofVerdict(h, t, call);
      if LogicAllows(t, call.operation, call.now, verdict == Allowed) then Allowed
      else if verdict == Allowed then Refused
      else verdict
  }

  /** A token that names no key accepts a proof by any key. */
  lemma UnboundTokenTakesAnyKey(h: Host, matches: Matcher, t: Token, call: Call)
    requires forall k :: Fact(BoundKey, [Str(k)]) !in FactsOf(t.authority)
    ensures AuthorizeBiscuit(h, matches, t, call) == Allowed <==>
      && InScope(PathGate(matches, t, call))
      && var proven := call.pop.Some?
           && var key := h.thumbprint(call.pop.value.pubkeyPem);
              key.Some? && VerifyRequestPop(h, key.value, call.pop.value,
                if call.bindsOperation then Some(call.operation) else None,
                call.expectedHtm, call.expectedHtu, Some(call.ath), 300, call.popClock);
         LogicAllows(t, call.operation, call.now, proven)
  {
  }

  // ---- The closed form of the decision ----

  /** No path is presented, no caveat names a pattern, or the place the path leads to is in scope. */
  ghost predicate PathPermitted(matches: Matcher, cs: seq<(Caveat, string)>, filePath: Option<string>) {
    filePath.Some? && (exists p :: AllowsPattern(cs, p) || DeniesPattern(cs, p)) ==>
      && StaysInRoot(filePath.value)
      && (forall p :: DeniesPattern(cs, p) ==> !matches(Target(filePath.value), Strip(p)))
      && ((exists p :: AllowsPattern(cs, p)) ==>
            exists p :: AllowsPattern(cs, p) && matches(Target(filePath.value), Strip(p)))
  }

  /** A fresh proof by the bound key over this very call. */
  ghost predicate ProofPermits(h: Host, g: Grant, call: Call) {
    && call.pop.Some?
    && h.thumbprint(call.pop.value.pubkeyPem) == Some(g.boundKey)
    && VerifyRequestPop(h, g.boundKey, call.pop.value,
         if call.bindsOperation then Some(call.operation) else None,
         call.expectedHtm, call.expectedHtu, Some(call.ath), 300, call.popClock)
  }

  /** The scope decision in terms of the patterns that occur, in whatever order. */
  lemma ScopeByMembers(matches: Matcher, path: string, allowed: seq<string>, denied: seq<string>)
    ensures InScope(EvaluatePathScope(matches, Some(path), allowed, denied)) <==>
      && StaysInRoot(path)
      && (forall p :: p in denied ==> !matches(Target(path), Strip(p)))
      && ((exists p :: p in allowed) ==> exists p :: p in allowed && matches(Target(path), Strip(p)))
  {
    ScopeOfDestination(matches, path, allowed, denied);
    NonEmpty(allowed);
    if StaysInRoot(path) {
      SomeMember(allowed, matches, Target(path));
      SomeMember(denied, matches, Target(path));
    }
  }

  /** The lists that the gate works on, for a chain of caveats. */
  lemma GatePatterns(g: Grant, id: string, cs: seq<(Caveat, string)>)
    ensures var bs := Blocks(Chain(g, id, cs));
      && (forall p :: p in Distinct(PatternsOf(bs, AllowedPath)) <==> AllowsPattern(cs, p))
      && (forall p :: p in Distinct(PatternsOf(bs, DeniedPath)) <==> DeniesPattern(cs, p))
  {
    var bs := Blocks(Chain(g, id, cs));
    DistinctFacts(PatternsOf(bs, AllowedPath));
    DistinctFacts(PatternsOf(bs, DeniedPath));
    forall p ensures p in PatternsOf(bs, AllowedPath) <==> AllowsPattern(cs, p)
      ensures p in PatternsOf(bs, DeniedPath) <==> DeniesPattern(cs, p)
    {
      ChainPatterns(g, id, cs, p);
    }
  }

  lemma PathGateClosedForm(matches: Matcher, g: Grant, id: string, cs: seq<(Caveat, string)>, call: Call)
    ensures InScope(PathGate(matches, Chain(g, id, cs), call)) <==> PathPermitted(matches, cs, call.filePath)
  {
    var bs := Blocks(Chain(g, id, cs));
    var allowed, denied := Distinct(PatternsOf(bs, AllowedPath)), Distinct(PatternsOf(bs, DeniedPath));
    GatePatterns(g, id, cs);
    NonEmpty(allowed);
    NonEmpty(denied);
    if call.filePath.Some? {
      ScopeByMembers(matches, call.filePath.value, allowed, denied);
    }
  }

  lemma NonEmpty(s: seq<string>)
    ensures s != [] <==> exists p :: p in s
  {
    if s != [] { assert s[0] in s; }
  }

  lemma SomeMember(s: seq<string>, matches: Matcher, target: string)
    ensures (exists i :: 0 <= i < |s| && matches(target, Strip(s[i])))
       <==> (exists p :: p in s && matches(target, Strip(p)))
  {
    if p :| p in s && matches(target, Strip(p)) {
      var i :| 0 <= i < |s| && s[i] == p;
    }
  }

  lemma ChainAgent(g: Grant, id: string, cs: seq<(Caveat, string)>, a: string)
    ensures Fact(AgentId, [Str(a)]) in FactsOf(Chain(g, id, cs).authority) <==> a == g.agentId
  {
    ChainAuthority(g, id, cs);
    var f := Fact(AgentId, [Str(a)]);
    AuthorityFactIn(g, f);
    CapabilityFactIn(CapabilityFact, Normalize(g.capabilities), f);
    assert f == Fact(AgentId, [Str(g.agentId)]) ==> f.args[0] == Str(g.agentId);
  }

  /** A chain carries the id of its mint and the ids of its caveats. */
  lemma {:induction false} ChainIds(g: Grant, id: string, cs: seq<(Caveat, string)>, x: string)
    ensures x in Chain(g, id, cs).ids <==> x == id || exists i :: 0 <= i < |cs| && cs[i].1 == x
  {
    if cs != [] {
      ChainIds(g, id, cs[..|cs| - 1], x);
    }
  }

  lemma ChainBoundKey(g: Grant, id: string, cs: seq<(Caveat, string)>, k: string)
    ensures BoundTo(Chain(g, id, cs), k) <==> k == g.boundKey
  {
    ChainAuthority(g, id, cs);
    var f := Fact(BoundKey, [Str(k)]);
    AuthorityFactIn(g, f);
    CapabilityFactIn(CapabilityFact, Normalize(g.capabilities), f);
    assert f == Fact(BoundKey, [Str(g.boundKey)]) ==> f.args[0] == Str(g.boundKey);
  }

  /**
   * For a minted token after any chain of attenuations, the decision is "allowed" exactly when the
   * bound key freshly signed this call, no expiry has passed, the operation is granted exactly or by an
   * action wildcard, every caveat with capabilities lists it literally, and the presented path is in
   * the united path scope.
   */
  lemma AuthorizeClosedForm(
      h: Host, matches: Matcher, g: Grant, id: string, cs: seq<(Caveat, string)>, call: Call)
    ensures AuthorizeBiscuit(h, matches, Chain(g, id, cs), call) == Allowed <==>
      && PathPermitted(matches, cs, call.filePath)
      && ChainPermits(g, cs, call.operation, call.now, ProofPermits(h, g, call))
  {
    var t := Chain(g, id, cs);
    PathGateClosedForm(matches, g, id, cs, call);
    forall k ensures BoundTo(t, k) <==> k == g.boundKey {
      ChainBoundKey(g, id, cs, k);
    }
    assert HasBoundKey(t) by { assert BoundTo(t, g.boundKey); }
    assert ProofVerdict(h, t, call) == Allowed <==> ProofPermits(h, g, call);
    ChainLogic(g, id, cs, call.operation, call.now, ProofPermits(h, g, call));
  }

  /** What a proof is worth for a token that is bound to one key. */
  lemma VerdictReasons(h: Host, g: Grant, t: Token, call: Call)
    requires forall k :: BoundTo(t, k) <==> k == g.boundKey
    ensures var verdict := ProofVerdict(h, t, call);
      var bound := call.pop.Some? && g.boundKey ==
        match h.thumbprint(call.pop.value.pubkeyPem) case Some(k) => k case None => "";
      && (verdict == NoProof <==> call.pop.None?)
      && (verdict == WrongKey <==> call.pop.Some? && !bound)
      && (verdict == BadProof <==> bound && !ProofPermits(h, g, call))
      && (verdict == Allowed <==> ProofPermits(h, g, call))
  {
    assert BoundTo(t, g.boundKey);
  }

  /** Why a call on a chain is refused: first the path, then the proof, then what the token grants. */
  lemma RefusalReasons(h: Host, matches: Matcher, g: Grant, id: string, cs: seq<(Caveat, string)>, call: Call)
    ensures var decision := AuthorizeBiscuit(h, matches, Chain(g, id, cs), call);
      var path := PathPermitted(matches, cs, call.filePath);
      var bound := call.pop.Some? && g.boundKey ==
        match h.thumbprint(call.pop.value.pubkeyPem) case Some(k) => k case None => "";
      && (decision.PathRefused? <==> !path)
      && (decision == NoProof <==> path && call.pop.None?)
      && (decision == WrongKey <==> path && call.pop.Some? && !bound)
      && (decision == BadProof <==> path && bound && !ProofPermits(h, g, call))
      && (decision == Refused <==>
            path && ProofPermits(h, g, call) && !ChainPermits(g, cs, call.operation, call.now, true))
  {
    var t := Chain(g, id, cs);
    PathGateClosedForm(matches, g, id, cs, call);
    forall k ensures BoundTo(t, k) <==> k == g.boundKey {
      ChainBoundKey(g, id, cs, k);
    }
    VerdictReasons(h, g, t, call);
    ChainLogic(g, id, cs, call.operation, call.now, true);
    ChainLogic(g, id, cs, call.operation, call.now, false);
  }

  // ---- Consequences ----

  /** The decision for a caller whose proof is good for whichever token it presents. */
  ghost predicate Permitted(
      matches: Matcher, g: Grant, cs: seq<(Caveat, string)>, op: Operation, filePath: Option<string>, now: int)
  {
    PathPermitted(matches, cs, filePath) && ChainPermits(g, cs, op, now, true)
  }

  /**
   * Appending a caveat widens what a token permits exactly for those presented paths that the old
   * allowed patterns exclude and the new ones include, and only if there were allowed patterns before.
   */
  lemma WhatAppendingWidens(
      matches: Matcher, g: Grant, cs: seq<(Caveat, string)>, c: (Caveat, string),
      op: Operation, filePath: Option<string>, now: int)
    requires Permitted(matches, g, cs + [c], op, filePath, now)
    ensures !Permitted(matches, g, cs, op, filePath, now) <==>
      && filePath.Some?
      && (exists p :: AllowsPattern(cs, p))
      && StaysInRoot(filePath.value)
      && (forall p :: AllowsPattern(cs, p) ==> !matches(Target(filePath.value), Strip(p)))
  {
    var ds := cs + [c];
    assert forall i :: 0 <= i < |cs| ==> ds[i] == cs[i];
    forall p | AllowsPattern(cs, p) ensures AllowsPattern(ds, p) {
      var i :| 0 <= i < |cs| && p in cs[i].0.allowedPaths;
      assert p in ds[i].0.allowedPaths;
    }
    forall p | DeniesPattern(cs, p) ensures DeniesPattern(ds, p) {
      var i :| 0 <= i < |cs| && p in cs[i].0.deniedPaths;
      assert p in ds[i].0.deniedPaths;
    }
  }

  /**
   * Whatever block is appended, by whoever: if that makes a refused call allowed, then the call was
   * refused for its path.
   */
  lemma AppendingWidensPathsOnly(h: Host, matches: Matcher, t: Token, b: Block, id: string, call: Call)
    requires AuthorizeBiscuit(h, matches, Append(t, b, id), call) == Allowed
    requires AuthorizeBiscuit(h, matches, t, call) != Allowed
    ensures !InScope(PathGate(matches, t, call))
  {
    var validPop := ProofVerdict(h, t, call) == Allowed;
    AllowedParts(h, matches, t, call);
    AllowedParts(h, matches, Append(t, b, id), call);
    SameVerdict(h, t, b, id, call);
    AppendedLogic(t, b, id, call.operation, call.now, validPop);
  }

  /** A decision is the path gate's and the logic's, for what the proof is worth. */
  lemma AllowedParts(h: Host, matches: Matcher, t: Token, call: Call)
    ensures AuthorizeBiscuit(h, matches, t, call) == Allowed <==>
      && InScope(PathGate(matches, t, call))
      && LogicAllows(t, call.operation, call.now, ProofVerdict(h, t, call) == Allowed)
  {
  }

  lemma SameVerdict(h: Host, t: Token, b: Block, id: string, call: Call)
    ensures ProofVerdict(h, Append(t, b, id), call) == ProofVerdict(h, t, call)
  {
    assert forall k :: BoundTo(Append(t, b, id), k) <==> BoundTo(t, k);
  }

  lemma AppendedLogic(t: Token, b: Block, id: string, op: Operation, now: int, validPop: bool)
    ensures LogicAllows(Append(t, b, id), op, now, validPop) ==> LogicAllows(t, op, now, validPop)
  {
    AppendOnlyRestricts(t, b, id, Ambient(op, now, validPop), [ALLOW_EXACT, ALLOW_WILDCARD]);
  }

  /** Capabilities, denied paths and an expiry only narrow; so do allowed paths on a token that had none. */
  lemma NarrowingNeverWidens(
      matches: Matcher, g: Grant, cs: seq<(Caveat, string)>, c: (Caveat, string),
      op: Operation, filePath: Option<string>, now: int)
    requires c.0.allowedPaths == [] || !exists p :: AllowsPattern(cs, p)
    requires Permitted(matches, g, cs + [c], op, filePath, now)
    ensures Permitted(matches, g, cs, op, filePath, now)
  {
    WhatAppendingWidens(matches, g, cs, c, op, filePath, now);
    if filePath.Some? && (exists p :: AllowsPattern(cs, p)) {
      var ds := cs + [c];
      forall p | AllowsPattern(ds, p) ensures AllowsPattern(cs, p) {
        var i :| 0 <= i < |ds| && p in ds[i].0.allowedPaths;
        assert i < |cs| && p in cs[i].0.allowedPaths;
      }
      var q :| AllowsPattern(cs, q);
      assert AllowsPattern(ds, q) by {
        var i :| 0 <= i < |cs| && q in cs[i].0.allowedPaths;
        assert q in ds[i].0.allowedPaths;
      }
    }
  }

  /** An attenuation to "every action" of a resource permits only the operation literally named "*". */
  lemma AttenuatedWildcardIsLiteral(g: Grant, c: Caveat, id: string, op: Operation, now: int, r: string)
    requires Normalize(c.capabilities) == [Capability(r, "*")] && op.action != "*"
    ensures !LogicAllows(Attenuate(Mint(g, id), c, id), op, now, true)
  {
    var cs := [(c, id)];
    assert cs[..|cs| - 1] == [];
    assert Chain(g, id, cs) == Attenuate(Mint(g, id), c, id);
    ChainLogic(g, id, cs, op, now, true);
    assert !CaveatPermits(cs[0].0, op, now);
  }

  /**
   * Whatever the token grants, a caveat that allows one plain name and a later caveat that allows
   * another one give back the second name, which the first caveat had shut out.
   */
  lemma LaterAllowedPathsWiden(g: Grant, op: Operation, now: int, a: string, b: string)
    requires PlainNames([a, b]) && a != b && Unpadded(a) && Unpadded(b) && '\\' !in b
    requires ChainPermits(g, [], op, now, true)
    ensures var matches := (path: string, pattern: string) => path == pattern;
      var first := (Caveat([], [a], [], None), "1");
      var second := (Caveat([], [b], [], None), "2");
      && !Permitted(matches, g, [first], op, Some(b), now)
      && Permitted(matches, g, [first] + [second], op, Some(b), now)
  {
    var matches := (path: string, pattern: string) => path == pattern;
    var first := (Caveat([], [a], [], None), "1");
    var second := (Caveat([], [b], [], None), "2");
    assert a in [a, b] && b in [a, b];
    PlainNameTarget(b);
    StripFacts(a);
    StripFacts(b);
    assert [] + [first] == [first];
    forall p ensures AllowsPattern([first], p) <==> p == a ensures !DeniesPattern([first], p) {
      PatternsOfChainAppended([], first, p);
    }
    forall p ensures AllowsPattern([first] + [second], p) <==> p == a || p == b
      ensures !DeniesPattern([first] + [second], p)
    {
      PatternsOfChainAppended([first], second, p);
    }
  }

  lemma OneNameWalk(b: string)
    requires PlainNames([b])
    ensures StaysBelow([b], 0) && Destination([b], []) == [b]
  {
    assert b in [b];
    assert [b][1..] == [] && [] + [b] == [b];
    assert StaysBelow([], 1) && Destination([], [b]) == [b];
  }

  lemma PlainNameTarget(b: string)
    requires PlainNames([b]) && Unpadded(b) && '\\' !in b
    ensures StaysInRoot(b) && Target(b) == b
  {
    assert b in [b];
    StripFacts(b);
    UnifyFacts(b);
    SplitOne(b);
    assert [b][1..] == [];
    assert b[0] in b;
    OneNameWalk(b);
  }
}
