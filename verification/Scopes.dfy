/** Capabilities and their flat "resource:action" mirror. */
module Scopes {
  import opened Text

  datatype Capability = Capability(resource: string, action: string)

  /** A capability as an administrator submits it; constraints are refused. */
  datatype Submitted = Submitted(cap: Capability, constrained: bool)

  function Trimmed(c: Capability): Capability {
    Capability(Strip(c.resource), Strip(c.action))
  }

  predicate Usable(c: Capability) {
    Strip(c.resource) != "" && Strip(c.action) != ""
  }

  /** `normalize_capabilities` on entries without constraints. */
  function Normalize(cs: seq<Capability>): seq<Capability> {
    if cs == [] then []
    else (if Usable(cs[0]) then [Trimmed(cs[0])] else []) + Normalize(cs[1..])
  }

  /** `normalize_capabilities`; `None` is the error raised for a constraint on a usable entry. */
  function NormalizeSubmitted(ss: seq<Submitted>): Option<seq<Capability>> {
    if ss == [] then Some([])
    else if !Usable(ss[0].cap) then NormalizeSubmitted(ss[1..])
    else if ss[0].constrained then None
    else
      match NormalizeSubmitted(ss[1..])
      case None => None
      case Some(rest) => Some([Trimmed(ss[0].cap)] + rest)
  }

  /** What the rest of the list still adds to what has been collected. */
  function Prepended(out: seq<Capability>, rest: Option<seq<Capability>>): Option<seq<Capability>> {
    match rest
    case None => None
    case Some(more) => Some(out + more)
  }

  /** The loop of `normalize_capabilities`, which skips unusable entries before it looks at constraints. */
  method NormalizeCapabilities(ss: seq<Submitted>) returns (out: Option<seq<Capability>>)
    ensures out == NormalizeSubmitted(ss)
  {
    var kept: seq<Capability> := [];
    assert ss[0..] == ss;
    PrependNothing(NormalizeSubmitted(ss));
    for i := 0 to |ss|
      invariant NormalizeSubmitted(ss) == Prepended(kept, NormalizeSubmitted(ss[i..]))
    {
      assert ss[i..][1..] == ss[i + 1..];
      var resource, action := Strip(ss[i].cap.resource), Strip(ss[i].cap.action);
      if resource == "" || action == "" {
        continue;
      }
      if ss[i].constrained {
        return None;
      }
      AppendThenPrepend(kept, Capability(resource, action), NormalizeSubmitted(ss[i + 1..]));
      kept := kept + [Capability(resource, action)];
    }
    assert kept + [] == kept;
    return Some(kept);
  }

  lemma PrependNothing(rest: Option<seq<Capability>>)
    ensures Prepended([], rest) == rest
  {
    if rest.Some? {
      assert [] + rest.value == rest.value;
    }
  }

  lemma AppendThenPrepend(out: seq<Capability>, c: Capability, rest: Option<seq<Capability>>)
    ensures Prepended(out + [c], rest) == Prepended(out, Prepended([c], rest))
  {
    if rest.Some? {
      assert (out + [c]) + rest.value == out + ([c] + rest.value);
    }
  }

  function Scope(c: Capability): string {
    c.resource + ":" + c.action
  }

  function ScopesOf(cs: seq<Capability>): seq<string> {
    if cs == [] then [] else [Scope(cs[0])] + ScopesOf(cs[1..])
  }

  /** `capabilities_to_scopes`. */
  function CapabilitiesToScopes(cs: seq<Capability>): seq<string> {
    ScopesOf(Normalize(cs))
  }

  /** One scope string, already stripped and not empty, as a capability. */
  function ParseScope(s: string): Capability {
    var i := Find(s, ':');
    if i < |s| then Capability(s[..i], s[i + 1..]) else Capability(s, "*")
  }

  /** `scopes_to_capabilities`. */
  function ScopesToCapabilities(scopes: seq<string>): seq<Capability> {
    if scopes == [] then []
    else (if Strip(scopes[0]) == "" then [] else [ParseScope(Strip(scopes[0]))]) + ScopesToCapabilities(scopes[1..])
  }

  lemma ParseStep(scopes: seq<string>, i: nat, caps: seq<Capability>)
    requires i < |scopes|
    ensures caps + ScopesToCapabilities(scopes[i..])
         == (if Strip(scopes[i]) == "" then caps else caps + [ParseScope(Strip(scopes[i]))])
            + ScopesToCapabilities(scopes[i + 1..])
  {
    assert scopes[i..][1..] == scopes[i + 1..];
    var head := if Strip(scopes[i]) == "" then [] else [ParseScope(Strip(scopes[i]))];
    var rest := ScopesToCapabilities(scopes[i + 1..]);
    assert caps + (head + rest) == (caps + head) + rest;
  }

  /** The loop of `scopes_to_capabilities`. */
  method ParseScopes(scopes: seq<string>) returns (caps: seq<Capability>)
    ensures caps == ScopesToCapabilities(scopes)
  {
    caps := [];
    assert scopes[0..] == scopes;
    for i := 0 to |scopes|
      invariant caps + ScopesToCapabilities(scopes[i..]) == ScopesToCapabilities(scopes)
    {
      ParseStep(scopes, i, caps);
      var scope := Strip(scopes[i]);
      if scope == "" {
        continue;
      }
      caps := caps + [ParseScope(scope)];
    }
  }

  /** `reconcile_capabilities`. */
  function Reconcile(ss: seq<Submitted>, scopes: seq<string>): Option<(seq<Capability>, seq<string>)> {
    match NormalizeSubmitted(ss)
    case None => None
    case Some(given) =>
      var caps := if given == [] && scopes != [] then ScopesToCapabilities(scopes) else given;
      Some((caps, CapabilitiesToScopes(caps)))
  }

  function Resubmitted(cs: seq<Capability>): seq<Submitted> {
    if cs == [] then [] else [Submitted(cs[0], false)] + Resubmitted(cs[1..])
  }

  function Caps(ss: seq<Submitted>): seq<Capability> {
    seq(|ss|, i requires 0 <= i < |ss| => ss[i].cap)
  }

  /** Somewhere a constraint stands on an entry whose parts are not blank. */
  predicate ConstrainsSome(ss: seq<Submitted>) {
    exists i :: 0 <= i < |ss| && ss[i].constrained && Strip(ss[i].cap.resource) != "" && Strip(ss[i].cap.action) != ""
  }

  /** Submitted capabilities are refused exactly for a constraint on a usable entry, and otherwise normalized. */
  lemma {:induction false} RefusedIffConstrained(ss: seq<Submitted>)
    ensures NormalizeSubmitted(ss).None? <==> ConstrainsSome(ss)
    ensures NormalizeSubmitted(ss).Some? ==> NormalizeSubmitted(ss).value == Normalize(Caps(ss))
  {
    if ss != [] {
      RefusedIffConstrained(ss[1..]);
      assert Caps(ss)[1..] == Caps(ss[1..]);
      assert Caps(ss)[0] == ss[0].cap;
      if ConstrainsSome(ss[1..]) {
        var i :| 0 <= i < |ss[1..]| && ss[1..][i].constrained && Usable(ss[1..][i].cap);
        assert ss[i + 1].constrained;
      }
      if ConstrainsSome(ss) {
        var i :| 0 <= i < |ss| && ss[i].constrained && Usable(ss[i].cap);
        assert i > 0 ==> ss[1..][i - 1].constrained;
      }
      assert !Usable(ss[0].cap) ==> Normalize(Caps(ss)) == Normalize(Caps(ss[1..]));
    }
  }

  /** Exactly the entries with two parts that are not blank are kept, both parts stripped. */
  lemma {:induction false} NormalizeKeepsExactly(cs: seq<Capability>, c: Capability)
    ensures c in Normalize(cs) <==>
      exists i :: 0 <= i < |cs| && Strip(cs[i].resource) == c.resource != "" && Strip(cs[i].action) == c.action != ""
  {
    if cs != [] {
      NormalizeKeepsExactly(cs[1..], c);
      assert cs == [cs[0]] + cs[1..];
    }
  }

  /**
   * Usable capabilities are taken as they are submitted, and scopes count only where there are none; the
   * scopes given back mirror what was taken.
   */
  lemma ReconcilePrefersCapabilities(ss: seq<Submitted>, scopes: seq<string>)
    ensures Reconcile(ss, scopes).None? <==> ConstrainsSome(ss)
    ensures Reconcile(ss, scopes).Some? ==>
      var (caps, stored) := Reconcile(ss, scopes).value;
      && (Normalize(Caps(ss)) != [] ==> caps == Normalize(Caps(ss)))
      && (Normalize(Caps(ss)) == [] ==> caps == ScopesToCapabilities(scopes))
      && stored == CapabilitiesToScopes(caps)
  {
    RefusedIffConstrained(ss);
  }

  /** A scope without a colon stands for every action of the resource it names, any other for one action. */
  lemma ScopeMeaning(s: string)
    requires Strip(s) != ""
    ensures ':' !in Strip(s) ==> ScopesToCapabilities([s]) == [Capability(Strip(s), "*")]
    ensures forall r, a :: Strip(s) == r + [':'] + a && ':' !in r ==> ScopesToCapabilities([s]) == [Capability(r, a)]
  {
    OneScope(s);
    forall r, a | Strip(s) == r + [':'] + a && ':' !in r ensures ScopesToCapabilities([s]) == [Capability(r, a)] {
      FindInConcat(r, ':', a);
      assert Strip(s)[..|r|] == r && Strip(s)[|r| + 1..] == a;
    }
  }

  lemma {:induction false} NormalizeIdempotent(cs: seq<Capability>)
    ensures Normalize(Normalize(cs)) == Normalize(cs)
  {
    if cs != [] {
      NormalizeIdempotent(cs[1..]);
      if Usable(cs[0]) {
        StripFacts(cs[0].resource);
        StripFacts(cs[0].action);
        StripFacts(Strip(cs[0].resource));
        StripFacts(Strip(cs[0].action));
        assert Normalize(cs)[1..] == Normalize(cs[1..]);
      } else {
        assert Normalize(cs) == Normalize(cs[1..]);
      }
    }
  }

  lemma {:induction false} ResubmittedNormalize(cs: seq<Capability>)
    ensures NormalizeSubmitted(Resubmitted(cs)) == Some(Normalize(cs))
  {
    if cs != [] {
      assert Resubmitted(cs)[1..] == Resubmitted(cs[1..]);
      ResubmittedNormalize(cs[1..]);
      assert !Usable(cs[0]) ==> Normalize(cs) == Normalize(cs[1..]);
    }
  }

  /**
   * Reconciling what registration stored changes no scope: the list stored with an entry is the list
   * minted from it, and both mirror the capabilities that the token's facts are built from.
   */
  lemma ReconcileReachesFixedPoint(ss: seq<Submitted>, scopes: seq<string>)
    requires Reconcile(ss, scopes).Some?
    ensures var (caps, stored) := Reconcile(ss, scopes).value;
      && Reconcile(Resubmitted(caps), stored) == Some((Normalize(caps), stored))
      && stored == ScopesOf(Normalize(caps))
  {
    var (caps, stored) := Reconcile(ss, scopes).value;
    ResubmittedNormalize(caps);
    NormalizeIdempotent(caps);
  }

  lemma OneCapability(c: Capability)
    ensures CapabilitiesToScopes([c]) == if Usable(c) then [Scope(Trimmed(c))] else []
  {
    var cs := [c];
    assert cs[1..] == [];
    var ds := [Trimmed(c)];
    assert ds[1..] == [];
    assert Normalize(cs) == if Usable(c) then ds else [];
    assert ScopesOf(ds) == [Scope(ds[0])] + ScopesOf(ds[1..]) == [Scope(ds[0])];
  }

  lemma OneScope(s: string)
    ensures ScopesToCapabilities([s]) == if Strip(s) == "" then [] else [ParseScope(Strip(s))]
  {
    var ss: seq<string> := [s];
    assert ss[1..] == [];
  }

  /** The trimmed mirror of a parsed scope is as long as the scope exactly when nothing was trimmed. */
  lemma TrimmedScope(t: string)
    requires ':' in t
    ensures var c := ParseScope(t); Scope(Trimmed(c)) == t <==> Unpadded(c.resource) && Unpadded(c.action)
  {
    var c, i := ParseScope(t), Find(t, ':');
    StripFacts(c.resource);
    StripFacts(c.action);
    assert t == Scope(c);
    assert |t| == |c.resource| + 1 + |c.action|;
    assert |Scope(Trimmed(c))| == |Strip(c.resource)| + 1 + |Strip(c.action)|;
  }

  /** A scope string survives the way through a capability exactly when both its parts are clean. */
  lemma ScopeRoundTrip(s: string)
    ensures CapabilitiesToScopes(ScopesToCapabilities([s])) == [s] <==> ':' in s && CleanParts(ParseScope(s))
  {
    StripFacts(s);
    OneScope(s);
    if ':' in s && CleanParts(ParseScope(s)) {
      CleanScope(s);
    }
    if Strip(s) == "" {
      assert CapabilitiesToScopes([]) == [];
    } else {
      var c := ParseScope(Strip(s));
      OneCapability(c);
      StripFacts(c.resource);
      StripFacts(c.action);
      if ':' in Strip(s) {
        TrimmedScope(Strip(s));
      } else {
        BareScope(Strip(s));
      }
    }
  }

  /** A scope without a colon comes back with a wildcard action, and so longer. */
  lemma BareScope(t: string)
    requires ':' !in t && Unpadded(t) && t != ""
    ensures Scope(Trimmed(ParseScope(t))) == t + ":*"
  {
    StripFacts(t);
    StripFacts("*");
  }

  predicate CleanParts(c: Capability) {
    c.resource != "" && c.action != "" && Unpadded(c.resource) && Unpadded(c.action)
  }

  /** Clean parts leave nothing to strip around the whole. */
  lemma CleanScope(s: string)
    requires ':' in s && CleanParts(ParseScope(s))
    ensures Unpadded(s) && s != ""
  {
    var i := Find(s, ':');
    assert s == s[..i] + ":" + s[i + 1..];
  }

  lemma ParseOwnScope(c: Capability)
    ensures ParseScope(Scope(c)) == c <==> ':' !in c.resource
  {
    var s := Scope(c);
    if ':' !in c.resource {
      FindInConcat(c.resource, ':', c.action);
      assert s[..|c.resource|] == c.resource && s[|c.resource| + 1..] == c.action;
    } else {
      assert s[|c.resource|] == ':';
      assert ParseScope(s).resource == s[..Find(s, ':')];
    }
  }

  /** A clean capability survives the way through a scope string exactly when its resource has no colon. */
  lemma CapabilityRoundTrip(c: Capability)
    requires CleanParts(c)
    ensures ScopesToCapabilities(CapabilitiesToScopes([c])) == [c] <==> ':' !in c.resource
  {
    StripFacts(c.resource);
    StripFacts(c.action);
    OneCapability(c);
    OneScope(Scope(c));
    assert Scope(c)[0] == c.resource[0] && Scope(c)[|Scope(c)| - 1] == c.action[|c.action| - 1];
    StripFacts(Scope(c));
    ParseOwnScope(c);
  }
}
