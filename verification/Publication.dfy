/** How long retired signing keys stay published, against the life of what they signed. */
module Publication {
  import opened Text

  /**
   * Times are whole seconds, as in `exp` claims and expiry checks. `minTtl`, `maxTtl` and `defaultTtl`
   * bound what may be asked for; a retired key is published for `retention`; `inclusive` tells whether a token is still
   * good at the very instant it expires. `delay` bounds the time from reading the clock for
   * `retired_at` to the commit, and `gap` the time from fetching a key to reading the clock for the
   * token that is signed with it.
   */
  datatype Params = Params(
    minTtl: int, maxTtl: int, defaultTtl: int, retention: int, inclusive: bool, delay: nat, gap: nat)

  /** `_clamp_ttl`; `None` where it raises. */
  function ClampTtl(p: Params, asked: Option<int>): Option<int> {
    match asked
    case None => Some(p.defaultTtl)
    case Some(ttl) => if ttl < p.minTtl || ttl > p.maxTtl then None else Some(ttl)
  }

  /** The longest life that anything may have; a default above the maximum is not clamped. */
  function Longest(p: Params): int {
    if p.defaultTtl > p.maxTtl then p.defaultTtl else p.maxTtl
  }

  datatype Status = Active | Retired(at: int)

  datatype Retiring = Retiring(kid: string, stamp: int)

  datatype Minting = Minting(kid: string, fetchedAt: int)

  datatype Token = Token(kid: string, fetchedAt: int, exp: int)

  /** One tenant's keys, the requests under way, and everything ever signed. */
  datatype State = State(
    clock: int, rows: map<string, Status>, retiring: map<int, Retiring>, minting: map<int, Minting>, tokens: seq<Token>)

  /**
   * The steps that any number of concurrent requests are made of. A rotation reads an active key and
   * the clock, commits the retirement, and creates a key; a mint fetches a key that is active, and
   * later signs for a clock reading `stamp`, which may also have been taken before the fetch.
   */
  datatype Action =
    | Tick(elapsed: nat)
    | Create(kid: string)
    | BeginRetire(request: int, kid: string)
    | CommitRetire(request: int)
    | Fetch(request: int, kid: string)
    | Issue(request: int, stamp: int, ttl: Option<int>)

  function Step(p: Params, s: State, a: Action): State {
    match a
    case Tick(elapsed) => s.(clock := s.clock + elapsed)
    case Create(kid) => if kid in s.rows then s else s.(rows := s.rows[kid := Active])
    case BeginRetire(r, kid) =>
      if r in s.retiring || kid !in s.rows || s.rows[kid] != Active then s
      else s.(retiring := s.retiring[r := Retiring(kid, s.clock)])
    case CommitRetire(r) =>
      if r !in s.retiring || s.clock > s.retiring[r].stamp + p.delay then s
      else s.(rows := s.rows[s.retiring[r].kid := Retired(s.retiring[r].stamp)], retiring := s.retiring - {r})
    case Fetch(r, kid) =>
      if r in s.minting || kid !in s.rows || s.rows[kid] != Active then s
      else s.(minting := s.minting[r := Minting(kid, s.clock)])
    case Issue(r, stamp, asked) =>
      if r !in s.minting || stamp > s.clock || stamp > s.minting[r].fetchedAt + p.gap || ClampTtl(p, asked).None? then s
      else
        var m := s.minting[r];
        s.(minting := s.minting - {r},
           tokens := s.tokens + [Token(m.kid, m.fetchedAt, stamp + ClampTtl(p, asked).value)])
  }

  function Run(p: Params, s: State, actions: seq<Action>): State
    decreases |actions|
  {
    if actions == [] then s else Run(p, Step(p, s, actions[0]), actions[1..])
  }

  /** No step takes a retirement back. */
  lemma {:induction false} RetiredForEver(p: Params, s: State, actions: seq<Action>, kid: string)
    requires kid in s.rows && s.rows[kid].Retired?
    ensures kid in Run(p, s, actions).rows && Run(p, s, actions).rows[kid].Retired?
    decreases |actions|
  {
    if actions != [] {
      RetiredForEver(p, Step(p, s, actions[0]), actions[1..], kid);
    }
  }

  const START := State(0, map[], map[], map[], [])

  predicate Published(p: Params, status: Status, now: int) {
    status.Active? || status.at > now - p.retention
  }

  predicate Live(p: Params, t: Token, now: int) {
    now < t.exp || (p.inclusive && now == t.exp)
  }

  /** Whatever is live can be verified with a published key. */
  predicate Verifiable(p: Params, s: State) {
    forall i :: 0 <= i < |s.tokens| && Live(p, s.tokens[i], s.clock) ==>
      s.tokens[i].kid in s.rows && Published(p, s.rows[s.tokens[i].kid], s.clock)
  }

  /** A key fetched at `at` was not retired, or is so with a time stamp that is not much earlier. */
  predicate FetchedInTime(p: Params, s: State, kid: string, at: int) {
    kid in s.rows && at <= s.clock && (s.rows[kid].Retired? ==> at <= s.rows[kid].at + p.delay)
  }

  predicate Inv(p: Params, s: State) {
    && (forall r :: r in s.retiring ==> s.retiring[r].kid in s.rows)
    && (forall r :: r in s.minting ==> FetchedInTime(p, s, s.minting[r].kid, s.minting[r].fetchedAt))
    && (forall i :: 0 <= i < |s.tokens| ==>
          && FetchedInTime(p, s, s.tokens[i].kid, s.tokens[i].fetchedAt)
          && s.tokens[i].exp <= s.tokens[i].fetchedAt + p.gap + Longest(p))
  }

  lemma StepKeepsInv(p: Params, s: State, a: Action)
    requires Inv(p, s)
    ensures Inv(p, Step(p, s, a))
  {
    var t := Step(p, s, a);
    forall kid, at | FetchedInTime(p, s, kid, at) ensures FetchedInTime(p, t, kid, at) {
    }
    match a {
      case Tick(_) =>
      case Create(_) =>
      case BeginRetire(_, _) =>
      case CommitRetire(_) =>
      case Fetch(_, _) =>
      case Issue(_, _, _) =>
    }
  }

  lemma {:induction false} RunKeepsInv(p: Params, s: State, actions: seq<Action>)
    requires Inv(p, s)
    ensures Inv(p, Run(p, s, actions))
    decreases |actions|
  {
    if actions != [] {
      StepKeepsInv(p, s, actions[0]);
      RunKeepsInv(p, Step(p, s, actions[0]), actions[1..]);
    }
  }

  /** Retention is long enough for the slowest rotation, the slowest mint and the longest life. */
  predicate Sufficient(p: Params) {
    p.delay + p.gap + Longest(p) + (if p.inclusive then 1 else 0) <= p.retention
  }

  lemma SufficientRetention(p: Params, actions: seq<Action>)
    requires Sufficient(p)
    ensures Verifiable(p, Run(p, START, actions))
  {
    RunKeepsInv(p, START, actions);
  }

  /** A rotation that commits late, a mint that fetches just before that and signs late, and a wait. */
  function Late(p: Params, wait: nat): seq<Action> {
    [Create("k"), BeginRetire(0, "k"), Tick(p.delay), Fetch(1, "k"), CommitRetire(0), Tick(p.gap),
     Issue(1, p.delay + p.gap, if p.defaultTtl > p.maxTtl then None else Some(p.maxTtl)), Tick(wait)]
  }

  lemma RunTwo(p: Params, s: State, a: Action, b: Action, rest: seq<Action>)
    ensures Run(p, s, [a, b] + rest) == Run(p, Step(p, Step(p, s, a), b), rest)
  {
    var all := [a, b] + rest;
    assert all[1..] == [b] + rest;
    assert all[1..][1..] == rest;
  }

  lemma LateRun(p: Params, wait: nat)
    requires p.minTtl <= p.maxTtl
    ensures Run(p, START, Late(p, wait)) == State(
      p.delay + p.gap + wait, map["k" := Retired(0)], map[], map[],
      [Token("k", p.delay, p.delay + p.gap + Longest(p))])
  {
    var a := Late(p, wait);
    assert a == [a[0], a[1]] + ([a[2], a[3]] + ([a[4], a[5]] + ([a[6], a[7]] + [])));
    var s2 := State(0, map["k" := Active], map[0 := Retiring("k", 0)], map[], []);
    var s4 := s2.(clock := p.delay, minting := map[1 := Minting("k", p.delay)]);
    var s6 := State(p.delay + p.gap, map["k" := Retired(0)], map[], map[1 := Minting("k", p.delay)], []);
    RunTwo(p, START, a[0], a[1], [a[2], a[3]] + ([a[4], a[5]] + ([a[6], a[7]] + [])));
    assert Step(p, Step(p, START, a[0]), a[1]) == s2;
    RunTwo(p, s2, a[2], a[3], [a[4], a[5]] + ([a[6], a[7]] + []));
    assert Step(p, Step(p, s2, a[2]), a[3]) == s4;
    RunTwo(p, s4, a[4], a[5], [a[6], a[7]] + []);
    assert Step(p, Step(p, s4, a[4]), a[5]) == s6;
    RunTwo(p, s6, a[6], a[7], []);
  }

  /**
   * Over every interleaving of rotations and mints, everything live is verifiable with what is
   * published, if and only if retention is sufficient.
   */
  lemma VerifiableIffSufficient(p: Params)
    requires p.minTtl <= p.maxTtl && p.defaultTtl > 0
    ensures (forall actions :: Verifiable(p, Run(p, START, actions))) <==> Sufficient(p)
  {
    if Sufficient(p) {
      forall actions ensures Verifiable(p, Run(p, START, actions)) {
        SufficientRetention(p, actions);
      }
    } else {
      var wait := LateRunUnverifiable(p);
    }
  }

  /** When retention is insufficient, some wait leaves a live token whose key is no longer published. */
  lemma LateRunUnverifiable(p: Params) returns (wait: nat)
    requires p.minTtl <= p.maxTtl && Longest(p) > 0 && !Sufficient(p)
    ensures !Verifiable(p, Run(p, START, Late(p, wait)))
  {
    var lag := p.delay + p.gap;
    wait := if p.retention > lag then p.retention - lag else 0;
    LateRun(p, wait);
    var s := Run(p, START, Late(p, wait));
    assert Live(p, s.tokens[0], s.clock) && !Published(p, s.rows["k"], s.clock);
  }

  // ---- The three kinds of key ----

  /** JWT signing keys: good until just before `exp`, published 300 seconds longer than the longest life. */
  function JwtParams(minTtl: int, maxTtl: int, defaultTtl: int, delay: nat, gap: nat): Params {
    Params(minTtl, maxTtl, defaultTtl, maxTtl + 300, false, delay, gap)
  }

  /** Biscuit root keys: good up to and including the expiry, which is fixed before the key is fetched. */
  function BiscuitParams(minTtl: int, maxTtl: int, defaultTtl: int, delay: nat): Params {
    Params(minTtl, maxTtl, defaultTtl, maxTtl + 300, true, delay, 0)
  }

  /** X.509 leaves: good up to and including `not_valid_after`, with any life up to the credential's maximum. */
  function X509Params(maxTtl: int, delay: nat, gap: nat): Params {
    Params(0, maxTtl, 3600, 3600 + 300, true, delay, gap)
  }

  /** The life of the leaf issued with a credential that was `asked` for and lives `life` seconds. */
  function LeafTtl(asked: Option<int>, life: int): int {
    var ttl := if asked.Some? && asked.value != 0 then asked.value else life % 86400;
    if ttl != 0 then ttl else 3600
  }

  /** With a default within the maximum, JWTs stay verifiable exactly when no request lags over 300 seconds. */
  lemma JwtsVerifiableIff(minTtl: int, maxTtl: int, defaultTtl: int, delay: nat, gap: nat)
    requires minTtl <= maxTtl && 0 < defaultTtl <= maxTtl
    ensures (forall actions :: Verifiable(JwtParams(minTtl, maxTtl, defaultTtl, delay, gap),
                                 Run(JwtParams(minTtl, maxTtl, defaultTtl, delay, gap), START, actions)))
       <==> delay + gap <= 300
  {
    VerifiableIffSufficient(JwtParams(minTtl, maxTtl, defaultTtl, delay, gap));
  }

  lemma BiscuitsVerifiableIff(minTtl: int, maxTtl: int, defaultTtl: int, delay: nat)
    requires minTtl <= maxTtl && 0 < defaultTtl <= maxTtl
    ensures (forall actions :: Verifiable(BiscuitParams(minTtl, maxTtl, defaultTtl, delay),
                                 Run(BiscuitParams(minTtl, maxTtl, defaultTtl, delay), START, actions)))
       <==> delay < 300
  {
    VerifiableIffSufficient(BiscuitParams(minTtl, maxTtl, defaultTtl, delay));
  }

  /** Leaves may live as long as credentials, but retired certificates are kept for 3900 seconds only. */
  lemma LeavesVerifiableIff(maxTtl: int, delay: nat, gap: nat)
    requires 0 <= maxTtl
    ensures (forall actions :: Verifiable(X509Params(maxTtl, delay, gap),
                                 Run(X509Params(maxTtl, delay, gap), START, actions)))
       <==> delay + gap + maxTtl < 3900 && delay + gap < 300
  {
    VerifiableIffSufficient(X509Params(maxTtl, delay, gap));
  }

  /** What may be asked for lies between the bounds, and nothing asked for means the default, whatever the bounds. */
  lemma ClampTtlExactly(p: Params, ttl: int)
    ensures ClampTtl(p, Some(ttl)) == (if p.minTtl <= ttl <= p.maxTtl then Some(ttl) else None)
    ensures ClampTtl(p, None) == Some(p.defaultTtl)
  {
  }

  // ---- The lives of leaves that the endpoint issues ----

  /**
   * A leaf lives as long as was asked for, or as its credential does if nothing was asked for and the
   * credential lives less than a day; one that lives whole days has a leaf of an hour.
   */
  lemma LeafFollowsCredential(asked: Option<int>, life: int)
    requires life > 0
    ensures asked.Some? && asked.value != 0 ==> LeafTtl(asked, life) == asked.value
    ensures asked.None? && life < 86400 ==> LeafTtl(asked, life) == life
    ensures asked.None? && life % 86400 == 0 ==> LeafTtl(asked, life) == 3600
    ensures asked.None? && life > 86400 ==> LeafTtl(asked, life) < life
  {
  }

  /** The machine of leaves that live at most as long as a credential may. */
  function LeafParams(p: Params, delay: nat, gap: nat): Params {
    Params(0, p.maxTtl, p.maxTtl, 3600 + 300, true, delay, gap)
  }

  /** A leaf's life is computed from what was asked for and the life of the credential that goes with it. */
  predicate EndpointLife(p: Params, asked: Option<int>, life: int) {
    && (life == p.defaultTtl || ClampTtl(p, Some(life)).Some?)
    && (asked.Some? ==> asked.value == life)
  }

  /** Every leaf of the run has the life that the endpoint computes for some credential. */
  ghost predicate EndpointLeaves(p: Params, actions: seq<Action>) {
    forall i :: 0 <= i < |actions| && actions[i].Issue? ==>
      exists asked, life :: EndpointLife(p, asked, life) && actions[i].ttl == Some(LeafTtl(asked, life))
  }

  /** Whatever the endpoint computes is within the maximum, and the maximum can be had by asking for it. */
  lemma LeafLives(p: Params, asked: Option<int>, life: int)
    requires 0 < p.minTtl <= p.maxTtl && 0 < p.defaultTtl <= p.maxTtl && EndpointLife(p, asked, life)
    ensures 0 < LeafTtl(asked, life) <= p.maxTtl
    ensures EndpointLife(p, Some(p.maxTtl), p.maxTtl) && LeafTtl(Some(p.maxTtl), p.maxTtl) == p.maxTtl
  {
  }

  /** The run that shows insufficiency is one that the endpoint can cause. */
  lemma LateIsEndpoint(p: Params, delay: nat, gap: nat, wait: nat)
    requires 0 < p.minTtl <= p.maxTtl && 0 < p.defaultTtl <= p.maxTtl
    ensures EndpointLeaves(p, Late(LeafParams(p, delay, gap), wait))
  {
    LeafLives(p, Some(p.maxTtl), p.maxTtl);
    var a := Late(LeafParams(p, delay, gap), wait);
    assert a[6].ttl == Some(LeafTtl(Some(p.maxTtl), p.maxTtl));
  }

  /**
   * With the lives that the endpoint computes, leaves stay verifiable exactly when the longest life of a
   * credential and the lag of a request together stay below 3900 seconds.
   */
  lemma EndpointLeavesVerifiableIff(p: Params, delay: nat, gap: nat)
    requires 0 < p.minTtl <= p.maxTtl && 0 < p.defaultTtl <= p.maxTtl
    ensures var x := LeafParams(p, delay, gap);
      (forall actions :: EndpointLeaves(p, actions) ==> Verifiable(x, Run(x, START, actions)))
      <==> delay + gap + p.maxTtl < 3900
    ensures forall asked, life :: EndpointLife(p, asked, life) ==>
      ClampTtl(LeafParams(p, delay, gap), Some(LeafTtl(asked, life))) == Some(LeafTtl(asked, life))
  {
    var x := LeafParams(p, delay, gap);
    forall asked, life | EndpointLife(p, asked, life)
      ensures ClampTtl(x, Some(LeafTtl(asked, life))) == Some(LeafTtl(asked, life))
    {
      LeafLives(p, asked, life);
    }
    if Sufficient(x) {
      forall actions ensures Verifiable(x, Run(x, START, actions)) {
        SufficientRetention(x, actions);
      }
    } else {
      var wait := LateRunUnverifiable(x);
      LateIsEndpoint(p, delay, gap, wait);
    }
  }

  // ---- The published list ----

  /** A key as it is published: its id and what verifies with it. */
  datatype Key = Key(kid: string, status: Status, createdAt: int, material: string)

  function Listed(p: Params, rows: seq<Key>, now: int): seq<Key> {
    if rows == [] then []
    else Listed(p, rows[..|rows| - 1], now)
         + (if Published(p, rows[|rows| - 1].status, now) then [rows[|rows| - 1]] else [])
  }

  /** The loop of `x509_trust_bundle` and of `build_jwks`, which skips what was retired up to the cutoff. */
  method PublishedKeys(p: Params, rows: seq<Key>, now: int) returns (keys: seq<Key>)
    ensures keys == Listed(p, rows, now)
  {
    var cutoff := now - p.retention;
    keys := [];
    for i := 0 to |rows|
      invariant keys == Listed(p, rows[..i], now)
    {
      assert rows[..i + 1][..i] == rows[..i];
      if rows[i].status.Retired? && rows[i].status.at <= cutoff {
        continue;
      }
      keys := keys + [rows[i]];
    }
    assert rows[..|rows|] == rows;
  }

  /** Every row that is active or recently retired is listed as often as it occurs, and no other. */
  lemma {:induction false} ListedExactly(p: Params, rows: seq<Key>, now: int, k: Key)
    ensures multiset(Listed(p, rows, now))[k] == if Published(p, k.status, now) then multiset(rows)[k] else 0
  {
    if rows != [] {
      var init, last := rows[..|rows| - 1], rows[|rows| - 1];
      ListedExactly(p, init, now, k);
      assert rows == init + [last];
    }
  }
}
