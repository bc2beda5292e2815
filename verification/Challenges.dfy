/** One-time server challenges and the two endpoints that spend them. */
module Challenges {
  import opened Text
  import opened Collections
  import opened PopMessage

  const CHALLENGE_TTL: int := 300

  datatype Row = Row(customer: string, expires: int, used: bool)

  /** The `capability_challenges` table; the challenge itself is unique. */
  type Table = map<string, Row>

  datatype Refusal = Unknown | AlreadyUsed | Expired | NotConsumed

  predicate Claimable(t: Table, customer: string, challenge: string, now: int) {
    challenge in t && t[challenge].customer == customer && !t[challenge].used && t[challenge].expires > now
  }

  /** Why a claim on an unchanged row failed. */
  function Explain(t: Table, customer: string, challenge: string, now: int): Refusal {
    if challenge !in t || t[challenge].customer != customer then Unknown
    else if t[challenge].used then AlreadyUsed
    else if t[challenge].expires <= now then Expired
    else NotConsumed
  }

  /** The conditional update of `consume_server_challenge`; `None` is success. */
  function Consume(t: Table, customer: string, challenge: string, now: int): (Option<Refusal>, Table) {
    if Claimable(t, customer, challenge, now) then (None, t[challenge := t[challenge].(used := true)])
    else (Some(Explain(t, customer, challenge, now)), t)
  }

  /** The deletion of expired challenges in `prune_expired`. */
  function Prune(t: Table, now: int): Table {
    map c | c in t && t[c].expires > now :: t[c]
  }

  class ChallengeStore {
    var rows: Table

    constructor ()
      ensures rows == map[]
    {
      rows := map[];
    }

    /** `issue_server_challenge`; a challenge that exists already violates the unique column. */
    method Issue(customer: string, challenge: string, now: int) returns (stored: bool)
      modifies this
      ensures stored <==> challenge !in old(rows)
      ensures rows == if stored then old(rows)[challenge := Row(customer, now + CHALLENGE_TTL, false)] else old(rows)
    {
      stored := challenge !in rows;
      if stored {
        rows := rows[challenge := Row(customer, now + CHALLENGE_TTL, false)];
      }
    }

    /** `consume_server_challenge`: one conditional update, and on a miss a second look at the row. */
    method ConsumeServerChallenge(customer: string, challenge: string, now: int) returns (refusal: Option<Refusal>)
      modifies this
      ensures (refusal, rows) == Consume(old(rows), customer, challenge, now)
      ensures var own := challenge in old(rows) && old(rows)[challenge].customer == customer;
        && (refusal.None? <==> own && !old(rows)[challenge].used && now < old(rows)[challenge].expires)
        && (refusal == Some(Unknown) <==> !own)
        && (refusal == Some(AlreadyUsed) <==> own && old(rows)[challenge].used)
        && (refusal == Some(Expired) <==> own && !old(rows)[challenge].used && old(rows)[challenge].expires <= now)
    {
      var rowcount := 0;
      if Claimable(rows, customer, challenge, now) {
        rows := rows[challenge := rows[challenge].(used := true)];
        rowcount := 1;
      }
      if rowcount == 1 {
        return None;
      }
      if challenge !in rows || rows[challenge].customer != customer {
        return Some(Unknown);
      }
      if rows[challenge].used {
        return Some(AlreadyUsed);
      }
      if rows[challenge].expires <= now {
        return Some(Expired);
      }
      return Some(NotConsumed);
    }

    method PruneExpired(now: int) returns (deleted: nat)
      modifies this
      ensures rows == Prune(old(rows), now)
      ensures forall c :: c in rows <==> c in old(rows) && now < old(rows)[c].expires
      ensures deleted == |old(rows)| - |rows|
    {
      var kept := map c | c in rows && rows[c].expires > now :: rows[c];
      assert kept.Keys <= rows.Keys;
      SubsetSize(kept.Keys, rows.Keys);
      deleted := |rows| - |kept|;
      rows := kept;
    }
  }

  // ---- Runs of the endpoints ----

  datatype Endpoint = ValidateEndpoint | AuthorizeEndpoint

  /** A call of `/v1/validate` or `/v1/authorize`; only the latter names an operation of its own. */
  datatype Request = Request(
    id: int, endpoint: Endpoint, customer: string, token: string, operation: Operation, pop: Option<PopProof>)

  /** A successful claim. */
  datatype Claim = Claim(challenge: string, request: int, customer: string, at: int)

  /**
   * `issued` remembers every challenge ever issued with its tenant and expiry; `claims` every
   * successful claim; `pending` the requests past the claim; `granted` those answered positively.
   */
  datatype State<W> = State(
    rows: Table, issued: map<string, Row>, claims: seq<Claim>,
    begun: set<int>, pending: map<int, Request>, granted: seq<Granted<W>>)

  /** A positive answer and the moment at which it was decided. */
  datatype Granted<W> = Granted(request: Request, moment: W)

  /**
   * The atomic steps of any number of concurrent requests. The claim is one step and the decision,
   * taken at some later moment, another.
   */
  datatype Action<W> =
    | Issue(customer: string, challenge: string, now: int)
    | Begin(r: Request, now: int)
    | Decide(id: int, moment: W)
    | PruneAt(now: int)

  function DoIssue<W>(s: State<W>, customer: string, challenge: string, now: int): State<W> {
    if challenge in s.issued then s
    else
      var row := Row(customer, now + CHALLENGE_TTL, false);
      s.(rows := s.rows[challenge := row], issued := s.issued[challenge := row])
  }

  function DoBegin<W>(s: State<W>, r: Request, now: int): State<W> {
    if r.id in s.begun then s
    else if r.pop.None? then s.(begun := s.begun + {r.id}, pending := s.pending[r.id := r])
    else
      var (refusal, rows) := Consume(s.rows, r.customer, r.pop.value.challenge, now);
      if refusal.Some? then s.(begun := s.begun + {r.id})
      else s.(rows := rows, begun := s.begun + {r.id}, pending := s.pending[r.id := r],
              claims := s.claims + [Claim(r.pop.value.challenge, r.id, r.customer, now)])
  }

  function DoDecide<W>(s: State<W>, id: int, answer: bool, moment: W): State<W> {
    if id !in s.pending then s
    else
      var granted := if answer then s.granted + [Granted(s.pending[id], moment)] else s.granted;
      s.(pending := s.pending - {id}, granted := granted)
  }

  /** A new challenge is random and never drawn twice. */
  function Step<W>(decide: (Request, W) -> bool, s: State<W>, a: Action<W>): State<W> {
    match a
    case Issue(customer, challenge, now) => DoIssue(s, customer, challenge, now)
    case Begin(r, now) => DoBegin(s, r, now)
    case Decide(id, moment) => DoDecide(s, id, id in s.pending && decide(s.pending[id], moment), moment)
    case PruneAt(now) => s.(rows := Prune(s.rows, now))
  }

  /** Pruning drops exactly the rows that have expired and touches nothing else. */
  lemma PruneDropsExpired<W>(decide: (Request, W) -> bool, s: State<W>, now: int)
    ensures var t := Step(decide, s, PruneAt(now));
      && (forall c :: c in t.rows <==> c in s.rows && now < s.rows[c].expires)
      && (forall c :: c in t.rows ==> t.rows[c] == s.rows[c])
      && t == s.(rows := t.rows)
  {
  }

  function Initial<W>(): State<W> {
    State(map[], map[], [], {}, map[], [])
  }

  function Run<W>(decide: (Request, W) -> bool, actions: seq<Action<W>>): State<W> {
    if actions == [] then Initial()
    else Step(decide, Run(decide, actions[..|actions| - 1]), actions[|actions| - 1])
  }

  ghost predicate Claimed<W>(s: State<W>, challenge: string) {
    exists i :: 0 <= i < |s.claims| && s.claims[i].challenge == challenge
  }

  /** Stored rows are issued rows, and used exactly when claimed. */
  ghost predicate RowsOk<W>(s: State<W>) {
    forall c :: c in s.rows ==>
      c in s.issued && s.rows[c].(used := false) == s.issued[c] && (s.rows[c].used <==> Claimed(s, c))
  }

  /** Every claim is for an issued challenge of the same tenant that had not expired; no two share one. */
  ghost predicate ClaimsOk<W>(s: State<W>) {
    && (forall i :: 0 <= i < |s.claims| ==>
          && s.claims[i].challenge in s.issued
          && s.issued[s.claims[i].challenge].customer == s.claims[i].customer
          && s.claims[i].at < s.issued[s.claims[i].challenge].expires)
    && (forall i, j :: 0 <= i < j < |s.claims| ==> s.claims[i].challenge != s.claims[j].challenge)
  }

  predicate Pays(c: Claim, r: Request) {
    r.pop.Some? && c == Claim(r.pop.value.challenge, r.id, r.customer, c.at)
  }

  /** A request past the claim that carries a proof has claimed the challenge the proof names. */
  ghost predicate Spent<W>(s: State<W>, r: Request) {
    r.pop.Some? ==> exists i :: 0 <= i < |s.claims| && Pays(s.claims[i], r)
  }

  ghost predicate PendingOk<W>(s: State<W>) {
    forall id :: id in s.pending ==> s.pending[id].id == id && id in s.begun && Spent(s, s.pending[id])
  }

  ghost predicate GrantedOk<W(!new)>(decide: (Request, W) -> bool, s: State<W>) {
    && (forall k :: 0 <= k < |s.granted| ==>
          && s.granted[k].request.id in s.begun && s.granted[k].request.id !in s.pending
          && decide(s.granted[k].request, s.granted[k].moment) && Spent(s, s.granted[k].request))
    && (forall k, l :: 0 <= k < l < |s.granted| ==> s.granted[k].request.id != s.granted[l].request.id)
  }

  ghost predicate Inv<W(!new)>(decide: (Request, W) -> bool, s: State<W>) {
    RowsOk(s) && ClaimsOk(s) && PendingOk(s) && GrantedOk(decide, s)
  }

  lemma ClaimKeepsRows<W>(s: State<W>, r: Request, now: int)
    requires RowsOk(s) && ClaimsOk(s) && r.id !in s.begun && r.pop.Some?
    requires Claimable(s.rows, r.customer, r.pop.value.challenge, now)
    ensures RowsOk(DoBegin(s, r, now)) && ClaimsOk(DoBegin(s, r, now))
  {
    var t := DoBegin(s, r, now);
    var c := r.pop.value.challenge;
    assert !Claimed(s, c);
    assert t.claims[|s.claims|] == Claim(c, r.id, r.customer, now);
    forall d ensures Claimed(t, d) <==> d == c || Claimed(s, d) {
      if Claimed(s, d) {
        var i :| 0 <= i < |s.claims| && s.claims[i].challenge == d;
        assert t.claims[i].challenge == d;
      }
    }
  }

  /** Claims are only added. */
  lemma SpentStays<W>(s: State<W>, r: Request, now: int, q: Request)
    requires Spent(s, q)
    ensures Spent(DoBegin(s, r, now), q)
  {
    var t := DoBegin(s, r, now);
    if q.pop.Some? {
      var i :| 0 <= i < |s.claims| && Pays(s.claims[i], q);
      assert t.claims[i] == s.claims[i];
    }
  }

  lemma BeginKeepsRows<W>(s: State<W>, r: Request, now: int)
    requires RowsOk(s) && ClaimsOk(s)
    ensures RowsOk(DoBegin(s, r, now)) && ClaimsOk(DoBegin(s, r, now))
  {
    var t := DoBegin(s, r, now);
    if r.id !in s.begun && r.pop.Some? && Claimable(s.rows, r.customer, r.pop.value.challenge, now) {
      ClaimKeepsRows(s, r, now);
    } else {
      assert forall c :: Claimed(t, c) <==> Claimed(s, c);
    }
  }

  lemma BeginKeepsInv<W(!new)>(decide: (Request, W) -> bool, s: State<W>, r: Request, now: int)
    requires Inv(decide, s)
    ensures Inv(decide, DoBegin(s, r, now))
  {
    var t := DoBegin(s, r, now);
    BeginKeepsRows(s, r, now);
    forall q | Spent(s, q) ensures Spent(t, q) {
      SpentStays(s, r, now, q);
    }
    if r.id in t.pending && r.id !in s.begun && r.pop.Some? {
      assert Pays(t.claims[|s.claims|], r);
      assert Spent(t, r);
    }
  }

  lemma StepKeepsInv<W(!new)>(decide: (Request, W) -> bool, s: State<W>, a: Action<W>)
    requires Inv(decide, s)
    ensures Inv(decide, Step(decide, s, a))
  {
    var t := Step(decide, s, a);
    match a {
      case Issue(_, challenge, _) =>
        assert forall c :: Claimed(t, c) <==> Claimed(s, c);
        assert forall r :: Spent(t, r) <==> Spent(s, r);
        assert challenge !in s.issued ==> !Claimed(s, challenge);
      case Begin(r, now) =>
        BeginKeepsInv(decide, s, r, now);
      case Decide(id, _) =>
        assert forall c :: Claimed(t, c) <==> Claimed(s, c);
        assert forall r :: Spent(t, r) <==> Spent(s, r);
      case PruneAt(_) =>
        assert forall c :: Claimed(t, c) <==> Claimed(s, c);
        assert forall r :: Spent(t, r) <==> Spent(s, r);
    }
  }

  lemma {:induction false} RunKeepsInv<W(!new)>(decide: (Request, W) -> bool, actions: seq<Action<W>>)
    ensures Inv(decide, Run(decide, actions))
  {
    if actions != [] {
      RunKeepsInv(decide, actions[..|actions| - 1]);
      StepKeepsInv(decide, Run(decide, actions[..|actions| - 1]), actions[|actions| - 1]);
    }
  }

  /** The tenant and the time of the first issue of a challenge. */
  function FirstIssue<W>(actions: seq<Action<W>>, challenge: string): Option<(string, int)> {
    if actions == [] then None
    else
      var earlier := FirstIssue(actions[..|actions| - 1], challenge);
      var last := actions[|actions| - 1];
      if earlier.None? && last.Issue? && last.challenge == challenge then Some((last.customer, last.now)) else earlier
  }

  lemma {:induction false} IssuedFromFirst<W>(
      decide: (Request, W) -> bool, actions: seq<Action<W>>, challenge: string)
    ensures var s, first := Run(decide, actions), FirstIssue(actions, challenge);
      && (challenge in s.issued <==> first.Some?)
      && (first.Some? ==> s.issued[challenge] == Row(first.value.0, first.value.1 + 300, false))
  {
    if actions != [] {
      IssuedFromFirst(decide, actions[..|actions| - 1], challenge);
    }
  }

  /** Nothing has been pruned at a later time than `now`. */
  predicate PrunedUpTo<W>(actions: seq<Action<W>>, now: int) {
    forall i :: 0 <= i < |actions| && actions[i].PruneAt? ==> actions[i].now <= now
  }

  lemma {:induction false} UnexpiredStays<W(!new)>(
      decide: (Request, W) -> bool, actions: seq<Action<W>>, challenge: string, now: int)
    requires PrunedUpTo(actions, now)
    ensures var s := Run(decide, actions);
      challenge in s.issued && s.issued[challenge].expires > now ==> challenge in s.rows
  {
    if actions != [] {
      var init, last := actions[..|actions| - 1], actions[|actions| - 1];
      assert forall i :: 0 <= i < |init| ==> init[i] == actions[i];
      UnexpiredStays(decide, init, challenge, now);
      RunKeepsInv(decide, init);
      UnexpiredRowStays(decide, Run(decide, init), last, challenge, now);
    }
  }

  lemma UnexpiredRowStays<W>(decide: (Request, W) -> bool, s: State<W>, a: Action<W>, challenge: string, now: int)
    requires RowsOk(s) && (a.PruneAt? ==> a.now <= now)
    requires challenge in s.issued && s.issued[challenge].expires > now ==> challenge in s.rows
    ensures var t := Step(decide, s, a);
      challenge in t.issued && t.issued[challenge].expires > now ==> challenge in t.rows
  {
  }

  /**
   * A claim succeeds exactly for the tenant that the challenge was issued to, less than 300 seconds after
   * the issue, and if nobody has claimed it before; earlier prunes make no difference.
   */
  lemma ClaimSucceedsExactly<W(!new)>(
      decide: (Request, W) -> bool, actions: seq<Action<W>>, customer: string, challenge: string, now: int)
    requires PrunedUpTo(actions, now)
    ensures var s, first := Run(decide, actions), FirstIssue(actions, challenge);
      Consume(s.rows, customer, challenge, now).0.None? <==>
        first.Some? && first.value.0 == customer && now < first.value.1 + 300 && !Claimed(s, challenge)
  {
    RunKeepsInv(decide, actions);
    IssuedFromFirst(decide, actions, challenge);
    UnexpiredStays(decide, actions, challenge, now);
  }

  /**
   * A new request is answered positively exactly when it carries no proof or its claim succeeds, and the
   * decision is positive; it is then recorded with the moment of the decision.
   */
  lemma AnsweredExactly<W>(decide: (Request, W) -> bool, actions: seq<Action<W>>, r: Request, now: int, m: W)
    requires r.id !in Run(decide, actions).begun && r.id !in Run(decide, actions).pending
    ensures var s, t := Run(decide, actions), Run(decide, actions + [Begin(r, now)] + [Decide(r.id, m)]);
      var claimed := r.pop.None? || Consume(s.rows, r.customer, r.pop.value.challenge, now).0.None?;
      t.granted == s.granted + if claimed && decide(r, m) then [Granted(r, m)] else []
  {
    var s := Run(decide, actions);
    RunAppended(decide, actions, Begin(r, now));
    RunAppended(decide, actions + [Begin(r, now)], Decide(r.id, m));
  }

  lemma RunAppended<W>(decide: (Request, W) -> bool, actions: seq<Action<W>>, a: Action<W>)
    ensures Run(decide, actions + [a]) == Step(decide, Run(decide, actions), a)
  {
    assert (actions + [a])[..|actions|] == actions;
  }

  /** How a proof bears on a request at the moment of the decision. */
  type Cover<!W> = (Request, W, PopProof) -> bool

  /** A positive answer comes with a proof that `covers` the request at the moment of the decision. */
  ghost predicate NeedsProof<W(!new)>(decide: (Request, W) -> bool, covers: Cover<W>) {
    forall r, m :: decide(r, m) ==> r.pop.Some? && covers(r, m, r.pop.value)
  }

  /** `c` is a claim made for `r`'s proof, by the tenant the challenge was issued to and in time. */
  ghost predicate PaidWith<W>(s: State<W>, r: Request, c: Claim) {
    && c in s.claims && Pays(c, r)
    && c.challenge in s.issued
    && s.issued[c.challenge].customer == r.customer
    && c.at < s.issued[c.challenge].expires
  }

  /** A positive answer has been paid for, and its proof covered the request when it was decided. */
  ghost predicate Settled<W(!new)>(s: State<W>, covers: Cover<W>, g: Granted<W>) {
    && g.request.pop.Some?
    && (exists c :: PaidWith(s, g.request, c))
    && covers(g.request, g.moment, g.request.pop.value)
  }

  /** Two positive answers rest on different challenges. */
  predicate PaidApart<W>(a: Granted<W>, b: Granted<W>) {
    && a.request.pop.Some? && b.request.pop.Some?
    && a.request.pop.value.challenge != b.request.pop.value.challenge
  }

  lemma GrantIsSettled<W(!new)>(decide: (Request, W) -> bool, covers: Cover<W>, s: State<W>, k: int)
    requires NeedsProof(decide, covers) && Inv(decide, s) && 0 <= k < |s.granted|
    ensures Settled(s, covers, s.granted[k])
  {
    var r := s.granted[k].request;
    assert decide(r, s.granted[k].moment) && Spent(s, r);
    var i :| 0 <= i < |s.claims| && Pays(s.claims[i], r);
    assert PaidWith(s, r, s.claims[i]);
  }

  lemma GrantsPayApart<W(!new)>(decide: (Request, W) -> bool, covers: Cover<W>, s: State<W>, k: int, l: int)
    requires NeedsProof(decide, covers) && Inv(decide, s) && 0 <= k < l < |s.granted|
    ensures PaidApart(s.granted[k], s.granted[l])
  {
    GrantIsSettled(decide, covers, s, k);
    GrantIsSettled(decide, covers, s, l);
    var c :| PaidWith(s, s.granted[k].request, c);
    var d :| PaidWith(s, s.granted[l].request, d);
    var i :| 0 <= i < |s.claims| && s.claims[i] == c;
    var j :| 0 <= j < |s.claims| && s.claims[j] == d;
    assert i != j;
    assert if i < j then c.challenge != d.challenge else d.challenge != c.challenge;
  }

  /**
   * Over every interleaving of issues, requests, decisions and prunes: no challenge is claimed twice;
   * every positive answer was paid for with a claim of its own, by the issuing tenant and before
   * expiry; and the proof covered the request when the answer was decided.
   */
  lemma EveryGrantSpentItsOwnChallenge<W(!new)>(
      decide: (Request, W) -> bool, covers: Cover<W>, actions: seq<Action<W>>)
    requires NeedsProof(decide, covers)
    ensures var s := Run(decide, actions);
      && (forall i, j :: 0 <= i < j < |s.claims| ==> s.claims[i].challenge != s.claims[j].challenge)
      && (forall k :: 0 <= k < |s.granted| ==> Settled(s, covers, s.granted[k]))
      && (forall k, l :: 0 <= k < l < |s.granted| ==> PaidApart(s.granted[k], s.granted[l]))
  {
    RunKeepsInv(decide, actions);
    var s := Run(decide, actions);
    forall k | 0 <= k < |s.granted| ensures Settled(s, covers, s.granted[k]) {
      GrantIsSettled(decide, covers, s, k);
    }
    forall k, l | 0 <= k < l < |s.granted| ensures PaidApart(s.granted[k], s.granted[l]) {
      GrantsPayApart(decide, covers, s, k, l);
    }
  }
}
