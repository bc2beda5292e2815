/** One-time use of attestation evidence, and the pruning of the records that enforce it. */
module Attestation {
  import opened Text
  import Collections

  /** Clock readings are in microseconds; documents and records carry whole seconds. */
  const MICRO: int := 1_000_000

  function Seconds(now: int): int {
    now / MICRO
  }

  /** Evidence for a node. A projected Kubernetes token has no id or expiry that the verifier reads. */
  datatype Document =
    | Static(id: string, iat: int, exp: int)
    | Gcp(sub: string, instance: string, iat: int, exp: int)
    | K8s(node: string)
    | Aws(account: string, instance: string, pendingTime: string)

  /** What the one-time id of cloud evidence is a hash of. */
  datatype Preimage =
    | GcpId(sub: string, instance: string, iat: int)
    | K8sId(node: string, bucket: int)
    | AwsId(account: string, instance: string, pendingTime: string)

  /** The hash function, and the verdict of signatures, certificates and TokenReview at a given time. */
  datatype Host = Host(digest: Preimage -> string, genuine: (Document, int) -> bool, maxTtl: int)

  /** The one-time id and the expiry stored with it. */
  datatype Use = Use(jti: string, expires: int)

  function Bucket(h: Host, now: int): int
    requires h.maxTtl > 0
  {
    Seconds(now) / h.maxTtl
  }

  /** Verification at `now` of whichever form of evidence is presented. */
  function Verify(h: Host, d: Document, now: int): Option<Use>
    requires h.maxTtl > 0
  {
    if !h.genuine(d, now) then None
    else match d
      case Static(id, iat, exp) =>
        if exp * MICRO <= now || exp - iat > h.maxTtl then None else Some(Use(id, exp))
      case Gcp(sub, instance, iat, exp) =>
        if exp * MICRO <= now || exp - iat > h.maxTtl then None
        else Some(Use(h.digest(GcpId(sub, instance, iat)), exp))
      case K8s(node) => Some(Use(h.digest(K8sId(node, Bucket(h, now))), Seconds(now) + h.maxTtl))
      case Aws(account, instance, pending) =>
        Some(Use(h.digest(AwsId(account, instance, pending)), Seconds(now) + h.maxTtl))
  }

  // ---- Static documents and the registered anchors ----

  /** What decoding a document with one anchor's key gives: its lifetime claims where they are numbers. */
  datatype AnchorResult = TooOld | Rejected | Verified(iat: Option<int>, exp: Option<int>)

  datatype NodeOutcome = Accepted(anchor: nat) | MissingClaims | LivesTooLong | DocumentExpired | NotSigned

  /**
   * The verdict on a document that the anchor at `i` verifies: accepted exactly with both claims, at most
   * `maxTtl` seconds apart.
   */
  predicate Judged(iat: Option<int>, exp: Option<int>, i: nat, maxTtl: int, outcome: NodeOutcome) {
    && (outcome == Accepted(i) <==> iat.Some? && exp.Some? && exp.value <= iat.value + maxTtl)
    && (outcome == LivesTooLong <==> iat.Some? && exp.Some? && exp.value > iat.value + maxTtl)
    && (outcome == MissingClaims <==> iat.None? || exp.None?)
  }

  predicate FirstVerified(anchors: seq<AnchorResult>, i: int) {
    0 <= i < |anchors| && anchors[i].Verified? && forall j :: 0 <= j < i ==> !anchors[j].Verified?
  }

  /**
   * The loop of `verify_node_attestation`: the first anchor that verifies the document decides, even
   * if a later one would too; without one, the document is expired if any anchor found it so.
   */
  method VerifyNodeAttestation(anchors: seq<AnchorResult>, maxTtl: int) returns (outcome: NodeOutcome)
    ensures forall i :: FirstVerified(anchors, i) ==> Judged(anchors[i].iat, anchors[i].exp, i, maxTtl, outcome)
    ensures (forall i :: 0 <= i < |anchors| ==> !anchors[i].Verified?)
      ==> outcome == if TooOld in anchors then DocumentExpired else NotSigned
  {
    var expired := false;
    for i := 0 to |anchors|
      invariant forall j :: 0 <= j < i ==> !anchors[j].Verified?
      invariant expired <==> TooOld in anchors[..i]
    {
      match anchors[i] {
        case TooOld => expired := true;
        case Rejected =>
        case Verified(iat, exp) =>
          if iat.None? || exp.None? {
            return MissingClaims;
          }
          return if exp.value - iat.value > maxTtl then LivesTooLong else Accepted(i);
      }
    }
    assert anchors[..|anchors|] == anchors;
    return if expired then DocumentExpired else NotSigned;
  }

  /** The `attestation_uses` table with its unique (customer, jti). */
  type Table = map<(string, string), int>

  function Prune(t: Table, now: int): Table {
    map k | k in t && t[k] * MICRO > now :: t[k]
  }

  class UseStore {
    var rows: Table

    constructor ()
      ensures rows == map[]
    {
      rows := map[];
    }

    /** `record_attestation_use`: insert, and on a violation of the unique key refuse. */
    method RecordAttestationUse(customer: string, use: Use) returns (recorded: bool)
      modifies this
      ensures recorded <==> (customer, use.jti) !in old(rows)
      ensures rows == if recorded then old(rows)[(customer, use.jti) := use.expires] else old(rows)
    {
      if (customer, use.jti) in rows {
        return false;
      }
      rows := rows[(customer, use.jti) := use.expires];
      return true;
    }

    method PruneExpired(now: int) returns (deleted: nat)
      modifies this
      ensures rows == Prune(old(rows), now)
      ensures forall k :: k in rows <==> k in old(rows) && now < old(rows)[k] * 1_000_000
      ensures deleted == |old(rows).Keys - rows.Keys|
    {
      var gone := set k | k in rows && rows[k] * MICRO <= now;
      assert gone == rows.Keys - Prune(rows, now).Keys;
      deleted := |gone|;
      rows := rows - gone;
    }
  }

  /** Documents with an expiry are good until then and for a limited life; all evidence must be genuine. */
  lemma VerifyExactly(h: Host, d: Document, now: int)
    requires h.maxTtl > 0
    ensures Verify(h, d, now).Some? <==>
      && h.genuine(d, now)
      && (d.Static? || d.Gcp? ==> now < d.exp * 1_000_000 && d.exp <= d.iat + h.maxTtl)
    ensures Verify(h, d, now).Some? ==>
      Verify(h, d, now).value.expires == if d.Static? || d.Gcp? then d.exp else now / 1_000_000 + h.maxTtl
    ensures Verify(h, d, now).Some? && d.Static? ==> Verify(h, d, now).value.jti == d.id
  {
  }

  ghost predicate InjectiveDigest(h: Host) {
    forall p, q :: h.digest(p) == h.digest(q) ==> p == q
  }

  /** The instance token, the pod in its bucket, and the instance document are told apart by their ids. */
  lemma SameIdIff(h: Host, a: Document, s: int, b: Document, t: int)
    requires h.maxTtl > 0 && InjectiveDigest(h) && !a.Static? && !b.Static?
    requires Verify(h, a, s).Some? && Verify(h, b, t).Some?
    ensures Verify(h, a, s).value.jti == Verify(h, b, t).value.jti <==>
      || (a.Gcp? && b.Gcp? && a.sub == b.sub && a.instance == b.instance && a.iat == b.iat)
      || (a.K8s? && a == b && s / 1_000_000 / h.maxTtl == t / 1_000_000 / h.maxTtl)
      || (a.Aws? && a == b)
  {
  }

  // ---- Runs ----

  /** A request that has verified its evidence but not yet recorded the use. */
  datatype Pending = Pending(customer: string, doc: Document, use: Use, at: int)

  datatype Mint = Mint(request: Pending, recordedAt: int)

  datatype State = State(rows: Table, clock: int, verified: map<int, Pending>, mints: seq<Mint>)

  /** A request that fails after recording leaves the record behind only if something committed it. */
  datatype Outcome = Minted | FailedAndKept | FailedAndRolledBack

  datatype Action =
    | Tick(elapsed: nat)
    | Check(id: int, customer: string, doc: Document)
    | Record(id: int, outcome: Outcome)
    | PruneAll

  function Step(h: Host, s: State, a: Action): State
    requires h.maxTtl > 0
  {
    match a
    case Tick(elapsed) => s.(clock := s.clock + elapsed)
    case Check(id, customer, doc) =>
      var use := Verify(h, doc, s.clock);
      if id in s.verified || use.None? then s
      else s.(verified := s.verified[id := Pending(customer, doc, use.value, s.clock)])
    case Record(id, outcome) =>
      if id !in s.verified then s
      else
        var v := s.verified[id];
        var key := (v.customer, v.use.jti);
        var t := s.(verified := s.verified - {id});
        if key in s.rows || outcome == FailedAndRolledBack then t
        else t.(rows := s.rows[key := v.use.expires],
                mints := if outcome == Minted then s.mints + [Mint(v, s.clock)] else s.mints)
    case PruneAll => s.(rows := Prune(s.rows, s.clock))
  }

  function Run(h: Host, s: State, actions: seq<Action>): State
    requires h.maxTtl > 0
    decreases |actions|
  {
    if actions == [] then s else Run(h, Step(h, s, actions[0]), actions[1..])
  }

  function Start(clock: int): State {
    State(map[], clock, map[], [])
  }

  predicate Faithful(h: Host, v: Pending)
    requires h.maxTtl > 0
  {
    Verify(h, v.doc, v.at) == Some(v.use)
  }

  function Key(m: Mint): (string, string) {
    (m.request.customer, m.request.use.jti)
  }

  /** The record behind a mint is there until it has expired. */
  predicate Remembered(s: State, m: Mint) {
    s.clock < m.request.use.expires * MICRO ==> Key(m) in s.rows && s.rows[Key(m)] == m.request.use.expires
  }

  /** Of two mints under one id, the later was recorded once the earlier's record had expired. */
  predicate Apart(s: State) {
    forall i, j :: 0 <= i < j < |s.mints| && Key(s.mints[i]) == Key(s.mints[j]) ==>
      s.mints[i].request.use.expires * MICRO <= s.mints[j].recordedAt
  }

  ghost predicate Inv(h: Host, s: State)
    requires h.maxTtl > 0
  {
    && (forall id :: id in s.verified ==> Faithful(h, s.verified[id]) && s.verified[id].at <= s.clock)
    && (forall i :: 0 <= i < |s.mints| ==>
          && Faithful(h, s.mints[i].request) && Remembered(s, s.mints[i])
          && s.mints[i].request.at <= s.mints[i].recordedAt <= s.clock)
    && Apart(s)
  }

  lemma StepKeepsInv(h: Host, s: State, a: Action)
    requires h.maxTtl > 0 && Inv(h, s)
    ensures Inv(h, Step(h, s, a))
  {
    var t := Step(h, s, a);
    assert forall i :: 0 <= i < |s.mints| ==> t.mints[i] == s.mints[i] && Remembered(s, s.mints[i]);
    match a {
      case Tick(_) =>
      case Check(_, _, _) =>
      case Record(id, outcome) =>
      case PruneAll =>
    }
  }

  lemma {:induction false} RunKeepsInv(h: Host, s: State, actions: seq<Action>)
    requires h.maxTtl > 0 && Inv(h, s)
    ensures Inv(h, Run(h, s, actions))
    decreases |actions|
  {
    if actions != [] {
      StepKeepsInv(h, s, actions[0]);
      RunKeepsInv(h, Step(h, s, actions[0]), actions[1..]);
    }
  }

  // ---- How often one document mints ----

  /**
   * When a mint's evidence stops being able to produce the same id: the document's expiry, or the end
   * of the Kubernetes bucket. AWS evidence always produces the same id.
   */
  function UsableUntil(h: Host, v: Pending): Option<int>
    requires h.maxTtl > 0
  {
    match v.doc
    case Static(_, _, exp) => Some(exp * MICRO)
    case Gcp(_, _, _, exp) => Some(exp * MICRO)
    case K8s(_) => Some((Bucket(h, v.at) + 1) * h.maxTtl * MICRO)
    case Aws(_, _, _) => None
  }

  lemma BucketBounds(h: Host, now: int)
    requires h.maxTtl > 0
    ensures Bucket(h, now) * h.maxTtl <= Seconds(now) < (Bucket(h, now) + 1) * h.maxTtl
    ensures Bucket(h, now) * h.maxTtl * MICRO <= now < (Bucket(h, now) + 1) * h.maxTtl * MICRO
  {
    var q, m := Bucket(h, now), h.maxTtl;
    assert Seconds(now) == q * m + Seconds(now) % m;
    assert (q + 1) * m == q * m + m;
    assert MICRO * Seconds(now) <= now < MICRO * (Seconds(now) + 1);
    Scale(q * m, Seconds(now));
    Scale(Seconds(now) + 1, (q + 1) * m);
  }

  lemma Scale(a: int, b: int)
    requires a <= b
    ensures a * MICRO <= b * MICRO
  {
  }

  /** The stored expiry covers the whole time in which the evidence could be presented again. */
  lemma RecordOutlivesEvidence(h: Host, v: Pending)
    requires h.maxTtl > 0 && Faithful(h, v) && UsableUntil(h, v).Some?
    ensures v.at < UsableUntil(h, v).value <= v.use.expires * MICRO
  {
    if v.doc.K8s? {
      BucketBounds(h, v.at);
      assert (Bucket(h, v.at) + 1) * h.maxTtl == Bucket(h, v.at) * h.maxTtl + h.maxTtl;
      Scale((Bucket(h, v.at) + 1) * h.maxTtl, v.use.expires);
    }
  }

  /** The same tenant presents the same document, and for Kubernetes in the same bucket. */
  predicate SameUse(h: Host, a: Pending, b: Pending)
    requires h.maxTtl > 0
  {
    a.customer == b.customer && a.doc == b.doc && (a.doc.K8s? ==> Bucket(h, a.at) == Bucket(h, b.at))
  }

  /**
   * Whatever is recorded and pruned in between, and however long requests take, the second mint from a
   * static, GCP or Kubernetes use is by a request that verified the evidence before it ran out and
   * recorded the use after.
   */
  lemma SecondMintStraddlesExpiry(h: Host, clock: int, actions: seq<Action>, i: int, j: int)
    requires h.maxTtl > 0
    requires 0 <= i < j < |Run(h, Start(clock), actions).mints|
    requires var s := Run(h, Start(clock), actions);
      SameUse(h, s.mints[i].request, s.mints[j].request) && !s.mints[i].request.doc.Aws?
    ensures var s := Run(h, Start(clock), actions);
      && UsableUntil(h, s.mints[i].request) == UsableUntil(h, s.mints[j].request)
      && s.mints[j].request.at < UsableUntil(h, s.mints[i].request).value <= s.mints[j].recordedAt
  {
    RunKeepsInv(h, Start(clock), actions);
    var s := Run(h, Start(clock), actions);
    assert Faithful(h, s.mints[i].request) && Faithful(h, s.mints[j].request);
    RecordOutlivesEvidence(h, s.mints[i].request);
    RecordOutlivesEvidence(h, s.mints[j].request);
    assert Key(s.mints[i]) == Key(s.mints[j]);
  }

  /** Each minting request recorded the use at the clock reading at which it verified the evidence. */
  predicate OneReading(s: State) {
    forall i :: 0 <= i < |s.mints| ==> s.mints[i].request.at == s.mints[i].recordedAt
  }

  /** A static or GCP document mints at most one credential ever; a Kubernetes pod one per bucket. */
  lemma OneMintPerUse(h: Host, clock: int, actions: seq<Action>, i: int, j: int)
    requires h.maxTtl > 0
    requires var s := Run(h, Start(clock), actions);
      OneReading(s) && 0 <= i < |s.mints| && 0 <= j < |s.mints| && SameUse(h, s.mints[i].request, s.mints[j].request)
    ensures i == j || Run(h, Start(clock), actions).mints[i].request.doc.Aws?
  {
    if i < j && !Run(h, Start(clock), actions).mints[i].request.doc.Aws? {
      SecondMintStraddlesExpiry(h, clock, actions, i, j);
    } else if j < i && !Run(h, Start(clock), actions).mints[i].request.doc.Aws? {
      SecondMintStraddlesExpiry(h, clock, actions, j, i);
    }
  }

  /** The mints for one tenant's pod that were recorded in `[from, to)`. */
  function PodMints(s: State, customer: string, node: string, from: int, to: int): set<int> {
    set i | 0 <= i < |s.mints| && s.mints[i].request.customer == customer && s.mints[i].request.doc == K8s(node)
            && from <= s.mints[i].recordedAt < to
  }

  lemma BucketMonotone(h: Host, a: int, b: int)
    requires h.maxTtl > 0 && a <= b
    ensures Bucket(h, a) <= Bucket(h, b)
  {
    BucketBounds(h, a);
    BucketBounds(h, b);
    if Bucket(h, b) + 1 <= Bucket(h, a) {
      Multiply(Bucket(h, b) + 1, Bucket(h, a), h.maxTtl);
    }
  }

  lemma Multiply(a: int, b: int, m: nat)
    requires a <= b
    ensures a * m <= b * m
  {
  }

  lemma BucketAdvance(h: Host, from: int, k: nat, now: int)
    requires h.maxTtl > 0 && from <= now < from + k * h.maxTtl * MICRO
    ensures Bucket(h, from) <= Bucket(h, now) <= Bucket(h, from) + k
  {
    BucketMonotone(h, from, now);
    BucketBounds(h, from);
    BucketBounds(h, now);
    var b, c, m := Bucket(h, from), Bucket(h, now), h.maxTtl;
    assert (b + 1) * m * MICRO + k * m * MICRO == (b + 1 + k) * m * MICRO;
    Cancel(c, b + 1 + k, m);
  }

  lemma Cancel(a: int, b: int, m: nat)
    requires a * m * MICRO < b * m * MICRO
    ensures a < b
  {
    if b <= a {
      Multiply(b, a, m);
    }
  }

  /** In any `k * maxTtl` seconds a Kubernetes pod mints at most `k + 1` credentials. */
  lemma PodMintRate(
      h: Host, clock: int, actions: seq<Action>, customer: string, node: string, from: int, k: nat)
    requires h.maxTtl > 0 && OneReading(Run(h, Start(clock), actions))
    ensures |PodMints(Run(h, Start(clock), actions), customer, node, from, from + k * h.maxTtl * MICRO)| <= k + 1
  {
    var s := Run(h, Start(clock), actions);
    var items := PodMints(s, customer, node, from, from + k * h.maxTtl * MICRO);
    var slot := (i: int) => if 0 <= i < |s.mints| then Bucket(h, s.mints[i].request.at) else 0;
    forall i | i in items ensures Bucket(h, from) <= slot(i) < Bucket(h, from) + k + 1 {
      BucketAdvance(h, from, k, s.mints[i].recordedAt);
    }
    forall i, j | i in items && j in items && slot(i) == slot(j) ensures i == j {
      OneMintPerUse(h, clock, actions, i, j);
    }
    Collections.PigeonHole(items, slot, Bucket(h, from), Bucket(h, from) + k + 1);
  }

  /** Two mints from one AWS document are at least the maximum lifetime apart, in whole seconds. */
  lemma AwsMintsApart(h: Host, clock: int, actions: seq<Action>, i: int, j: int)
    requires h.maxTtl > 0
    requires 0 <= i < j < |Run(h, Start(clock), actions).mints|
    requires var s := Run(h, Start(clock), actions);
      SameUse(h, s.mints[i].request, s.mints[j].request) && s.mints[i].request.doc.Aws?
    ensures var s := Run(h, Start(clock), actions);
      Seconds(s.mints[j].recordedAt) >= Seconds(s.mints[i].request.at) + h.maxTtl
  {
    RunKeepsInv(h, Start(clock), actions);
    var s := Run(h, Start(clock), actions);
    assert Faithful(h, s.mints[i].request) && Faithful(h, s.mints[j].request);
    assert Key(s.mints[i]) == Key(s.mints[j]);
  }

  // ---- What is not one-time ----

  /** One tenant's requests at `first` and `second`, with a prune before the latter. */
  function TwoRequests(customer: string, doc: Document, wait: nat): seq<Action> {
    [Check(0, customer, doc), Record(0, Minted), Tick(wait), PruneAll, Check(1, customer, doc), Record(1, Minted)]
  }

  function OneRequest(h: Host, s: State, customer: string, doc: Document, id: int): State
    requires h.maxTtl > 0
  {
    Step(h, Step(h, s, Check(id, customer, doc)), Record(id, Minted))
  }

  lemma RunTwo(h: Host, s: State, a: Action, b: Action, rest: seq<Action>)
    requires h.maxTtl > 0
    ensures Run(h, s, [a, b] + rest) == Run(h, Step(h, Step(h, s, a), b), rest)
  {
    var all := [a, b] + rest;
    assert all[1..] == [b] + rest;
    assert all[1..][1..] == rest;
  }

  lemma TwoRequestsRun(h: Host, s: State, customer: string, doc: Document, wait: nat)
    requires h.maxTtl > 0
    ensures Run(h, s, TwoRequests(customer, doc, wait))
         == OneRequest(h, Step(h, Step(h, OneRequest(h, s, customer, doc, 0), Tick(wait)), PruneAll), customer, doc, 1)
  {
    var a := TwoRequests(customer, doc, wait);
    assert a == [a[0], a[1]] + ([a[2], a[3]] + ([a[4], a[5]] + []));
    var s2 := OneRequest(h, s, customer, doc, 0);
    RunTwo(h, s, a[0], a[1], [a[2], a[3]] + ([a[4], a[5]] + []));
    RunTwo(h, s2, a[2], a[3], [a[4], a[5]] + []);
    RunTwo(h, Step(h, Step(h, s2, a[2]), a[3]), a[4], a[5], []);
  }

  /** A genuine AWS document mints again after exactly the maximum lifetime, once its record is pruned. */
  lemma AwsDocumentMintsAgain(h: Host, customer: string, doc: Document, clock: int, wait: nat)
    requires h.maxTtl > 0 && doc.Aws? && h.genuine(doc, clock) && h.genuine(doc, clock + wait)
    ensures |Run(h, Start(clock), TwoRequests(customer, doc, wait)).mints| == 2
        <==> Seconds(clock + wait) >= Seconds(clock) + h.maxTtl
  {
    TwoRequestsRun(h, Start(clock), customer, doc, wait);
    var use := Use(h.digest(AwsId(doc.account, doc.instance, doc.pendingTime)), Seconds(clock) + h.maxTtl);
    var s := OneRequest(h, Start(clock), customer, doc, 0);
    assert s.rows == map[(customer, use.jti) := use.expires] && |s.mints| == 1 && s.clock == clock;
    var t := Step(h, Step(h, s, Tick(wait)), PruneAll);
    assert (customer, use.jti) in t.rows <==> use.expires * MICRO > clock + wait;
    assert 1 !in t.verified;
  }

  /** Two credentials from one use: the same tenant and document and, for Kubernetes, the same bucket. */
  predicate MintsTwice(h: Host, s: State, customer: string, doc: Document)
    requires h.maxTtl > 0
  {
    && |s.mints| == 2 && SameUse(h, s.mints[0].request, s.mints[1].request)
    && s.mints[0].request.customer == customer && s.mints[0].request.doc == doc
  }

  lemma ExpiryIsAhead(h: Host, doc: Document, clock: int)
    requires h.maxTtl > 0 && Verify(h, doc, clock).Some?
    ensures clock < Verify(h, doc, clock).value.expires * MICRO
  {
    assert clock < (Seconds(clock) + 1) * MICRO;
    Scale(Seconds(clock) + 1, Seconds(clock) + h.maxTtl);
  }

  /**
   * Without one clock reading per request any evidence that verifies at some time, of whatever kind, can
   * mint twice from one use: a second request that verified it then records its use after the first
   * record has expired and been pruned.
   */
  lemma SlowRequestMintsTwice(h: Host, customer: string, doc: Document, clock: int)
    requires h.maxTtl > 0 && Verify(h, doc, clock).Some?
    ensures exists actions :: MintsTwice(h, Run(h, Start(clock), actions), customer, doc)
  {
    var use := Verify(h, doc, clock).value;
    var late := use.expires * MICRO;
    ExpiryIsAhead(h, doc, clock);
    var a := [Check(0, customer, doc), Check(1, customer, doc), Record(0, Minted),
              Tick(late - clock), PruneAll, Record(1, Minted)];
    assert a == [a[0], a[1]] + ([a[2], a[3]] + ([a[4], a[5]] + []));
    var v := Pending(customer, doc, use, clock);
    var key := (customer, use.jti);
    var s2 := State(map[], clock, map[0 := v, 1 := v], []);
    var s4 := State(map[key := use.expires], late, map[1 := v], [Mint(v, clock)]);
    var s6 := State(map[key := use.expires], late, map[], [Mint(v, clock), Mint(v, late)]);
    RunTwo(h, Start(clock), a[0], a[1], [a[2], a[3]] + ([a[4], a[5]] + []));
    RunTwo(h, s2, a[2], a[3], [a[4], a[5]] + []);
    RunTwo(h, s4, a[4], a[5], []);
    assert Step(h, Step(h, Start(clock), a[0]), a[1]) == s2 by {
      assert Step(h, Start(clock), a[0]) == s2.(verified := map[0 := v]);
    }
    assert Step(h, Step(h, s2, a[2]), a[3]) == s4 by {
      assert s2.verified - {0} == map[1 := v];
    }
    assert Step(h, Step(h, s4, a[4]), a[5]) == s6 by {
      assert Step(h, s4, a[4]) == s4.(rows := map[]);
      assert s4.verified - {1} == map[];
    }
    assert MintsTwice(h, Run(h, Start(clock), a), customer, doc);
  }
}
