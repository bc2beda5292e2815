/** The table of a service's signing keys, and the operations that fetch and rotate the active one. */
module KeyTable {
  import opened Text

  /** The algorithm that the service signs with, or one it used to. */
  datatype Algorithm = Required | Other

  datatype Status = Active | Retired(at: int)

  datatype Key = Key(customer: string, algorithm: Algorithm, status: Status, createdAt: int)

  type Table = map<string, Key>

  predicate IsActive(t: Table, customer: string, kid: string) {
    kid in t && t[kid].customer == customer && t[kid].status.Active?
  }

  function ActiveKeys(t: Table, customer: string): set<string> {
    set kid | kid in t && t[kid].customer == customer && t[kid].status.Active?
  }

  /** A tenant's newest active key of the required algorithm. */
  predicate Newest(t: Table, customer: string, kid: string) {
    && IsActive(t, customer, kid) && t[kid].algorithm == Required
    && forall k :: k in t && IsActive(t, customer, k) && t[k].algorithm == Required ==>
         t[k].createdAt <= t[kid].createdAt
  }

  predicate AnyUsable(t: Table, customer: string) {
    exists k :: k in t && IsActive(t, customer, k) && t[k].algorithm == Required
  }

  function RetireAll(t: Table, kids: set<string>, now: int): Table {
    map kid | kid in t :: if kid in kids then t[kid].(status := Retired(now)) else t[kid]
  }

  /** Every active key of the tenant but `keep` is retired with the stamp `now`. */
  function Displaced(t: Table, customer: string, keep: Option<string>, now: int): Table {
    RetireAll(t, Others(ActiveKeys(t, customer), keep), now)
  }

  function Others(kids: set<string>, keep: Option<string>): set<string> {
    set kid | kid in kids && Some(kid) != keep
  }

  /** Exactly one key is active for the tenant, and it has the required algorithm. */
  predicate OneActive(t: Table, customer: string) {
    exists kid :: kid in t && ActiveKeys(t, customer) == {kid} && t[kid].algorithm == Required
  }

  /** What `get_active_key` leaves behind when it returns `kid`; `newKid` is the id drawn if none is usable. */
  predicate Got(t: Table, customer: string, now: int, newKid: string, kid: string, u: Table) {
    if AnyUsable(t, customer) then Newest(t, customer, kid) && u == Displaced(t, customer, Some(kid), now)
    else kid == newKid && u == Displaced(t, customer, None, now)[newKid := Key(customer, Required, Active, now)]
  }

  /** What `rotate_key` leaves behind after it found `current`. */
  predicate Rotated(t: Table, customer: string, now: int, newKid: string, current: Option<string>, u: Table) {
    && (if current.Some? then IsActive(t, customer, current.value) else ActiveKeys(t, customer) == {})
    && u == (if current.Some? then t[current.value := t[current.value].(status := Retired(now))] else t)
              [newKid := Key(customer, Required, Active, now)]
  }

  /** What `rotate_ca` leaves behind: a new certificate authority only if no other was active. */
  predicate CaRotated(t: Table, customer: string, now: int, newKid: string, current: Option<string>, u: Table) {
    && (if current.Some? then IsActive(t, customer, current.value) else ActiveKeys(t, customer) == {})
    && var v := if current.Some? then t[current.value := t[current.value].(status := Retired(now))] else t;
       u == if ActiveKeys(v, customer) == {} then v[newKid := Key(customer, Required, Active, now)] else v
  }

  lemma {:induction false} SomeNewest(t: Table, kids: set<string>)
    requires kids != {} && kids <= t.Keys
    ensures exists k :: k in kids && forall l :: l in kids ==> t[l].createdAt <= t[k].createdAt
  {
    var any :| any in kids;
    if kids != {any} {
      SomeNewest(t, kids - {any});
      var k :| k in kids - {any} && forall l :: l in kids - {any} ==> t[l].createdAt <= t[k].createdAt;
      var best := if t[any].createdAt <= t[k].createdAt then k else any;
      assert forall l :: l in kids ==> l == any || l in kids - {any};
      assert best in kids && forall l :: l in kids ==> t[l].createdAt <= t[best].createdAt;
    }
  }

  /** The first usable key in the list is the newest. */
  lemma FirstIsNewest(t: Table, customer: string, kids: seq<string>, i: nat)
    requires i < |kids| && Ordered(t, kids) && (forall k :: k in kids <==> IsActive(t, customer, k))
    requires t[kids[i]].algorithm == Required && forall j :: 0 <= j < i ==> t[kids[j]].algorithm != Required
    ensures Newest(t, customer, kids[i])
  {
    forall k | k in t && IsActive(t, customer, k) && t[k].algorithm == Required
      ensures t[k].createdAt <= t[kids[i]].createdAt
    {
      assert k in kids;
      var j :| 0 <= j < |kids| && kids[j] == k;
      assert j == i || i < j;
    }
  }

  lemma NoneUsable(t: Table, customer: string, kids: seq<string>, key: Option<string>)
    requires Ordered(t, kids) && (forall k :: k in kids <==> IsActive(t, customer, k))
    requires key.None? ==> forall j :: 0 <= j < |kids| ==> t[kids[j]].algorithm != Required
    requires key.Some? ==> Newest(t, customer, key.value)
    ensures key.None? <==> !AnyUsable(t, customer)
  {
    if k :| k in t && IsActive(t, customer, k) && t[k].algorithm == Required {
      assert k in kids;
    }
  }

  function Members(kids: seq<string>): set<string> {
    set k | k in kids
  }

  /** Retiring one more key of a list, unless it is the one to keep. */
  lemma RetireStep(t: Table, kids: seq<string>, j: nat, keep: Option<string>, now: int)
    requires j < |kids| && kids[j] in t
    ensures var u := RetireAll(t, Others(Members(kids[..j]), keep), now);
      RetireAll(t, Others(Members(kids[..j + 1]), keep), now)
      == if Some(kids[j]) == keep then u else u[kids[j] := u[kids[j]].(status := Retired(now))]
  {
    assert Members(kids[..j + 1]) == Members(kids[..j]) + {kids[j]};
  }

  /** Newest first. */
  predicate Ordered(t: Table, kids: seq<string>) {
    && (forall k :: k in kids ==> k in t)
    && (forall i, j :: 0 <= i < j < |kids| ==> t[kids[i]].createdAt >= t[kids[j]].createdAt)
  }

  class KeyStore {
    var rows: Table

    constructor (rows: Table)
      ensures this.rows == rows
    {
      this.rows := rows;
    }

    /** The query for a tenant's active keys, newest first. */
    method SelectActive(customer: string) returns (kids: seq<string>)
      ensures (forall k :: k in kids <==> IsActive(rows, customer, k)) && Ordered(rows, kids)
    {
      kids := [];
      var rest := ActiveKeys(rows, customer);
      while rest != {}
        invariant rest <= ActiveKeys(rows, customer)
        invariant forall k :: k in kids || k in rest <==> IsActive(rows, customer, k)
        invariant Ordered(rows, kids)
        invariant forall k, l :: k in kids && l in rest ==> rows[l].createdAt <= rows[k].createdAt
        decreases |rest|
      {
        SomeNewest(rows, rest);
        var k :| k in rest && forall l :: l in rest ==> rows[l].createdAt <= rows[k].createdAt;
        kids := kids + [k];
        rest := rest - {k};
      }
    }

    method CreateSigningKey(customer: string, newKid: string, now: int)
      requires newKid !in rows
      modifies this
      ensures rows == old(rows)[newKid := Key(customer, Required, Active, now)]
    {
      rows := rows[newKid := Key(customer, Required, Active, now)];
    }

    method FirstUsable(customer: string, active: seq<string>) returns (key: Option<string>)
      requires (forall k :: k in active <==> IsActive(rows, customer, k)) && Ordered(rows, active)
      ensures key.None? <==> !AnyUsable(rows, customer)
      ensures key.Some? ==> Newest(rows, customer, key.value)
    {
      key := None;
      var i := 0;
      while i < |active| && key.None?
        invariant 0 <= i <= |active|
        invariant key.None? ==> forall j :: 0 <= j < i ==> rows[active[j]].algorithm != Required
        invariant key.Some? ==> Newest(rows, customer, key.value)
      {
        if rows[active[i]].algorithm == Required {
          FirstIsNewest(rows, customer, active, i);
          key := Some(active[i]);
        }
        i := i + 1;
      }
      NoneUsable(rows, customer, active, key);
    }

    method RetireStale(active: seq<string>, key: Option<string>, now: int)
      requires forall k :: k in active ==> k in rows && (key.None? ==> rows[k].algorithm != Required)
      requires key.Some? && key.value in rows ==> rows[key.value].algorithm == Required
      modifies this
      ensures rows == RetireAll(old(rows), Others(Members(active), key), now)
    {
      ghost var before := rows;
      for j := 0 to |active|
        invariant rows == RetireAll(before, Others(Members(active[..j]), key), now)
      {
        var stale := active[j];
        RetireStep(before, active, j, key, now);
        if rows[stale].algorithm != Required || (key.Some? && stale != key.value) {
          rows := rows[stale := rows[stale].(status := Retired(now))];
        }
      }
      assert active[..|active|] == active;
    }

    method GetActiveKey(customer: string, now: int, newKid: string) returns (kid: string)
      requires newKid !in rows
      modifies this
      ensures Got(old(rows), customer, now, newKid, kid, rows)
    {
      var active := SelectActive(customer);
      var key := FirstUsable(customer, active);
      assert Members(active) == ActiveKeys(rows, customer);
      RetireStale(active, key, now);
      if key.None? {
        CreateSigningKey(customer, newKid, now);
        return newKid;
      }
      return key.value;
    }

    /** `rotate_key` and `rotate_root_key`: whichever active key the query yields is retired. */
    method RotateKey(customer: string, now: int, newKid: string) returns (current: Option<string>)
      requires newKid !in rows
      modifies this
      ensures Rotated(old(rows), customer, now, newKid, current, rows)
    {
      current := None;
      if kid :| kid in rows && rows[kid].customer == customer && rows[kid].status.Active? {
        current := Some(kid);
        rows := rows[kid := rows[kid].(status := Retired(now))];
      }
      CreateSigningKey(customer, newKid, now);
    }

    /** `rotate_ca`, for a table of certificate authorities. */
    method RotateCa(customer: string, now: int, newKid: string) returns (current: Option<string>)
      requires newKid !in rows
      modifies this
      ensures CaRotated(old(rows), customer, now, newKid, current, rows)
    {
      current := None;
      if kid :| kid in rows && rows[kid].customer == customer && rows[kid].status.Active? {
        current := Some(kid);
        rows := rows[kid := rows[kid].(status := Retired(now))];
      }
      if ActiveKeys(rows, customer) == {} {
        CreateSigningKey(customer, newKid, now);
      }
    }
  }

  // ---- What the operations establish and keep ----

  /** What an operation does not touch: other tenants' rows and what is already retired, stamp included. */
  predicate Untouched(t: Table, u: Table, customer: string) {
    forall k :: k in t && !IsActive(t, customer, k) ==> k in u && u[k] == t[k]
  }

  /** Every key that was active and no longer is was retired with this stamp. */
  predicate RetiredAt(t: Table, u: Table, customer: string, now: int) {
    forall k :: k in t && IsActive(t, customer, k) ==>
      k in u && (u[k] == t[k] || u[k] == t[k].(status := Retired(now)))
  }

  /**
   * From any table whatsoever, fetching the active key leaves exactly one, of the required algorithm:
   * the newest usable one or else a new one. All others are retired and stamped, and nothing else changes.
   */
  lemma GetLeavesOne(t: Table, customer: string, now: int, newKid: string, kid: string, u: Table)
    requires newKid !in t && Got(t, customer, now, newKid, kid, u)
    ensures ActiveKeys(u, customer) == {kid} && u[kid].algorithm == Required
    ensures Untouched(t, u, customer) && RetiredAt(t, u, customer, now)
    ensures u.Keys == if AnyUsable(t, customer) then t.Keys else t.Keys + {newKid}
    ensures AnyUsable(t, customer) ==> u[kid] == t[kid]
    ensures forall k :: k in ActiveKeys(t, customer) && t[k].algorithm == Required ==>
      kid in t && t[k].createdAt <= t[kid].createdAt
    ensures kid !in t ==> u[kid] == Key(customer, Required, Active, now)
  {
    if AnyUsable(t, customer) {
      assert ActiveKeys(u, customer) == {kid};
    } else {
      assert ActiveKeys(u, customer) == {newKid};
    }
  }

  /** Rotating replaces one active key by a new one; starting from exactly one, exactly one remains. */
  lemma RotateReplacesOne(t: Table, customer: string, now: int, newKid: string, current: Option<string>, u: Table)
    requires newKid !in t && Rotated(t, customer, now, newKid, current, u)
    ensures ActiveKeys(u, customer)
         == (if current.Some? then ActiveKeys(t, customer) - {current.value} else {}) + {newKid}
    ensures Untouched(t, u, customer) && RetiredAt(t, u, customer, now)
    ensures u.Keys == t.Keys + {newKid}
    ensures OneActive(t, customer) ==> ActiveKeys(u, customer) == {newKid} && u[newKid].algorithm == Required
  {
    if OneActive(t, customer) {
      var kid :| kid in t && ActiveKeys(t, customer) == {kid} && t[kid].algorithm == Required;
      assert kid in ActiveKeys(t, customer);
      assert current.Some? ==> current.value in ActiveKeys(t, customer);
    }
  }

  /** Unlike a key rotation, a rotation of authorities adds nothing while another one is active. */
  lemma CaRotationDrainsFirst(t: Table, customer: string, now: int, newKid: string, current: Option<string>, u: Table)
    requires newKid !in t && CaRotated(t, customer, now, newKid, current, u)
    ensures var rest := ActiveKeys(t, customer) - (if current.Some? then {current.value} else {});
      ActiveKeys(u, customer) == if rest == {} then {newKid} else rest
    ensures Untouched(t, u, customer) && RetiredAt(t, u, customer, now)
  {
    var v := if current.Some? then t[current.value := t[current.value].(status := Retired(now))] else t;
    assert ActiveKeys(v, customer) == ActiveKeys(t, customer) - (if current.Some? then {current.value} else {});
  }

  /** A rotation of one tenant's authorities: the clock, the id drawn for a new one, and the one found active. */
  datatype CaRotation = CaRotation(now: int, newKid: string, current: Option<string>)

  /** The tables that a sequence of such rotations passes through. */
  ghost predicate CaTrace(ts: seq<Table>, rotations: seq<CaRotation>, customer: string) {
    && |ts| == |rotations| + 1
    && forall i :: 0 <= i < |rotations| ==>
         && rotations[i].newKid !in ts[i]
         && CaRotated(ts[i], customer, rotations[i].now, rotations[i].newKid, rotations[i].current, ts[i + 1])
  }

  lemma OneCaRotation(t: Table, customer: string, r: CaRotation, u: Table)
    requires r.newKid !in t && CaRotated(t, customer, r.now, r.newKid, r.current, u)
    ensures |ActiveKeys(u, customer)| == if |ActiveKeys(t, customer)| > 2 then |ActiveKeys(t, customer)| - 1 else 1
    ensures r.newKid in u <==> |ActiveKeys(t, customer)| <= 1
  {
    CaRotationDrainsFirst(t, customer, r.now, r.newKid, r.current, u);
    var before := ActiveKeys(t, customer);
    if r.current.Some? {
      assert r.current.value in before;
      assert |before - {r.current.value}| == |before| - 1;
      assert before - {r.current.value} == {} <==> |before| == 1;
    }
    assert r.newKid !in before;
    assert r.newKid in u <==> r.newKid in ActiveKeys(u, customer);
  }

  /**
   * From `n` active authorities, `k` rotations leave one fewer each time down to one, and from then on
   * one. A rotation creates a new authority exactly when at most one was active.
   */
  lemma {:induction false} CaRotationsDrainToOne(
      ts: seq<Table>, rotations: seq<CaRotation>, customer: string, k: nat)
    requires CaTrace(ts, rotations, customer) && 0 < k <= |rotations|
    ensures var n := |ActiveKeys(ts[0], customer)|;
      |ActiveKeys(ts[k], customer)| == if n - k > 1 then n - k else 1
    ensures rotations[k - 1].newKid in ts[k] <==> |ActiveKeys(ts[k - 1], customer)| <= 1
  {
    OneCaRotation(ts[k - 1], customer, rotations[k - 1], ts[k]);
    if k > 1 {
      CaRotationsDrainToOne(ts, rotations, customer, k - 1);
    }
  }

  datatype Op = Get(customer: string, now: int, newKid: string) | Rotate(customer: string, now: int, newKid: string)

  predicate Takes(t: Table, op: Op, choice: Option<string>, u: Table) {
    && op.newKid !in t
    && match op
       case Get(customer, now, newKid) => choice.Some? && Got(t, customer, now, newKid, choice.value, u)
       case Rotate(customer, now, newKid) => Rotated(t, customer, now, newKid, choice, u)
  }

  /** The tables that a sequence of operations of any tenants passes through, with the key each picked. */
  ghost predicate Trace(ts: seq<Table>, ops: seq<Op>, choices: seq<Option<string>>) {
    && |ts| == |ops| + 1 && |choices| == |ops|
    && forall i :: 0 <= i < |ops| ==> Takes(ts[i], ops[i], choices[i], ts[i + 1])
  }

  lemma TakesKeepsOne(t: Table, op: Op, choice: Option<string>, u: Table, customer: string)
    requires Takes(t, op, choice, u)
    ensures op.customer == customer && op.Get? ==> OneActive(u, customer)
    ensures OneActive(t, customer) ==> OneActive(u, customer)
    ensures forall k :: k in t && t[k].status.Retired? ==> k in u && u[k] == t[k]
  {
    match op {
      case Get(c, now, newKid) =>
        GetLeavesOne(t, c, now, newKid, choice.value, u);
        assert choice.value in u by { assert choice.value in ActiveKeys(u, c); }
      case Rotate(c, now, newKid) =>
        RotateReplacesOne(t, c, now, newKid, choice, u);
    }
    if op.customer != customer {
      OthersKeepTheirs(t, u, op, choice, customer);
    }
  }

  lemma OthersKeepTheirs(t: Table, u: Table, op: Op, choice: Option<string>, customer: string)
    requires Takes(t, op, choice, u) && op.customer != customer
    ensures ActiveKeys(u, customer) == ActiveKeys(t, customer)
    ensures forall k :: k in ActiveKeys(t, customer) ==> k in u && u[k] == t[k]
  {
  }

  /**
   * Once a tenant's active key has been fetched, any sequence of fetches and rotations by any tenants
   * keeps exactly one active key for it, and what is retired keeps its row and stamp for ever.
   */
  lemma {:induction false} OneActiveForEver(
      ts: seq<Table>, ops: seq<Op>, choices: seq<Option<string>>, customer: string, i: nat, j: nat)
    requires Trace(ts, ops, choices) && i < j < |ts|
    requires OneActive(ts[i], customer) || (ops[i].Get? && ops[i].customer == customer)
    ensures OneActive(ts[j], customer)
    ensures forall k :: k in ts[i] && ts[i][k].status.Retired? ==> k in ts[j] && ts[j][k] == ts[i][k]
    decreases j - i
  {
    TakesKeepsOne(ts[j - 1], ops[j - 1], choices[j - 1], ts[j], customer);
    if i < j - 1 {
      OneActiveForEver(ts, ops, choices, customer, i, j - 1);
    }
  }
}
