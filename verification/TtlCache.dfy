/** The bounded cache with expiry, least recently used entry first. */
module TtlCache {
  import opened Text
  import opened Collections

  datatype Entry<K, V> = Entry(key: K, expires: real, value: V)

  /** Entries from the least to the most recently used. */
  type Store<K, V> = seq<Entry<K, V>>

  function Lookup<K(==), V>(s: Store<K, V>, key: K): Option<Entry<K, V>> {
    if s == [] then None else if s[0].key == key then Some(s[0]) else Lookup(s[1..], key)
  }

  function Without<K(==), V>(s: Store<K, V>, key: K): Store<K, V> {
    if s == [] then [] else (if s[0].key == key then [] else [s[0]]) + Without(s[1..], key)
  }

  /** The `n` most recently used entries. */
  function Newest<K, V>(s: Store<K, V>, n: nat): Store<K, V> {
    if |s| <= n then s else s[|s| - n..]
  }

  lemma DropOldest<K, V>(s: Store<K, V>, n: nat)
    requires |s| > n
    ensures Newest(s[1..], n) == Newest(s, n)
  {
    if |s| > n + 1 {
      var k := |s| - 1 - n;
      assert s[1..][k..] == s[k + 1..];
    }
  }

  datatype Config = Config(maxSize: nat, ttl: real)

  /** The result and the store after `get`. */
  function Got<K(==), V>(c: Config, s: Store<K, V>, key: K, now: real): (Option<V>, Store<K, V>) {
    if c.ttl <= 0.0 then (None, s)
    else match Lookup(s, key)
      case None => (None, s)
      case Some(e) =>
        if e.expires <= now then (None, Without(s, key)) else (Some(e.value), Without(s, key) + [e])
  }

  /** The store after `set`. */
  function Put<K(==), V>(c: Config, s: Store<K, V>, key: K, value: V, now: real): Store<K, V> {
    if c.ttl <= 0.0 then s else Newest(Without(s, key) + [Entry(key, now + c.ttl, value)], c.maxSize)
  }

  class TTLCache<K(==), V> {
    const config: Config
    var store: Store<K, V>

    constructor (maxSize: int, ttl: real)
      ensures store == [] && config == Config(if maxSize > 1 then maxSize else 1, ttl)
    {
      config := Config(if maxSize > 1 then maxSize else 1, ttl);
      store := [];
    }

    method Get(key: K, now: real) returns (value: Option<V>)
      modifies this
      ensures (value, store) == Got(config, old(store), key, now)
    {
      if config.ttl <= 0.0 {
        return None;
      }
      var entry := Lookup(store, key);
      if entry.None? {
        return None;
      }
      store := Without(store, key);
      if entry.value.expires <= now {
        return None;
      }
      store := store + [entry.value];
      return Some(entry.value.value);
    }

    method Set(key: K, value: V, now: real)
      modifies this
      ensures store == Put(config, old(store), key, value, now)
    {
      if config.ttl <= 0.0 {
        return;
      }
      store := Without(store, key) + [Entry(key, now + config.ttl, value)];
      ghost var full := store;
      while |store| > config.maxSize
        invariant Newest(store, config.maxSize) == Newest(full, config.maxSize)
      {
        DropOldest(store, config.maxSize);
        store := store[1..];
      }
    }

    method Invalidate(key: K)
      modifies this
      ensures store == Without(old(store), key)
    {
      store := Without(store, key);
    }

    method Clear()
      modifies this
      ensures store == []
    {
      store := [];
    }
  }

  // ---- Runs ----

  datatype Op<K, V> =
    | GetOp(key: K, now: real)
    | SetOp(key: K, value: V, now: real)
    | InvalidateOp(key: K)
    | ClearOp

  function Step<K(==), V>(c: Config, s: Store<K, V>, op: Op<K, V>): Store<K, V> {
    match op
    case GetOp(key, now) => Got(c, s, key, now).1
    case SetOp(key, value, now) => Put(c, s, key, value, now)
    case InvalidateOp(key) => Without(s, key)
    case ClearOp => []
  }

  function Init<T>(s: seq<T>): seq<T>
    requires s != []
  {
    s[..|s| - 1]
  }

  function Last<T>(s: seq<T>): T
    requires s != []
  {
    s[|s| - 1]
  }

  function Run<K(==), V>(c: Config, ops: seq<Op<K, V>>): Store<K, V> {
    if ops == [] then [] else Step(c, Run(c, Init(ops)), Last(ops))
  }

  /** The value and time of the latest `set` of a key that no later `invalidate` or `clear` undid. */
  function Latest<K(==), V>(ops: seq<Op<K, V>>, key: K): Option<(V, real)> {
    if ops == [] then None
    else match Last(ops)
      case GetOp(_, _) => Latest(Init(ops), key)
      case SetOp(k, value, now) => if k == key then Some((value, now)) else Latest(Init(ops), key)
      case InvalidateOp(k) => if k == key then None else Latest(Init(ops), key)
      case ClearOp => None
  }

  /** The other keys used since `key` was last used. */
  function UsedSince<K(==), V>(ops: seq<Op<K, V>>, key: K): set<K> {
    if ops == [] then {}
    else match Last(ops)
      case GetOp(k, _) => if k == key then {} else UsedSince(Init(ops), key) + {k}
      case SetOp(k, _, _) => if k == key then {} else UsedSince(Init(ops), key) + {k}
      case InvalidateOp(_) => UsedSince(Init(ops), key)
      case ClearOp => UsedSince(Init(ops), key)
  }

  /** Ever since its latest `set`, `key` has been among the `maxSize` most recently used keys. */
  predicate Recent<K(==), V>(c: Config, ops: seq<Op<K, V>>, key: K) {
    ops != [] ==>
      || (Last(ops).SetOp? && Last(ops).key == key)
      || (Recent(c, Init(ops), key) && |UsedSince(ops, key)| < c.maxSize)
  }

  /** No clock reading is later than `now`. */
  predicate UpTo<K, V>(ops: seq<Op<K, V>>, now: real) {
    forall i :: 0 <= i < |ops| && (ops[i].GetOp? || ops[i].SetOp?) ==> ops[i].now <= now
  }

  // ---- Stores ----

  function Keys<K(==), V>(s: Store<K, V>): set<K> {
    if s == [] then {} else {s[0].key} + Keys(s[1..])
  }

  predicate Distinct<K(==), V>(s: Store<K, V>) {
    s != [] ==> s[0].key !in Keys(s[1..]) && Distinct(s[1..])
  }

  lemma {:induction false} WithoutKeys<K, V>(s: Store<K, V>, key: K)
    ensures Keys(Without(s, key)) == Keys(s) - {key}
    ensures Distinct(s) ==> Distinct(Without(s, key))
    ensures |Without(s, key)| <= |s| && (key in Keys(s) ==> |Without(s, key)| < |s|)
  {
    if s != [] {
      WithoutKeys(s[1..], key);
      if s[0].key != key {
        assert Without(s, key)[1..] == Without(s[1..], key);
      } else {
        assert Without(s, key) == Without(s[1..], key);
      }
    }
  }

  lemma {:induction false} WithoutMembers<K, V>(s: Store<K, V>, key: K, e: Entry<K, V>)
    ensures e in Without(s, key) <==> e in s && e.key != key
  {
    if s != [] {
      WithoutMembers(s[1..], key, e);
      HeadOrTail(s, e);
      if s[0].key != key {
        HeadOrTail(Without(s, key), e);
        assert Without(s, key)[1..] == Without(s[1..], key);
      } else {
        assert Without(s, key) == Without(s[1..], key);
      }
    }
  }

  lemma Regroup<T>(a: seq<T>, b: seq<T>, c: seq<T>)
    ensures a + (b + c) == (a + b) + c
  {
  }

  lemma {:induction false} WithoutConcat<K, V>(a: Store<K, V>, b: Store<K, V>, key: K)
    ensures Without(a + b, key) == Without(a, key) + Without(b, key)
  {
    if a == [] {
      assert a + b == b;
    } else {
      WithoutConcat(a[1..], b, key);
      assert (a + b)[0] == a[0] && (a + b)[1..] == a[1..] + b;
      Regroup(if a[0].key == key then [] else [a[0]], Without(a[1..], key), Without(b, key));
    }
  }

  lemma {:induction false} KeysConcat<K, V>(a: Store<K, V>, b: Store<K, V>)
    ensures Keys(a + b) == Keys(a) + Keys(b)
    ensures Distinct(a + b) <==> Distinct(a) && Distinct(b) && Keys(a) !! Keys(b)
  {
    if a == [] {
      assert a + b == b;
    } else {
      KeysConcat(a[1..], b);
      assert (a + b)[1..] == a[1..] + b;
    }
  }

  lemma KeysOne<K, V>(e: Entry<K, V>)
    ensures Keys([e]) == {e.key} && Distinct([e])
  {
    assert [e][1..] == [];
  }

  lemma {:induction false} LookupKeys<K, V>(s: Store<K, V>, key: K)
    ensures Lookup(s, key).Some? <==> key in Keys(s)
    ensures Lookup(s, key).Some? ==> Lookup(s, key).value in s && Lookup(s, key).value.key == key
  {
    if s != [] {
      LookupKeys(s[1..], key);
    }
  }

  lemma {:induction false} MemberKeys<K, V>(s: Store<K, V>, e: Entry<K, V>)
    requires e in s
    ensures e.key in Keys(s)
    ensures Distinct(s) ==> Lookup(s, e.key) == Some(e)
  {
    HeadOrTail(s, e);
    if e != s[0] || e in s[1..] {
      MemberKeys(s[1..], e);
    }
  }

  lemma AppendDistinct<K, V>(s: Store<K, V>, e: Entry<K, V>)
    requires Distinct(s)
    ensures Distinct(Without(s, e.key) + [e])
  {
    WithoutKeys(s, e.key);
    KeysOne(e);
    KeysConcat(Without(s, e.key), [e]);
  }

  lemma NewestDistinct<K, V>(s: Store<K, V>, n: nat)
    requires Distinct(s)
    ensures Distinct(Newest(s, n)) && |Newest(s, n)| <= n
  {
    if |s| > n {
      assert s == s[..|s| - n] + s[|s| - n..];
      KeysConcat(s[..|s| - n], s[|s| - n..]);
    }
  }

  // ---- What a hit means ----

  /** `e` is the latest value set for its key, with the expiry that goes with it. */
  ghost predicate Current<K, V>(c: Config, ops: seq<Op<K, V>>, e: Entry<K, V>) {
    Latest(ops, e.key).Some? && e == Entry(e.key, Latest(ops, e.key).value.1 + c.ttl, Latest(ops, e.key).value.0)
  }

  ghost predicate AllCurrent<K, V>(c: Config, ops: seq<Op<K, V>>, s: Store<K, V>) {
    forall e :: e in s ==> Current(c, ops, e)
  }

  predicate Bounded<K(==), V>(c: Config, s: Store<K, V>) {
    |s| <= c.maxSize && Distinct(s) && (c.ttl <= 0.0 ==> s == [])
  }

  lemma StepBounded<K, V>(c: Config, s: Store<K, V>, op: Op<K, V>)
    requires Bounded(c, s)
    ensures Bounded(c, Step(c, s, op))
  {
    match op {
      case GetOp(key, now) =>
        WithoutKeys(s, key);
        LookupKeys(s, key);
        if Lookup(s, key).Some? {
          AppendDistinct(s, Lookup(s, key).value);
        }
      case SetOp(key, value, now) =>
        AppendDistinct(s, Entry(key, now + c.ttl, value));
        NewestDistinct(Without(s, key) + [Entry(key, now + c.ttl, value)], c.maxSize);
      case InvalidateOp(key) =>
        WithoutKeys(s, key);
      case ClearOp =>
    }
  }

  /** Every entry after a step is the one just set or was there before; no entry of the set key remains. */
  lemma StepMembers<K, V>(c: Config, s: Store<K, V>, op: Op<K, V>, e: Entry<K, V>)
    requires e in Step(c, s, op)
    ensures c.ttl > 0.0 && op.SetOp? && e.key == op.key ==> e == Entry(op.key, op.now + c.ttl, op.value)
    ensures (c.ttl > 0.0 && op.SetOp? && e.key == op.key) || e in s
    ensures op.InvalidateOp? ==> e.key != op.key
    ensures !op.ClearOp?
  {
    match op {
      case GetOp(key, now) =>
        LookupKeys(s, key);
        WithoutMembers(s, key, e);
      case SetOp(key, value, now) =>
        WithoutMembers(s, key, e);
      case InvalidateOp(key) =>
        WithoutMembers(s, key, e);
      case ClearOp =>
    }
  }

  lemma {:induction false} RunSound<K, V>(c: Config, ops: seq<Op<K, V>>)
    ensures Bounded(c, Run(c, ops)) && AllCurrent(c, ops, Run(c, ops))
  {
    if ops != [] {
      RunSound(c, Init(ops));
      var s := Run(c, Init(ops));
      StepBounded(c, s, Last(ops));
      forall e | e in Run(c, ops) ensures Current(c, ops, e) {
        StepMembers(c, s, Last(ops), e);
      }
    }
  }

  /**
   * In any run the store never exceeds its bound, and a hit is the value of the latest `set` of the
   * key, made less than `ttl` ago with no later `invalidate` or `clear`.
   */
  lemma HitIsLatestLiveSet<K, V>(c: Config, ops: seq<Op<K, V>>, key: K, now: real)
    ensures |Run(c, ops)| <= c.maxSize
    ensures var r := Got(c, Run(c, ops), key, now).0; r.Some? ==>
      && Latest(ops, key).Some? && r.value == Latest(ops, key).value.0
      && now < Latest(ops, key).value.1 + c.ttl
  {
    RunSound(c, ops);
    LookupKeys(Run(c, ops), key);
  }

  // ---- When a hit is certain ----

  predicate BehindAt<K(==), V(==)>(s: Store<K, V>, e: Entry<K, V>, since: set<K>, i: int) {
    0 <= i < |s| && s[i] == e && Keys(s[i + 1..]) <= since
  }

  /** `e` is stored and only keys in `since` are more recently used. */
  ghost predicate Behind<K, V>(s: Store<K, V>, e: Entry<K, V>, since: set<K>) {
    exists i :: BehindAt(s, e, since, i)
  }

  lemma BehindParts<K, V>(a: Store<K, V>, e: Entry<K, V>, b: Store<K, V>, since: set<K>)
    requires Keys(b) <= since
    ensures Behind(a + [e] + b, e, since)
  {
    var s := a + [e] + b;
    assert s[|a|] == e && s[|a| + 1..] == b;
    assert BehindAt(s, e, since, |a|);
  }

  /** The less and the more recently used entries around `e`. */
  lemma Parts<K, V>(s: Store<K, V>, e: Entry<K, V>, since: set<K>) returns (a: Store<K, V>, b: Store<K, V>)
    requires Behind(s, e, since)
    ensures s == a + [e] + b && Keys(b) <= since
  {
    var i :| BehindAt(s, e, since, i);
    a, b := s[..i], s[i + 1..];
  }

  lemma {:induction false} NoMoreThanKeys<K, V>(s: Store<K, V>, keys: set<K>)
    requires Distinct(s) && Keys(s) <= keys
    ensures |s| <= |keys|
  {
    if s != [] {
      NoMoreThanKeys(s[1..], keys - {s[0].key});
    }
  }

  lemma MoveOther<K, V>(s: Store<K, V>, e: Entry<K, V>, since: set<K>, f: Entry<K, V>)
    requires Behind(s, e, since) && f.key != e.key
    ensures Behind(Without(s, f.key), e, since)
    ensures Behind(Without(s, f.key) + [f], e, since + {f.key})
  {
    var a, b := Parts(s, e, since);
    var x, y := Without(a, f.key), Without(b, f.key);
    WithoutConcat(a + [e], b, f.key);
    WithoutConcat(a, [e], f.key);
    assert Without([e], f.key) == [e] by { assert [e][1..] == []; }
    assert Without(s, f.key) == x + [e] + y;
    WithoutKeys(b, f.key);
    KeysConcat(y, [f]);
    KeysOne(f);
    assert x + [e] + y + [f] == x + [e] + (y + [f]);
    BehindParts(x, e, y, since);
    BehindParts(x, e, y + [f], since + {f.key});
  }

  lemma MoveSelf<K, V>(s: Store<K, V>, e: Entry<K, V>, since: set<K>)
    ensures Behind(s + [e], e, since)
  {
    assert s + [e] == s + [e] + [];
    BehindParts(s, e, [], since);
  }

  lemma DropFront<T>(x: seq<T>, y: seq<T>, k: nat)
    requires k <= |x|
    ensures (x + y)[k..] == x[k..] + y
  {
  }

  /** Keeping the newest keeps `e` and what is behind it. */
  lemma KeepBack<K, V>(a: Store<K, V>, e: Entry<K, V>, b: Store<K, V>, n: nat) returns (kept: Store<K, V>)
    requires |b| < n
    ensures Newest(a + [e] + b, n) == kept + [e] + b
  {
    var s := a + [e] + b;
    kept := a;
    if |s| > n {
      kept := a[|s| - n..];
      DropFront(a + [e], b, |s| - n);
      DropFront(a, [e], |s| - n);
    }
  }

  lemma FewBehind<K, V>(a: Store<K, V>, e: Entry<K, V>, b: Store<K, V>, since: set<K>)
    requires Distinct(a + [e] + b) && Keys(b) <= since
    ensures |b| <= |since|
  {
    KeysConcat(a + [e], b);
    NoMoreThanKeys(b, since);
  }

  lemma TrimParts<K, V>(a: Store<K, V>, e: Entry<K, V>, b: Store<K, V>, since: set<K>, n: nat)
    requires |b| < n && Keys(b) <= since
    ensures Behind(Newest(a + [e] + b, n), e, since)
  {
    var kept := KeepBack(a, e, b, n);
    BehindParts(kept, e, b, since);
  }

  lemma TrimKeeps<K, V>(s: Store<K, V>, e: Entry<K, V>, since: set<K>, n: nat)
    requires Distinct(s) && Behind(s, e, since) && |since| < n
    ensures Behind(Newest(s, n), e, since)
  {
    var a, b := Parts(s, e, since);
    FewBehind(a, e, b, since);
    TrimParts(a, e, b, since, n);
  }

  /** The entry that a live, recent key must have. */
  ghost predicate Stored<K, V>(c: Config, ops: seq<Op<K, V>>, s: Store<K, V>, key: K) {
    Latest(ops, key).Some? &&
    Behind(s, Entry(key, Latest(ops, key).value.1 + c.ttl, Latest(ops, key).value.0), UsedSince(ops, key))
  }

  lemma StepStored<K, V>(c: Config, ops: seq<Op<K, V>>, s: Store<K, V>, key: K, now: real)
    requires c.ttl > 0.0 && c.maxSize >= 1 && ops != [] && UpTo(ops, now)
    requires Bounded(c, s) && Stored(c, Init(ops), s, key) && Recent(c, ops, key)
    requires Latest(ops, key).Some? && now < Latest(ops, key).value.1 + c.ttl
    requires !(Last(ops).SetOp? && Last(ops).key == key)
    ensures Stored(c, ops, Step(c, s, Last(ops)), key)
  {
    var e := Entry(key, Latest(ops, key).value.1 + c.ttl, Latest(ops, key).value.0);
    var since := UsedSince(Init(ops), key);
    match Last(ops) {
      case GetOp(k, t) =>
        GetKeeps(c, s, e, since, k, t);
      case SetOp(k, v, t) =>
        SetKeeps(c, s, e, since, k, v, t);
      case InvalidateOp(k) =>
        MoveOther(s, e, since, Entry(k, 0.0, e.value));
      case ClearOp =>
    }
  }

  lemma GetKeeps<K, V>(c: Config, s: Store<K, V>, e: Entry<K, V>, since: set<K>, k: K, t: real)
    requires c.ttl > 0.0 && Distinct(s) && Behind(s, e, since) && t < e.expires
    ensures Behind(Got(c, s, k, t).1, e, if k == e.key then {} else since + {k})
  {
    LookupKeys(s, k);
    StoredIsFound(s, e, since);
    if k == e.key {
      MoveSelf(Without(s, k), e, {});
    } else if Lookup(s, k).Some? {
      MoveOther(s, e, since, Lookup(s, k).value);
      BehindGrows(Without(s, k), e, since, k);
    } else {
      BehindGrows(s, e, since, k);
    }
  }

  lemma SetKeeps<K, V>(c: Config, s: Store<K, V>, e: Entry<K, V>, since: set<K>, k: K, v: V, t: real)
    requires c.ttl > 0.0 && Distinct(s) && Behind(s, e, since) && k != e.key && |since + {k}| < c.maxSize
    ensures Behind(Put(c, s, k, v, t), e, since + {k})
  {
    PushKeeps(s, e, since, Entry(k, t + c.ttl, v), c.maxSize);
  }

  lemma PushKeeps<K, V>(s: Store<K, V>, e: Entry<K, V>, since: set<K>, f: Entry<K, V>, n: nat)
    requires Distinct(s) && Behind(s, e, since) && f.key != e.key && |since + {f.key}| < n
    ensures Behind(Newest(Without(s, f.key) + [f], n), e, since + {f.key})
  {
    var g := Without(s, f.key) + [f];
    assert Distinct(g) by { AppendDistinct(s, f); }
    assert Behind(g, e, since + {f.key}) by { MoveOther(s, e, since, f); }
    TrimKeeps(g, e, since + {f.key}, n);
  }

  lemma BehindGrows<K, V>(s: Store<K, V>, e: Entry<K, V>, since: set<K>, k: K)
    ensures Behind(s, e, since) ==> Behind(s, e, since + {k})
  {
    if i :| BehindAt(s, e, since, i) {
      assert BehindAt(s, e, since + {k}, i);
    }
  }

  lemma StoredIsFound<K, V>(s: Store<K, V>, e: Entry<K, V>, since: set<K>)
    requires Distinct(s) && Behind(s, e, since)
    ensures Lookup(s, e.key) == Some(e)
  {
    var a, b := Parts(s, e, since);
    assert s[|a|] == e;
    MemberKeys(s, e);
  }

  lemma SetStores<K, V>(c: Config, s: Store<K, V>, key: K, value: V, now: real)
    requires c.ttl > 0.0 && c.maxSize >= 1 && Distinct(s)
    ensures Behind(Put(c, s, key, value, now), Entry(key, now + c.ttl, value), {})
  {
    var e := Entry(key, now + c.ttl, value);
    AppendDistinct(s, e);
    MoveSelf(Without(s, key), e, {});
    TrimKeeps(Without(s, key) + [e], e, {}, c.maxSize);
  }

  /** What was just set is a hit until it expires. */
  lemma PutIsFound<K, V>(c: Config, s: Store<K, V>, key: K, value: V, now: real, next: real)
    requires c.ttl > 0.0 && c.maxSize >= 1 && Bounded(c, s) && next < now + c.ttl
    ensures Got(c, Put(c, s, key, value, now), key, next).0 == Some(value)
  {
    SetStores(c, s, key, value, now);
    StepBounded(c, s, SetOp(key, value, now));
    StoredIsFound(Put(c, s, key, value, now), Entry(key, now + c.ttl, value), {});
  }

  lemma {:induction false} RunStored<K, V>(c: Config, ops: seq<Op<K, V>>, key: K, now: real)
    requires c.ttl > 0.0 && c.maxSize >= 1 && UpTo(ops, now) && Recent(c, ops, key)
    requires Latest(ops, key).Some? && now < Latest(ops, key).value.1 + c.ttl
    ensures Stored(c, ops, Run(c, ops), key)
  {
    RunSound(c, Init(ops));
    var s := Run(c, Init(ops));
    if Last(ops).SetOp? && Last(ops).key == key {
      SetStores(c, s, key, Last(ops).value, Last(ops).now);
    } else {
      RunStored(c, Init(ops), key, now);
      StepStored(c, ops, s, key, now);
    }
  }

  /**
   * With a clock that never goes back, a key whose latest `set` is live and that has never since had
   * `maxSize` other keys used after it is always a hit.
   */
  lemma LiveRecentKeyHits<K, V>(c: Config, ops: seq<Op<K, V>>, key: K, now: real)
    requires c.ttl > 0.0 && c.maxSize >= 1 && UpTo(ops, now) && Recent(c, ops, key)
    requires Latest(ops, key).Some? && now < Latest(ops, key).value.1 + c.ttl
    ensures Got(c, Run(c, ops), key, now).0 == Some(Latest(ops, key).value.0)
  {
    RunStored(c, ops, key, now);
    RunSound(c, ops);
    StoredIsFound(
      Run(c, ops), Entry(key, Latest(ops, key).value.1 + c.ttl, Latest(ops, key).value.0), UsedSince(ops, key));
  }
}
