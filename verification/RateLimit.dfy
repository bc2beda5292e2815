/** The fixed-window limiter and the eviction that bounds its table. */
module RateLimit {
  /** Window start and hits counted since, per key. */
  type Buckets = map<string, (real, int)>

  /** The table size above which stale buckets are dropped. */
  const CAPACITY: nat := 100_000

  datatype Hit = Hit(key: string, now: real)

  predicate Stale(bucket: (real, int), now: real, window: real) {
    now - bucket.0 >= window
  }

  /** The bucket that counts `hit`: the key's current one or a new one. */
  function Counted(b: Buckets, hit: Hit, window: real): (real, int) {
    if hit.key in b && !Stale(b[hit.key], hit.now, window) then (b[hit.key].0, b[hit.key].1 + 1) else (hit.now, 1)
  }

  function Evicted(b: Buckets, now: real, window: real): Buckets {
    map k | k in b && !Stale(b[k], now, window) :: b[k]
  }

  /** The table after a hit, for the limiter as it is or for one that never evicts. */
  function Next(b: Buckets, hit: Hit, window: real, evicts: bool): Buckets {
    var c := b[hit.key := Counted(b, hit, window)];
    if evicts && |c| > CAPACITY then Evicted(c, hit.now, window) else c
  }

  class FixedWindowRateLimiter {
    var buckets: Buckets

    constructor ()
      ensures buckets == map[]
    {
      buckets := map[];
    }

    method Check(key: string, limit: int, window: real, now: real) returns (within: bool)
      modifies this
      ensures limit <= 0 ==> within && buckets == old(buckets)
      ensures limit > 0 ==>
        && within == (Counted(old(buckets), Hit(key, now), window).1 <= limit)
        && buckets == Next(old(buckets), Hit(key, now), window, true)
    {
      if limit <= 0 {
        return true;
      }
      var start, count := now, 0;
      if key in buckets {
        start, count := buckets[key].0, buckets[key].1;
      }
      if now - start >= window {
        start, count := now, 0;
      }
      count := count + 1;
      buckets := buckets[key := (start, count)];
      assert count == 1 || (start, count) == Counted(old(buckets), Hit(key, now), window);
      if |buckets| > CAPACITY {
        EvictStale(now, window);
      }
      return count <= limit;
    }

    method EvictStale(now: real, window: real)
      modifies this
      ensures buckets == Evicted(old(buckets), now, window)
    {
      var stale := set k | k in buckets && now - buckets[k].0 >= window;
      buckets := buckets - stale;
    }

    method Reset()
      modifies this
      ensures buckets == map[]
    {
      buckets := map[];
    }
  }

  /** A bucket goes only when more than 100000 would remain and its window has passed; those that stay are unchanged. */
  lemma DroppedExactly(b: Buckets, hit: Hit, window: real, k: string)
    requires k in b && k != hit.key
    ensures var t, size := Next(b, hit, window, true), |b| + if hit.key in b then 0 else 1;
      && (k in t <==> size <= 100_000 || hit.now - b[k].0 < window)
      && (k in t ==> t[k] == b[k])
  {
    var c := b[hit.key := Counted(b, hit, window)];
    assert c.Keys == b.Keys + {hit.key};
    assert |c.Keys| == |b.Keys| + if hit.key in b then 0 else 1;
  }

  // ---- Runs with a fixed limit and window ----

  /** The answers to a sequence of hits. */
  function Answers(b: Buckets, hits: seq<Hit>, limit: nat, window: real, evicts: bool): (r: seq<bool>)
    ensures |r| == |hits|
    decreases |hits|
  {
    if hits == [] then []
    else
      [Counted(b, hits[0], window).1 <= limit]
      + Answers(Next(b, hits[0], window, evicts), hits[1..], limit, window, evicts)
  }

  /** Clock readings never go back, and none precedes `from`. */
  predicate InOrder(hits: seq<Hit>, from: real) {
    && (forall i :: 0 <= i < |hits| ==> from <= hits[i].now)
    && (forall i, j :: 0 <= i < j < |hits| ==> hits[i].now <= hits[j].now)
  }

  /** `small` is `full` without some buckets that are stale from `now` on. */
  predicate Trimmed(small: Buckets, full: Buckets, now: real, window: real) {
    && (forall k :: k in small ==> k in full && small[k] == full[k])
    && (forall k :: k in full && k !in small ==> Stale(full[k], now, window))
  }

  lemma TailInOrder(hits: seq<Hit>, from: real)
    requires InOrder(hits, from) && hits != []
    ensures from <= hits[0].now && InOrder(hits[1..], hits[0].now)
  {
    var tail := hits[1..];
    forall i | 0 <= i < |tail| ensures hits[0].now <= tail[i].now {
      assert tail[i] == hits[i + 1];
    }
    forall i, j | 0 <= i < j < |tail| ensures tail[i].now <= tail[j].now {
      assert tail[i] == hits[i + 1] && tail[j] == hits[j + 1];
    }
  }

  lemma {:induction false} TrimmedAnswersAlike(
      small: Buckets, full: Buckets, hits: seq<Hit>, from: real, limit: nat, window: real)
    requires window > 0.0 && InOrder(hits, from) && Trimmed(small, full, from, window)
    ensures Answers(small, hits, limit, window, true) == Answers(full, hits, limit, window, false)
    decreases |hits|
  {
    if hits != [] {
      TailInOrder(hits, from);
      var hit := hits[0];
      assert Counted(small, hit, window) == Counted(full, hit, window);
      TrimmedAnswersAlike(
        Next(small, hit, window, true), Next(full, hit, window, false), hits[1..], hit.now, limit, window);
    }
  }

  /** With a clock that never goes back nobody can tell that buckets are evicted. */
  lemma EvictionUnobservable(hits: seq<Hit>, from: real, limit: nat, window: real)
    requires window > 0.0 && InOrder(hits, from)
    ensures Answers(map[], hits, limit, window, true) == Answers(map[], hits, limit, window, false)
  {
    TrimmedAnswersAlike(map[], map[], hits, from, limit, window);
  }

  // ---- Which hits are admitted ----

  /** Hit `i` opens a window of its key: no hit of the key within the last window's length opened one. */
  ghost predicate Opens(hits: seq<Hit>, i: nat, window: real)
    decreases i
  {
    && i < |hits|
    && forall j :: 0 <= j < i && hits[j].key == hits[i].key && Opens(hits, j, window) ==>
         hits[i].now - hits[j].now >= window
  }

  /** The last of the first `n` hits that opened a window of `key`. */
  ghost predicate LatestOpener(hits: seq<Hit>, key: string, n: nat, o: nat, window: real) {
    && o < n <= |hits| && hits[o].key == key && Opens(hits, o, window)
    && forall j :: o < j < n && hits[j].key == key ==> !Opens(hits, j, window)
  }

  /** The hits of `key` from the `o`-th to before the `n`-th, admitted or not. */
  function CountHits(hits: seq<Hit>, key: string, o: nat, n: nat): nat
    requires n <= |hits|
  {
    if n <= o then 0 else CountHits(hits, key, o, n - 1) + if hits[n - 1].key == key then 1 else 0
  }

  /** The table of a limiter that never evicts, after the first `n` hits. */
  function TableAfter(b: Buckets, hits: seq<Hit>, n: nat, window: real): Buckets
    requires n <= |hits|
  {
    if n == 0 then b else Next(TableAfter(b, hits, n - 1, window), hits[n - 1], window, false)
  }

  lemma {:induction false} TableShift(b: Buckets, hits: seq<Hit>, n: nat, window: real)
    requires 0 < n <= |hits|
    ensures TableAfter(b, hits, n, window) == TableAfter(Next(b, hits[0], window, false), hits[1..], n - 1, window)
  {
    if n > 1 {
      TableShift(b, hits, n - 1, window);
      assert hits[1..][n - 2] == hits[n - 1];
    }
  }

  lemma {:induction false} AnswerAt(b: Buckets, hits: seq<Hit>, i: nat, limit: nat, window: real)
    requires i < |hits|
    ensures Answers(b, hits, limit, window, false)[i]
       <==> Counted(TableAfter(b, hits, i, window), hits[i], window).1 <= limit
    decreases i
  {
    if i > 0 {
      var c := Next(b, hits[0], window, false);
      AnswerAt(c, hits[1..], i - 1, limit, window);
      TableShift(b, hits, i, window);
      assert Answers(b, hits, limit, window, false)[1..] == Answers(c, hits[1..], limit, window, false);
      assert Answers(b, hits, limit, window, false)[i] == Answers(b, hits, limit, window, false)[1..][i - 1];
      assert hits[1..][i - 1] == hits[i];
    }
  }

  /** After `n` hits the bucket of `key` is that of the window which hit `o` opened. */
  ghost predicate BucketOf(hits: seq<Hit>, key: string, n: nat, o: nat, window: real) {
    && LatestOpener(hits, key, n, o, window)
    && var b := TableAfter(map[], hits, n, window);
       key in b && b[key] == (hits[o].now, CountHits(hits, key, o, n))
  }

  /** The table holds a bucket for each key that was hit, and no other. */
  ghost predicate KeyMeans(hits: seq<Hit>, key: string, n: nat, window: real)
    requires n <= |hits|
  {
    if key in TableAfter(map[], hits, n, window) then exists o: nat :: BucketOf(hits, key, n, o, window)
    else forall j :: 0 <= j < n ==> hits[j].key != key
  }

  /** With ordered readings, whether a hit opens a window depends on the latest opener only. */
  lemma OpensIffLatestStale(hits: seq<Hit>, from: real, n: nat, o: nat, window: real)
    requires InOrder(hits, from) && n < |hits| && LatestOpener(hits, hits[n].key, n, o, window)
    ensures Opens(hits, n, window) <==> hits[n].now - hits[o].now >= window
  {
  }

  lemma LatestOpenerIsOne(hits: seq<Hit>, key: string, n: nat, o: nat, p: nat, window: real)
    requires LatestOpener(hits, key, n, o, window) && LatestOpener(hits, key, n, p, window)
    ensures o == p
  {
  }

  lemma {:induction false} TableMeansHits(hits: seq<Hit>, from: real, n: nat, window: real, key: string)
    requires window > 0.0 && InOrder(hits, from) && n <= |hits|
    ensures KeyMeans(hits, key, n, window)
    decreases n
  {
    if n > 0 {
      TableMeansHits(hits, from, n - 1, window, key);
      NextMeans(hits, from, n - 1, window, key);
    }
  }

  lemma NextMeans(hits: seq<Hit>, from: real, n: nat, window: real, key: string)
    requires window > 0.0 && InOrder(hits, from) && n < |hits| && KeyMeans(hits, key, n, window)
    ensures KeyMeans(hits, key, n + 1, window)
  {
    if key in TableAfter(map[], hits, n, window) {
      var o: nat :| BucketOf(hits, key, n, o, window);
      if hits[n].key == key {
        HitMovesBucket(hits, from, n, o, window);
      } else {
        assert BucketOf(hits, key, n + 1, o, window);
      }
    } else if hits[n].key == key {
      assert CountHits(hits, key, n, n + 1) == 1;
      assert BucketOf(hits, key, n + 1, n, window);
    }
  }

  lemma HitMovesBucket(hits: seq<Hit>, from: real, n: nat, o: nat, window: real)
    requires window > 0.0 && InOrder(hits, from) && n < |hits| && BucketOf(hits, hits[n].key, n, o, window)
    ensures BucketOf(hits, hits[n].key, n + 1, if Opens(hits, n, window) then n else o, window)
  {
    OpensIffLatestStale(hits, from, n, o, window);
    assert CountHits(hits, hits[n].key, n, n + 1) == 1;
  }

  /**
   * A hit is admitted exactly when it is among the first `limit` hits of its key since the latest opener,
   * itself included; refused hits count but move no window, and eviction changes nothing.
   */
  lemma AdmittedExactly(hits: seq<Hit>, from: real, i: nat, o: nat, limit: nat, window: real)
    requires window > 0.0 && InOrder(hits, from) && i < |hits|
    requires LatestOpener(hits, hits[i].key, i + 1, o, window)
    ensures Answers(map[], hits, limit, window, true)[i] <==> CountHits(hits, hits[i].key, o, i + 1) <= limit
  {
    var key := hits[i].key;
    EvictionUnobservable(hits, from, limit, window);
    AnswerAt(map[], hits, i, limit, window);
    TableMeansHits(hits, from, i + 1, window, key);
    var p: nat :| BucketOf(hits, key, i + 1, p, window);
    LatestOpenerIsOne(hits, key, i + 1, o, p, window);
  }

  // ---- How many hits an interval admits ----

  predicate Within(hit: Hit, key: string, from: real, window: real) {
    hit.key == key && from <= hit.now < from + window
  }

  /** The admitted hits of one key in `[from, from + window)`. */
  function Admitted(hits: seq<Hit>, answers: seq<bool>, key: string, from: real, window: real): nat
    requires |answers| == |hits|
  {
    if hits == [] then 0
    else (if Within(hits[0], key, from, window) && answers[0] then 1 else 0)
         + Admitted(hits[1..], answers[1..], key, from, window)
  }

  /** The same for a new limiter as it is, with eviction. */
  function AdmittedBy(hits: seq<Hit>, key: string, limit: nat, from: real, window: real): nat {
    Admitted(hits, Answers(map[], hits, limit, window, true), key, from, window)
  }

  function Room(bucket: (real, int), limit: nat): nat {
    if bucket.1 >= limit then 0 else if bucket.1 <= 0 then limit else limit - bucket.1
  }

  /** The hits of `key` that can still be admitted in the interval, given its bucket and the clock. */
  function Budget(b: Buckets, now: real, key: string, limit: nat, from: real, window: real): int {
    if now < from then 2 * limit - 1
    else if key !in b then limit
    else if b[key].0 >= from + window then 0
    else if b[key].0 >= from then Room(b[key], limit)
    else Room(b[key], limit) + limit
  }

  /** Every bucket has counted a hit and started no later than `now`. */
  predicate Started(b: Buckets, now: real) {
    forall k :: k in b ==> b[k].1 >= 1 && b[k].0 <= now
  }

  lemma BudgetStep(b: Buckets, now: real, hit: Hit, key: string, limit: nat, from: real, window: real)
    requires window > 0.0 && limit >= 1 && Started(b, now) && now <= hit.now
    ensures Started(Next(b, hit, window, false), hit.now)
    ensures (if Within(hit, key, from, window) && Counted(b, hit, window).1 <= limit then 1 else 0)
          + Budget(Next(b, hit, window, false), hit.now, key, limit, from, window)
         <= Budget(b, now, key, limit, from, window)
  {
  }

  lemma {:induction false} AdmittedWithinBudget(
      b: Buckets, hits: seq<Hit>, now: real, key: string, limit: nat, from: real, window: real)
    requires window > 0.0 && limit >= 1 && InOrder(hits, now) && Started(b, now)
    ensures Admitted(hits, Answers(b, hits, limit, window, false), key, from, window)
         <= Budget(b, now, key, limit, from, window)
    decreases |hits|
  {
    if hits != [] {
      TailInOrder(hits, now);
      var rest := Next(b, hits[0], window, false);
      BudgetStep(b, now, hits[0], key, limit, from, window);
      AdmittedWithinBudget(rest, hits[1..], hits[0].now, key, limit, from, window);
      var answers := Answers(b, hits, limit, window, false);
      assert answers[1..] == Answers(rest, hits[1..], limit, window, false);
    } else if key in b {
      assert b[key].1 >= 1;
    }
  }

  /**
   * Any half-open interval of one window length admits at most `2 * limit - 1` hits of a key, wherever
   * the windows fall and whatever is evicted.
   */
  lemma AtMostTwiceTheLimit(hits: seq<Hit>, now: real, key: string, limit: nat, from: real, window: real)
    requires window > 0.0 && limit >= 1 && InOrder(hits, now)
    ensures AdmittedBy(hits, key, limit, from, window) <= 2 * limit - 1
  {
    EvictionUnobservable(hits, now, limit, window);
    AdmittedWithinBudget(map[], hits, now, key, limit, from, window);
  }

  /** `n` hits of one key at one time. */
  function Burst(key: string, now: real, n: nat): (r: seq<Hit>)
    ensures |r| == n && forall i :: 0 <= i < n ==> r[i] == Hit(key, now)
  {
    if n == 0 then [] else [Hit(key, now)] + Burst(key, now, n - 1)
  }

  /** A burst followed by more hits; the burst's hits are all admitted while they fit the window. */
  lemma {:induction false} BurstAdmitted(
      b: Buckets, key: string, now: real, n: nat, rest: seq<Hit>, limit: nat, from: real, window: real)
    requires window > 0.0 && from <= now < from + window
    requires key in b && !Stale(b[key], now, window) && b[key].1 + n <= limit
    ensures var hits := Burst(key, now, n) + rest;
      Admitted(hits, Answers(b, hits, limit, window, false), key, from, window)
      == n + var c := b[key := (b[key].0, b[key].1 + n)];
             Admitted(rest, Answers(c, rest, limit, window, false), key, from, window)
    decreases n
  {
    var hits := Burst(key, now, n) + rest;
    if n == 0 {
      assert hits == rest && b[key := (b[key].0, b[key].1 + n)] == b;
    } else {
      var c := Next(b, hits[0], window, false);
      assert hits[0] == Hit(key, now) && hits[1..] == Burst(key, now, n - 1) + rest;
      assert Answers(b, hits, limit, window, false)[1..] == Answers(c, hits[1..], limit, window, false);
      BurstAdmitted(c, key, now, n - 1, rest, limit, from, window);
      assert c[key := (c[key].0, c[key].1 + (n - 1))] == b[key := (b[key].0, b[key].1 + n)];
    }
  }

  /** One early hit, the rest of its window late, then a full window. */
  function Worst(key: string, limit: nat, window: real): seq<Hit>
    requires limit >= 1
  {
    [Hit(key, 0.0)]
    + (Burst(key, window / 2.0, limit - 1) + ([Hit(key, window)] + (Burst(key, window, limit - 1) + [])))
  }

  lemma WorstInOrder(key: string, limit: nat, window: real)
    requires window > 0.0 && limit >= 1
    ensures InOrder(Worst(key, limit, window), 0.0)
  {
    var hits := Worst(key, limit, window);
    forall i | 0 <= i < |hits|
      ensures hits[i].now == if i == 0 then 0.0 else if i < limit then window / 2.0 else window
    {
    }
  }

  lemma FirstWindow(key: string, limit: nat, window: real, rest: seq<Hit>)
    requires window > 0.0 && limit >= 1
    ensures var hits := [Hit(key, 0.0)] + (Burst(key, window / 2.0, limit - 1) + rest);
      Admitted(hits, Answers(map[], hits, limit, window, false), key, window / 2.0, window)
      == limit - 1
       + Admitted(rest, Answers(map[key := (0.0, limit)], rest, limit, window, false), key, window / 2.0, window)
  {
    var half := window / 2.0;
    var first := Burst(key, half, limit - 1) + rest;
    var hits := [Hit(key, 0.0)] + first;
    var b: Buckets := map[key := (0.0, 1)];
    assert hits[1..] == first && Next(map[], hits[0], window, false) == b;
    assert Answers(map[], hits, limit, window, false)[1..] == Answers(b, first, limit, window, false);
    BurstAdmitted(b, key, half, limit - 1, rest, limit, half, window);
    assert b[key := (0.0, 1 + (limit - 1))] == map[key := (0.0, limit)];
  }

  lemma SecondWindow(key: string, limit: nat, window: real)
    requires window > 0.0 && limit >= 1
    ensures var hits := [Hit(key, window)] + (Burst(key, window, limit - 1) + []);
      Admitted(hits, Answers(map[key := (0.0, limit)], hits, limit, window, false), key, window / 2.0, window) == limit
  {
    var last := Burst(key, window, limit - 1) + [];
    var hits := [Hit(key, window)] + last;
    var b: Buckets := map[key := (0.0, limit)];
    var c: Buckets := map[key := (window, 1)];
    assert hits[1..] == last && Next(b, hits[0], window, false) == c;
    assert Answers(b, hits, limit, window, false)[1..] == Answers(c, last, limit, window, false);
    BurstAdmitted(c, key, window, limit - 1, [], limit, window / 2.0, window);
  }

  /** The bound is attained for every limit. */
  lemma TwiceTheLimitAttained(key: string, limit: nat, window: real)
    requires window > 0.0 && limit >= 1
    ensures InOrder(Worst(key, limit, window), 0.0)
    ensures AdmittedBy(Worst(key, limit, window), key, limit, window / 2.0, window) == 2 * limit - 1
  {
    WorstInOrder(key, limit, window);
    EvictionUnobservable(Worst(key, limit, window), 0.0, limit, window);
    FirstWindow(key, limit, window, [Hit(key, window)] + (Burst(key, window, limit - 1) + []));
    SecondWindow(key, limit, window);
  }
}
