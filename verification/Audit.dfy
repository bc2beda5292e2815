/** The hash-chained audit log: concurrent appends and verification. */
module Audit {
  import opened Text
  import opened Json
  import JsonReader

  /** A stored row of the `audit_events` table. */
  datatype Row = Row(
    sequence: int, customer: string, kind: string, ts: string,
    payload: map<string, Json>, prev: Option<string>, entry: string)

  /** What one `record_event` call is asked to record, with the time it reads. */
  datatype Event = Event(customer: string, kind: string, ts: string, fields: map<string, Json>)

  type Sha = string -> string

  function PrevJson(prev: Option<string>): Json {
    match prev case None => JNull case Some(h) => JStr(h)
  }

  /** `_record_from_row`: payload keys override the row's own columns. */
  function Material(r: Row): map<string, Json> {
    map[
      "schema" := JStr("clayseal.audit.v1"),
      "sequence" := JInt(r.sequence),
      "prev_hash" := PrevJson(r.prev),
      "ts" := JStr(r.ts),
      "type" := JStr(r.kind),
      "customer_id" := JStr(r.customer)] + r.payload
  }

  /** `_record_hash`. */
  ghost function RecordHash(sha: Sha, record: map<string, Json>): string {
    sha(Encode(JObj(record - {"entry_hash"})))
  }

  ghost function RowHash(sha: Sha, r: Row): string {
    RecordHash(sha, Material(r))
  }

  /** `fields` is what a row is hashed as. */
  predicate Hashed(fields: map<string, Json>, r: Row) {
    && "entry_hash" !in fields
    && (forall k :: k in r.payload && k != "entry_hash" ==> k in fields && fields[k] == r.payload[k])
    && ("schema" in fields && ("schema" !in r.payload ==> fields["schema"] == JStr("clayseal.audit.v1")))
    && ("sequence" in fields && ("sequence" !in r.payload ==> fields["sequence"] == JInt(r.sequence)))
    && ("prev_hash" in fields && ("prev_hash" !in r.payload ==>
          fields["prev_hash"] == if r.prev.Some? then JStr(r.prev.value) else JNull))
    && ("ts" in fields && ("ts" !in r.payload ==> fields["ts"] == JStr(r.ts)))
    && ("type" in fields && ("type" !in r.payload ==> fields["type"] == JStr(r.kind)))
    && ("customer_id" in fields && ("customer_id" !in r.payload ==> fields["customer_id"] == JStr(r.customer)))
  }

  /** A row's hash is that of a text in which a reader finds every column and the payload, but no entry hash. */
  lemma HashedTextReads(sha: Sha, r: Row) returns (text: string, fields: map<string, Json>)
    ensures RowHash(sha, r) == sha(text)
    ensures JsonReader.ReadValue(text) == Some((JObj(fields), "")) && Hashed(fields, r)
  {
    fields := Material(r) - {"entry_hash"};
    text := Encode(JObj(fields));
    JsonReader.CanonicalJsonReads(JObj(fields));
  }

  // ---- Verification ----

  datatype Issue = BadSequence(at: int, expected: int) | BadPrev(at: int) | BadEntry(at: int)

  /** The hash of a row, as the verifier recomputes it. */
  type RowHasher = Row -> string

  ghost function Hasher(sha: Sha): RowHasher {
    r => RowHash(sha, r)
  }

  function RowIssues(hash: RowHasher, r: Row, prev: Option<string>, expected: int): seq<Issue> {
    (if r.sequence != expected then [BadSequence(r.sequence, expected)] else [])
    + ((if r.prev != prev then [BadPrev(r.sequence)] else [])
       + (if hash(r) != r.entry then [BadEntry(r.sequence)] else []))
  }

  function Issues(hash: RowHasher, rows: seq<Row>, prev: Option<string>, expected: int): seq<Issue>
    decreases rows
  {
    if rows == [] then []
    else RowIssues(hash, rows[0], prev, expected) + Issues(hash, rows[1..], Some(rows[0].entry), expected + 1)
  }

  /** One turn of the verifier's loop. */
  method CheckRow(hash: RowHasher, row: Row, prev: Option<string>, expected: int, issues: seq<Issue>)
    returns (r: seq<Issue>)
    ensures r == issues + RowIssues(hash, row, prev, expected)
  {
    r := issues;
    if row.sequence != expected {
      r := r + [BadSequence(row.sequence, expected)];
    }
    if row.prev != prev {
      r := r + [BadPrev(row.sequence)];
    }
    if hash(row) != row.entry {
      r := r + [BadEntry(row.sequence)];
    }
  }

  lemma IssuesStep(hash: RowHasher, rows: seq<Row>, i: nat, prev: Option<string>, expected: int, before: seq<Issue>)
    requires i < |rows|
    ensures before + Issues(hash, rows[i..], prev, expected)
         == (before + RowIssues(hash, rows[i], prev, expected))
            + Issues(hash, rows[i + 1..], Some(rows[i].entry), expected + 1)
  {
    assert rows[i..][1..] == rows[i + 1..];
  }

  /** The loop of `verify_event_log`. */
  method VerifyEventLog(hash: RowHasher, rows: seq<Row>) returns (issues: seq<Issue>)
    ensures issues == Issues(hash, rows, None, 1)
  {
    issues := [];
    var expectedPrev: Option<string> := None;
    var expectedSequence := 1;
    for i := 0 to |rows|
      invariant expectedSequence == i + 1
      invariant issues + Issues(hash, rows[i..], expectedPrev, expectedSequence) == Issues(hash, rows, None, 1)
    {
      IssuesStep(hash, rows, i, expectedPrev, expectedSequence, issues);
      issues := CheckRow(hash, rows[i], expectedPrev, expectedSequence, issues);
      expectedPrev := Some(rows[i].entry);
      expectedSequence := expectedSequence + 1;
    }
  }

  function PrevOf(rows: seq<Row>, i: nat): Option<string>
    requires i <= |rows|
  {
    if i == 0 then None else Some(rows[i - 1].entry)
  }

  /** The row at position `i` is numbered `i + 1`, linked to the row before it, and hashed. */
  predicate RowOk(hash: RowHasher, rows: seq<Row>, i: int)
    requires 0 <= i < |rows|
  {
    rows[i].sequence == i + 1 && rows[i].prev == PrevOf(rows, i) && rows[i].entry == hash(rows[i])
  }

  predicate Intact(hash: RowHasher, rows: seq<Row>) {
    forall i {:trigger RowOk(hash, rows, i)} :: 0 <= i < |rows| ==> RowOk(hash, rows, i)
  }

  /** What the verifier finds, row by row. */
  lemma {:induction false} IssuesFrom(hash: RowHasher, rows: seq<Row>, i: nat)
    requires i <= |rows|
    ensures Issues(hash, rows[i..], PrevOf(rows, i), i + 1) == [] <==>
      forall k {:trigger RowOk(hash, rows, k)} :: i <= k < |rows| ==> RowOk(hash, rows, k)
    decreases |rows| - i
  {
    if i < |rows| {
      assert rows[i..][1..] == rows[i + 1..];
      IssuesFrom(hash, rows, i + 1);
      assert RowIssues(hash, rows[i], PrevOf(rows, i), i + 1) == [] <==> RowOk(hash, rows, i);
    }
  }

  lemma NoIssuesIffIntact(hash: RowHasher, rows: seq<Row>)
    ensures Issues(hash, rows, None, 1) == [] <==> Intact(hash, rows)
  {
    assert rows[0..] == rows;
    IssuesFrom(hash, rows, 0);
  }

  // ---- What a verifying log pins down ----

  const RESERVED: set<string> := {"schema", "sequence", "prev_hash", "ts", "type", "customer_id", "entry_hash"}

  predicate ReservedFree(r: Row) {
    r.payload.Keys !! RESERVED
  }

  /** The hashed material as it reads when no payload key is reserved. */
  lemma MaterialFields(r: Row)
    requires ReservedFree(r)
    ensures var m := Material(r) - {"entry_hash"};
      && m == Material(r)
      && "sequence" in m && m["sequence"] == JInt(r.sequence) && "prev_hash" in m && m["prev_hash"] == PrevJson(r.prev)
      && "ts" in m && m["ts"] == JStr(r.ts) && "type" in m && m["type"] == JStr(r.kind)
      && "customer_id" in m && m["customer_id"] == JStr(r.customer)
      && m - RESERVED == r.payload
  {
    var m := Material(r);
    assert "entry_hash" in RESERVED && "entry_hash" !in r.payload.Keys;
    assert "sequence" in RESERVED && "prev_hash" in RESERVED && "ts" in RESERVED && "type" in RESERVED;
    assert "customer_id" in RESERVED && "schema" in RESERVED;
    assert forall k :: k in r.payload ==> k !in RESERVED;
    assert m - {"entry_hash"} == m;
    assert m - RESERVED == r.payload;
  }

  lemma EqualMaterial(sha: Sha, a: map<string, Json>, b: map<string, Json>)
    requires Injective(sha) && RecordHash(sha, a) == RecordHash(sha, b)
    ensures a - {"entry_hash"} == b - {"entry_hash"}
  {
    CanonicalJsonInjective(JObj(a - {"entry_hash"}), JObj(b - {"entry_hash"}));
  }

  /** Equal hashes mean equal rows up to the stored hash. */
  lemma RowHashDetermines(sha: Sha, a: Row, b: Row)
    requires Injective(sha) && ReservedFree(a) && ReservedFree(b)
    requires RowHash(sha, a) == RowHash(sha, b)
    ensures a.(entry := b.entry) == b
  {
    EqualMaterial(sha, Material(a), Material(b));
    MaterialFields(a);
    MaterialFields(b);
    assert PrevJson(a.prev) == PrevJson(b.prev);
  }

  lemma IntactPrefix(hash: RowHasher, rows: seq<Row>, n: nat)
    requires Intact(hash, rows) && n <= |rows|
    ensures Intact(hash, rows[..n])
  {
    forall i | 0 <= i < n ensures RowOk(hash, rows[..n], i) {
      assert RowOk(hash, rows, i);
    }
  }

  /** Among clean rows, the hash determines a row up to its stored hash. */
  ghost predicate Pins(hash: RowHasher, clean: Row -> bool) {
    forall a, b :: clean(a) && clean(b) && hash(a) == hash(b) ==> a.(entry := b.entry) == b
  }

  lemma InjectiveHashPins(sha: Sha)
    requires Injective(sha)
    ensures Pins(Hasher(sha), r => ReservedFree(r))
  {
    forall a, b | ReservedFree(a) && ReservedFree(b) && Hasher(sha)(a) == Hasher(sha)(b)
      ensures a.(entry := b.entry) == b
    {
      RowHashDetermines(sha, a, b);
    }
  }

  ghost predicate AllClean(clean: Row -> bool, rows: seq<Row>) {
    forall i :: 0 <= i < |rows| ==> clean(rows[i])
  }

  /** Going backwards from a shared hash, row equals row and link equals link. */
  lemma {:induction false} PinnedPrefix(hash: RowHasher, clean: Row -> bool, a: seq<Row>, b: seq<Row>, n: nat)
    requires Pins(hash, clean) && Intact(hash, a) && Intact(hash, b) && AllClean(clean, a) && AllClean(clean, b)
    requires n <= |a| && n <= |b| && (n > 0 ==> a[n - 1].entry == b[n - 1].entry)
    ensures a[..n] == b[..n]
  {
    if n > 0 {
      var x, y := a[n - 1], b[n - 1];
      assert RowOk(hash, a, n - 1) && RowOk(hash, b, n - 1);
      assert clean(x) && clean(y);
      PinnedPrefix(hash, clean, a, b, n - 1);
      assert a[..n] == a[..n - 1] + [x] && b[..n] == b[..n - 1] + [y];
    }
  }

  lemma PinnedLog(hash: RowHasher, clean: Row -> bool, a: seq<Row>, b: seq<Row>)
    requires Pins(hash, clean) && Intact(hash, a) && Intact(hash, b) && AllClean(clean, a) && AllClean(clean, b)
    requires a != [] && b != [] && a[|a| - 1].entry == b[|b| - 1].entry
    ensures a == b
  {
    var x, y := a[|a| - 1], b[|b| - 1];
    assert RowOk(hash, a, |a| - 1) && RowOk(hash, b, |b| - 1);
    assert clean(x) && clean(y);
    assert |a| == x.sequence == y.sequence == |b|;
    PinnedPrefix(hash, clean, a, b, |a|);
    assert a == a[..|a|] && b == b[..|a|];
  }

  /** Two verifying logs that end in the same hash are the same log, whatever their lengths. */
  lemma FinalHashPinsLog(sha: Sha, a: seq<Row>, b: seq<Row>)
    requires Injective(sha) && a != [] && b != []
    requires Issues(Hasher(sha), a, None, 1) == [] && Issues(Hasher(sha), b, None, 1) == []
    requires AllClean(r => ReservedFree(r), a) && AllClean(r => ReservedFree(r), b)
    requires a[|a| - 1].entry == b[|b| - 1].entry
    ensures a == b
  {
    InjectiveHashPins(sha);
    NoIssuesIffIntact(Hasher(sha), a);
    NoIssuesIffIntact(Hasher(sha), b);
    var clean := (r: Row) => ReservedFree(r);
    assert AllClean(clean, a) && AllClean(clean, b) && Pins(Hasher(sha), clean);
    PinnedLog(Hasher(sha), clean, a, b);
  }

  /** The verifier cannot see that a log was cut short: every beginning of a verifying log verifies. */
  lemma TruncationVerifies(hash: RowHasher, rows: seq<Row>, n: nat)
    requires Issues(hash, rows, None, 1) == [] && n <= |rows|
    ensures Issues(hash, rows[..n], None, 1) == []
  {
    NoIssuesIffIntact(hash, rows);
    IntactPrefix(hash, rows, n);
    NoIssuesIffIntact(hash, rows[..n]);
  }

  lemma {:induction false} IssuesConcat(hash: RowHasher, x: seq<Row>, y: seq<Row>, prev: Option<string>, n: int)
    ensures Issues(hash, x + y, prev, n)
      == Issues(hash, x, prev, n)
         + Issues(hash, y, if x == [] then prev else Some(x[|x| - 1].entry), n + |x|)
    decreases x
  {
    if x == [] {
      assert x + y == y;
    } else {
      assert (x + y)[1..] == x[1..] + y;
      IssuesConcat(hash, x[1..], y, Some(x[0].entry), n + 1);
      var head := RowIssues(hash, x[0], prev, n);
      var mid := Issues(hash, x[1..], Some(x[0].entry), n + 1);
      var tail := Issues(hash, y, Some(x[|x| - 1].entry), n + |x|);
      assert head + (mid + tail) == (head + mid) + tail;
    }
  }

  /** The issues of a log with one row replaced by another that keeps its number and stored hash. */
  lemma ReplacedRowIssues(hash: RowHasher, rows: seq<Row>, k: nat, r: Row)
    requires Intact(hash, rows) && k < |rows|
    requires r.sequence == rows[k].sequence && r.entry == rows[k].entry
    ensures Issues(hash, rows[k := r], None, 1) == RowIssues(hash, r, rows[k].prev, k + 1)
  {
    var before, after := rows[..k], rows[k + 1..];
    assert rows[k := r] == before + ([r] + after);
    IssuesConcat(hash, before, [r] + after, None, 1);
    assert ([r] + after)[1..] == after;
    IntactPrefix(hash, rows, k);
    NoIssuesIffIntact(hash, before);
    assert RowOk(hash, rows, k);
    IssuesFrom(hash, rows, k + 1);
  }

  /**
   * Editing one row of a verifying log, its number and stored hash kept, is reported at that row and
   * nowhere else: once for its content, and once more when its link to the row before was edited.
   */
  lemma EditedRowIsReported(sha: Sha, rows: seq<Row>, k: nat, r: Row)
    requires Injective(sha) && Issues(Hasher(sha), rows, None, 1) == [] && k < |rows|
    requires ReservedFree(rows[k]) && ReservedFree(r)
    requires r.sequence == rows[k].sequence && r.entry == rows[k].entry
    ensures Issues(Hasher(sha), rows[k := r], None, 1)
      == (if r.prev != rows[k].prev then [BadPrev(k + 1)] else []) + (if r != rows[k] then [BadEntry(k + 1)] else [])
  {
    var hash := Hasher(sha);
    NoIssuesIffIntact(hash, rows);
    ReplacedRowIssues(hash, rows, k, r);
    assert RowOk(hash, rows, k);
    assert hash(r) == RowHash(sha, r) && hash(rows[k]) == RowHash(sha, rows[k]);
    if hash(r) == r.entry {
      RowHashDetermines(sha, r, rows[k]);
    }
  }

  /**
   * Whatever is edited in a row, its number included, and wherever the row then stands, the row is
   * reported for its content while it carries the stored hash of a genuine row that it differs from.
   */
  lemma ForgedRowIsReported(sha: Sha, before: seq<Row>, r: Row, after: seq<Row>, genuine: Row)
    requires Injective(sha) && ReservedFree(genuine) && genuine.entry == RowHash(sha, genuine)
    requires ReservedFree(r) && r.entry == genuine.entry && r != genuine
    ensures BadEntry(r.sequence) in Issues(Hasher(sha), before + ([r] + after), None, 1)
  {
    var hash := Hasher(sha);
    assert hash(r) != r.entry by {
      if hash(r) == r.entry {
        RowHashDetermines(sha, r, genuine);
      }
    }
    var prev := if before == [] then None else Some(before[|before| - 1].entry);
    IssuesConcat(hash, before, [r] + after, None, 1);
    assert ([r] + after)[1..] == after;
    assert BadEntry(r.sequence) in RowIssues(hash, r, prev, 1 + |before|);
  }

  /** Rows `a` to `b` of an intact log, read `shift` places later; `linked` tells whether the first follows its link. */
  function Misplaced(a: int, b: int, shift: int, linked: bool): seq<Issue>
    decreases b - a
  {
    if a >= b then []
    else
      (if shift != 0 then [BadSequence(a + 1, a + 1 + shift)] else [])
      + ((if linked then [] else [BadPrev(a + 1)]) + Misplaced(a + 1, b, shift, true))
  }

  lemma {:induction false} SegmentIssues(
      hash: RowHasher, rows: seq<Row>, a: nat, b: nat, prev: Option<string>, shift: int)
    requires Intact(hash, rows) && a <= b <= |rows|
    ensures Issues(hash, rows[a..b], prev, a + 1 + shift) == Misplaced(a, b, shift, prev == PrevOf(rows, a))
    decreases b - a
  {
    if a < b {
      assert rows[a..b][0] == rows[a] && rows[a..b][1..] == rows[a + 1..b];
      SegmentIssues(hash, rows, a + 1, b, Some(rows[a].entry), shift);
      ShiftedRow(hash, rows, a, prev, shift);
      RegroupIssues(
        if shift != 0 then [BadSequence(a + 1, a + 1 + shift)] else [],
        if prev == PrevOf(rows, a) then [] else [BadPrev(a + 1)], Misplaced(a + 1, b, shift, true));
    }
  }

  lemma ShiftedRow(hash: RowHasher, rows: seq<Row>, a: nat, prev: Option<string>, shift: int)
    requires Intact(hash, rows) && a < |rows|
    ensures RowIssues(hash, rows[a], prev, a + 1 + shift)
      == (if shift != 0 then [BadSequence(a + 1, a + 1 + shift)] else [])
         + (if prev == PrevOf(rows, a) then [] else [BadPrev(a + 1)])
  {
    assert RowOk(hash, rows, a);
  }

  lemma RegroupIssues(x: seq<Issue>, y: seq<Issue>, z: seq<Issue>)
    ensures (x + y) + z == x + (y + z)
  {
  }

  /** In a verifying log no row's hash is the one the row links to. */
  lemma LinksDiffer(sha: Sha, rows: seq<Row>, k: nat)
    requires Injective(sha) && Intact(Hasher(sha), rows) && AllClean(r => ReservedFree(r), rows) && k < |rows|
    ensures PrevOf(rows, k) != Some(rows[k].entry)
  {
    if k > 0 {
      assert RowOk(Hasher(sha), rows, k) && RowOk(Hasher(sha), rows, k - 1);
      var clean := (r: Row) => ReservedFree(r);
      assert clean(rows[k]) && clean(rows[k - 1]);
      if rows[k].entry == rows[k - 1].entry {
        RowHashDetermines(sha, rows[k], rows[k - 1]);
      }
    }
  }

  /** The log as the verifier reads it, ordered by number, once row `k` has become `r` under a free number. */
  function Reordered(rows: seq<Row>, k: nat, r: Row): seq<Row>
    requires k < |rows|
  {
    if r.sequence > |rows| then rows[..k] + (rows[k + 1..] + [r])
    else if r.sequence < 1 then [r] + (rows[..k] + rows[k + 1..])
    else rows[k := r]
  }

  predicate Ascending(rows: seq<Row>) {
    forall i, j :: 0 <= i < j < |rows| ==> rows[i].sequence < rows[j].sequence
  }

  /** The numbers of a verifying log have no gaps, so an edited row keeps its own or moves to one end. */
  lemma ReorderedIsOrdered(hash: RowHasher, rows: seq<Row>, k: nat, r: Row)
    requires Intact(hash, rows) && k < |rows|
    requires forall i :: 0 <= i < |rows| && i != k ==> rows[i].sequence != r.sequence
    ensures Ascending(Reordered(rows, k, r))
    ensures multiset(Reordered(rows, k, r)) == multiset(rows[k := r])
  {
    forall i | 0 <= i < |rows| ensures rows[i].sequence == i + 1 {
      assert RowOk(hash, rows, i);
    }
    if 1 <= r.sequence <= |rows| {
      assert rows[r.sequence - 1].sequence == r.sequence;
    }
    RestAscends(rows, k, r);
    assert rows[k := r] == rows[..k] + ([r] + rows[k + 1..]);
  }

  lemma RestAscends(rows: seq<Row>, k: nat, r: Row)
    requires k < |rows| && forall i :: 0 <= i < |rows| ==> rows[i].sequence == i + 1
    requires r.sequence < 1 || r.sequence > |rows| || r.sequence == k + 1
    ensures Ascending(Reordered(rows, k, r))
  {
    var rest := rows[..k] + rows[k + 1..];
    forall i | 0 <= i < |rest| ensures rest[i].sequence == if i < k then i + 1 else i + 2 {
    }
    assert rows[..k] + (rows[k + 1..] + [r]) == rest + [r];
  }

  /**
   * The whole report on a verifying log in which one row has got a number past the end or before the
   * start, its stored hash kept: the rows that stand elsewhere, the broken links and the edited row.
   */
  lemma MovedRowIsReported(sha: Sha, rows: seq<Row>, k: nat, r: Row)
    requires Injective(sha) && Issues(Hasher(sha), rows, None, 1) == [] && k < |rows|
    requires AllClean(x => ReservedFree(x), rows) && ReservedFree(r)
    requires (r.sequence < 1 || r.sequence > |rows|) && r.entry == rows[k].entry
    ensures var n := |rows|;
      var last := if k < n - 1 then Some(rows[n - 1].entry) else PrevOf(rows, k);
      Issues(Hasher(sha), Reordered(rows, k, r), None, 1) ==
        if r.sequence > n then
          Misplaced(k + 1, n, -1, false)
          + ([BadSequence(r.sequence, n)]
             + ((if r.prev != last then [BadPrev(r.sequence)] else []) + [BadEntry(r.sequence)]))
        else
          ([BadSequence(r.sequence, 1)]
           + ((if r.prev != None then [BadPrev(r.sequence)] else []) + [BadEntry(r.sequence)]))
          + (Misplaced(0, k, 1, false) + Misplaced(k + 1, n, 0, k == 0))
  {
    NoIssuesIffIntact(Hasher(sha), rows);
    MovedRowUnhashed(sha, rows, k, r);
    LinksDiffer(sha, rows, k);
    if r.sequence > |rows| {
      MovedToEnd(Hasher(sha), rows, k, r);
    } else {
      MovedToStart(Hasher(sha), rows, k, r);
    }
  }

  lemma MovedRowUnhashed(sha: Sha, rows: seq<Row>, k: nat, r: Row)
    requires Injective(sha) && Intact(Hasher(sha), rows) && k < |rows|
    requires AllClean(x => ReservedFree(x), rows) && ReservedFree(r)
    requires (r.sequence < 1 || r.sequence > |rows|) && r.entry == rows[k].entry
    ensures Hasher(sha)(r) != r.entry
  {
    assert RowOk(Hasher(sha), rows, k);
    var clean := (x: Row) => ReservedFree(x);
    assert clean(rows[k]);
    if Hasher(sha)(r) == r.entry {
      RowHashDetermines(sha, r, rows[k]);
    }
  }

  lemma OneRowIssues(hash: RowHasher, r: Row, prev: Option<string>, n: int)
    ensures Issues(hash, [r], prev, n) == RowIssues(hash, r, prev, n)
  {
    assert [r][1..] == [];
    assert Issues(hash, [], Some(r.entry), n + 1) == [];
  }

  lemma MovedToEnd(hash: RowHasher, rows: seq<Row>, k: nat, r: Row)
    requires Intact(hash, rows) && k < |rows| && PrevOf(rows, k) != Some(rows[k].entry)
    ensures var n := |rows|;
      Issues(hash, rows[..k] + (rows[k + 1..] + [r]), None, 1)
      == Misplaced(k + 1, n, -1, false)
         + RowIssues(hash, r, if k < n - 1 then Some(rows[n - 1].entry) else PrevOf(rows, k), n)
  {
    PrefixThen(hash, rows, k, rows[k + 1..] + [r]);
    LaterRows(hash, rows, k + 1, PrevOf(rows, k), -1, [r]);
    OneRowIssues(hash, r, if k < |rows| - 1 then Some(rows[|rows| - 1].entry) else PrevOf(rows, k), |rows|);
  }

  /** The first rows of an intact log raise nothing, whatever follows. */
  lemma PrefixThen(hash: RowHasher, rows: seq<Row>, k: nat, rest: seq<Row>)
    requires Intact(hash, rows) && k <= |rows|
    ensures Issues(hash, rows[..k] + rest, None, 1) == Issues(hash, rest, PrevOf(rows, k), k + 1)
  {
    IntactPrefix(hash, rows, k);
    NoIssuesIffIntact(hash, rows[..k]);
    IssuesConcat(hash, rows[..k], rest, None, 1);
  }

  /** The rows from `a` on, read `shift` places later, and what follows them. */
  lemma LaterRows(hash: RowHasher, rows: seq<Row>, a: nat, prev: Option<string>, shift: int, rest: seq<Row>)
    requires Intact(hash, rows) && a <= |rows|
    ensures Issues(hash, rows[a..] + rest, prev, a + 1 + shift)
      == Misplaced(a, |rows|, shift, prev == PrevOf(rows, a))
         + Issues(hash, rest, if a < |rows| then Some(rows[|rows| - 1].entry) else prev, |rows| + 1 + shift)
  {
    IssuesConcat(hash, rows[a..], rest, prev, a + 1 + shift);
    assert rows[a..] == rows[a..|rows|];
    SegmentIssues(hash, rows, a, |rows|, prev, shift);
  }

  lemma MovedToStart(hash: RowHasher, rows: seq<Row>, k: nat, r: Row)
    requires Intact(hash, rows) && k < |rows| && PrevOf(rows, k) != Some(rows[k].entry) && r.entry == rows[k].entry
    ensures Issues(hash, [r] + (rows[..k] + rows[k + 1..]), None, 1)
      == RowIssues(hash, r, None, 1) + (Misplaced(0, k, 1, false) + Misplaced(k + 1, |rows|, 0, k == 0))
  {
    FirstRow(hash, r, rows[..k] + rows[k + 1..]);
    EarlierRows(hash, rows, k, r.entry, rows[k + 1..]);
    RowsPastGap(hash, rows, k, if k == 0 then Some(r.entry) else Some(rows[k - 1].entry));
  }

  lemma FirstRow(hash: RowHasher, r: Row, rest: seq<Row>)
    ensures Issues(hash, [r] + rest, None, 1) == RowIssues(hash, r, None, 1) + Issues(hash, rest, Some(r.entry), 2)
  {
    assert ([r] + rest)[0] == r && ([r] + rest)[1..] == rest;
  }

  /** The rows after a missing one, in their own places. */
  lemma RowsPastGap(hash: RowHasher, rows: seq<Row>, k: nat, prev: Option<string>)
    requires Intact(hash, rows) && k < |rows|
    ensures Issues(hash, rows[k + 1..], prev, k + 2) == Misplaced(k + 1, |rows|, 0, prev == Some(rows[k].entry))
  {
    assert rows[k + 1..] == rows[k + 1..|rows|];
    SegmentIssues(hash, rows, k + 1, |rows|, prev, 0);
  }

  /** The first rows, read one place later behind a row they do not link to, and what follows them. */
  lemma EarlierRows(hash: RowHasher, rows: seq<Row>, k: nat, entry: string, rest: seq<Row>)
    requires Intact(hash, rows) && k <= |rows|
    ensures Issues(hash, rows[..k] + rest, Some(entry), 2)
      == Misplaced(0, k, 1, false) + Issues(hash, rest, if k == 0 then Some(entry) else Some(rows[k - 1].entry), k + 2)
  {
    IssuesConcat(hash, rows[..k], rest, Some(entry), 2);
    assert rows[..k] == rows[0..k];
    SegmentIssues(hash, rows, 0, k, Some(entry), 1);
  }

  // ---- What the hash covers when a payload repeats a reserved key ----

  /** The columns of a row, and the constant schema, as keys of the hashed material. */
  datatype Column = Schema | Sequence | PrevHash | Ts | Kind | CustomerId

  function ColumnName(c: Column): string {
    match c
    case Schema => "schema" case Sequence => "sequence" case PrevHash => "prev_hash"
    case Ts => "ts" case Kind => "type" case CustomerId => "customer_id"
  }

  function ColumnValue(r: Row, c: Column): Json {
    match c
    case Schema => JStr("clayseal.audit.v1")
    case Sequence => JInt(r.sequence)
    case PrevHash => PrevJson(r.prev)
    case Ts => JStr(r.ts)
    case Kind => JStr(r.kind)
    case CustomerId => JStr(r.customer)
  }

  /** What the material shows for a column: the payload's value if it has one under that key. */
  function Shown(r: Row, c: Column): Json {
    if ColumnName(c) in r.payload then r.payload[ColumnName(c)] else ColumnValue(r, c)
  }

  predicate SameAt(p: map<string, Json>, q: map<string, Json>, key: string) {
    (key in p <==> key in q) && (key in p && key in q ==> p[key] == q[key])
  }

  ghost predicate IsColumn(key: string) {
    exists c :: ColumnName(c) == key
  }

  /** The rows show the same in every column, and have the same payload under all other keys but one. */
  ghost predicate SameShown(a: Row, b: Row) {
    && (forall c: Column :: Shown(a, c) == Shown(b, c))
    && (forall key :: !IsColumn(key) && key != "entry_hash" ==> SameAt(a.payload, b.payload, key))
  }

  lemma MaterialColumn(r: Row, c: Column)
    ensures ColumnName(c) in Material(r) && Material(r)[ColumnName(c)] == Shown(r, c)
    ensures ColumnName(c) != "entry_hash"
  {
    match c { case Schema => case Sequence => case PrevHash => case Ts => case Kind => case CustomerId => }
  }

  lemma MaterialElsewhere(r: Row, key: string)
    requires !IsColumn(key)
    ensures SameAt(Material(r), r.payload, key)
  {
    assert ColumnName(Schema) == "schema" && ColumnName(Sequence) == "sequence" && ColumnName(PrevHash) == "prev_hash";
    assert ColumnName(Ts) == "ts" && ColumnName(Kind) == "type" && ColumnName(CustomerId) == "customer_id";
  }

  lemma SameMaterialIffShown(a: Row, b: Row)
    ensures Material(a) - {"entry_hash"} == Material(b) - {"entry_hash"} <==> SameShown(a, b)
  {
    var m, n := Material(a) - {"entry_hash"}, Material(b) - {"entry_hash"};
    forall c: Column ensures ColumnName(c) in m && m[ColumnName(c)] == Shown(a, c)
      ensures ColumnName(c) in n && n[ColumnName(c)] == Shown(b, c)
    {
      MaterialColumn(a, c);
      MaterialColumn(b, c);
    }
    forall key | !IsColumn(key) && key != "entry_hash"
      ensures SameAt(m, a.payload, key) && SameAt(n, b.payload, key)
    {
      MaterialElsewhere(a, key);
      MaterialElsewhere(b, key);
    }
    if SameShown(a, b) {
      forall key ensures SameAt(m, n, key) {
        if IsColumn(key) {
          var c :| ColumnName(c) == key;
          assert Shown(a, c) == Shown(b, c);
        } else if key != "entry_hash" {
          assert SameAt(m, a.payload, key) && SameAt(n, b.payload, key) && SameAt(a.payload, b.payload, key);
        }
      }
      SameEverywhere(m, n);
    }
  }

  lemma SameEverywhere(p: map<string, Json>, q: map<string, Json>)
    requires forall key :: SameAt(p, q, key)
    ensures p == q
  {
    assert forall key :: key in p <==> key in q by {
      forall key ensures key in p <==> key in q {
        assert SameAt(p, q, key);
      }
    }
    forall key | key in p ensures p[key] == q[key] {
      assert SameAt(p, q, key);
    }
  }

  /** Two rows have the same hash exactly when they show the same. */
  lemma SameHashIffShown(sha: Sha, a: Row, b: Row)
    requires Injective(sha)
    ensures RowHash(sha, a) == RowHash(sha, b) <==> SameShown(a, b)
  {
    SameMaterialIffShown(a, b);
    if RowHash(sha, a) == RowHash(sha, b) {
      EqualMaterial(sha, Material(a), Material(b));
    }
  }

  /**
   * Rows with the same payload have the same hash exactly when, column by column, the payload holds the
   * column's key or the rows agree on the column.
   */
  lemma ReservedKeyUncoversColumn(sha: Sha, a: Row, b: Row)
    requires Injective(sha) && a.payload == b.payload
    ensures RowHash(sha, a) == RowHash(sha, b) <==>
      && ("sequence" in a.payload || a.sequence == b.sequence)
      && ("prev_hash" in a.payload || a.prev == b.prev)
      && ("ts" in a.payload || a.ts == b.ts)
      && ("type" in a.payload || a.kind == b.kind)
      && ("customer_id" in a.payload || a.customer == b.customer)
  {
    SameHashIffShown(sha, a, b);
    SamePayloadShown(a, b);
  }

  lemma SamePayloadShown(a: Row, b: Row)
    requires a.payload == b.payload
    ensures SameShown(a, b) <==>
      && ("sequence" in a.payload || a.sequence == b.sequence)
      && ("prev_hash" in a.payload || a.prev == b.prev)
      && ("ts" in a.payload || a.ts == b.ts)
      && ("type" in a.payload || a.kind == b.kind)
      && ("customer_id" in a.payload || a.customer == b.customer)
  {
    assert Shown(a, Schema) == Shown(b, Schema);
    assert Shown(a, Sequence) == Shown(b, Sequence) <==> ("sequence" in a.payload || a.sequence == b.sequence);
    assert Shown(a, PrevHash) == Shown(b, PrevHash) <==> ("prev_hash" in a.payload || a.prev == b.prev);
    assert Shown(a, Ts) == Shown(b, Ts) <==> ("ts" in a.payload || a.ts == b.ts);
    assert Shown(a, Kind) == Shown(b, Kind) <==> ("type" in a.payload || a.kind == b.kind);
    assert Shown(a, CustomerId) == Shown(b, CustomerId) <==> ("customer_id" in a.payload || a.customer == b.customer);
    if && ("sequence" in a.payload || a.sequence == b.sequence) && ("prev_hash" in a.payload || a.prev == b.prev)
       && ("ts" in a.payload || a.ts == b.ts) && ("type" in a.payload || a.kind == b.kind)
       && ("customer_id" in a.payload || a.customer == b.customer) {
      forall c: Column ensures Shown(a, c) == Shown(b, c) {
        match c { case Schema => case Sequence => case PrevHash => case Ts => case Kind => case CustomerId => }
      }
    }
  }

  /**
   * An edit of one row of a verifying log that keeps its number, link and stored hash goes unreported
   * exactly when the edited row shows what the row showed.
   */
  lemma UnreportedEditIff(sha: Sha, rows: seq<Row>, k: nat, r: Row)
    requires Injective(sha) && Issues(Hasher(sha), rows, None, 1) == [] && k < |rows|
    requires r.sequence == rows[k].sequence && r.prev == rows[k].prev && r.entry == rows[k].entry
    ensures Issues(Hasher(sha), rows[k := r], None, 1) == [] <==> SameShown(r, rows[k])
    ensures r.payload == rows[k].payload ==>
      (Issues(Hasher(sha), rows[k := r], None, 1) == [] <==>
        && ("ts" in r.payload || r.ts == rows[k].ts)
        && ("type" in r.payload || r.kind == rows[k].kind)
        && ("customer_id" in r.payload || r.customer == rows[k].customer))
  {
    NoIssuesIffIntact(Hasher(sha), rows);
    ReplacedRowIssues(Hasher(sha), rows, k, r);
    assert RowOk(Hasher(sha), rows, k);
    SameHashIffShown(sha, r, rows[k]);
    if r.payload == rows[k].payload {
      SamePayloadShown(r, rows[k]);
    }
  }

  // ---- Concurrent appends ----

  const APPEND_RETRIES: nat := 5

  /** Where one `record_event` call stands; `attempt` counts from zero. */
  datatype Writer =
    | Reading(attempt: nat)
    | Inserting(attempt: nat, last: Option<Row>)
    | Returned(row: Row)
    | Raised

  /** The table, keyed by its primary key, and the calls that have started. */
  datatype State = State(table: map<int, Row>, writers: map<int, Writer>)

  /**
   * The atomic steps: a call starts, reads the last row, or inserts with the time it reads; or its
   * database operation fails. Any number of processes take them in any order.
   */
  datatype Action = Start(w: int) | ReadLast(w: int) | Insert(w: int, event: Event) | DbError(w: int)

  ghost predicate IsLastKey(table: map<int, Row>, k: int) {
    k in table && forall j :: j in table ==> j <= k
  }

  /** `order_by(sequence.desc()).limit(1)`. */
  ghost function LastRow(table: map<int, Row>): Option<Row> {
    if k :| IsLastKey(table, k) then Some(table[k]) else None
  }

  /** The row that an attempt builds from the last row it has read. */
  function NewRow(hash: RowHasher, last: Option<Row>, e: Event): Row {
    var row := Row(
      if last.Some? then last.value.sequence + 1 else 1, e.customer, e.kind, e.ts, e.fields,
      if last.Some? then Some(last.value.entry) else None, "");
    row.(entry := hash(row))
  }

  function AfterFailure(attempt: nat): Writer {
    if attempt == APPEND_RETRIES - 1 then Raised else Reading(attempt + 1)
  }

  /** Steps that are not enabled change nothing; a taken primary key is an integrity error. */
  ghost function Step(hash: RowHasher, s: State, a: Action): State {
    match a
    case Start(w) =>
      if w in s.writers then s else s.(writers := s.writers[w := Reading(0)])
    case ReadLast(w) =>
      if w in s.writers && s.writers[w].Reading?
      then s.(writers := s.writers[w := Inserting(s.writers[w].attempt, LastRow(s.table))])
      else s
    case Insert(w, e) =>
      if w in s.writers && s.writers[w].Inserting? then
        var row := NewRow(hash, s.writers[w].last, e);
        if row.sequence in s.table
        then s.(writers := s.writers[w := AfterFailure(s.writers[w].attempt)])
        else State(s.table[row.sequence := row], s.writers[w := Returned(row)])
      else s
    case DbError(w) =>
      if w in s.writers && (s.writers[w].Reading? || s.writers[w].Inserting?)
      then s.(writers := s.writers[w := AfterFailure(s.writers[w].attempt)])
      else s
  }

  ghost function Run(hash: RowHasher, s: State, actions: seq<Action>): State {
    if actions == [] then s
    else Step(hash, Run(hash, s, actions[..|actions| - 1]), actions[|actions| - 1])
  }

  /** The row numbered `k` of a table whose numbers start at 1. */
  ghost predicate Linked(hash: RowHasher, table: map<int, Row>, k: int)
    requires k in table
  {
    && table[k].sequence == k
    && table[k].entry == hash(table[k])
    && (if k == 1 then table[k].prev == None
        else k - 1 in table && table[k].prev == Some(table[k - 1].entry))
  }

  ghost predicate Numbered(table: map<int, Row>) {
    forall k {:trigger k in table} :: k in table <==> 1 <= k <= |table|
  }

  ghost predicate AllLinked(hash: RowHasher, table: map<int, Row>) {
    forall k {:trigger Linked(hash, table, k)} :: k in table ==> Linked(hash, table, k)
  }

  ghost predicate Chained(hash: RowHasher, table: map<int, Row>) {
    Numbered(table) && AllLinked(hash, table)
  }

  ghost function ReturnedCalls(s: State): set<int> {
    set w | w in s.writers && s.writers[w].Returned?
  }

  /** What an unfinished or finished call knows about the table. */
  ghost predicate WriterOk(base: map<int, Row>, table: map<int, Row>, writer: Writer) {
    match writer
    case Reading(n) => n < APPEND_RETRIES
    case Inserting(n, last) =>
      n < APPEND_RETRIES && (last.Some? ==> last.value.sequence in table && table[last.value.sequence] == last.value)
    case Returned(row) => row.sequence in table && row.sequence !in base && table[row.sequence] == row
    case Raised => true
  }

  ghost predicate Extends(base: map<int, Row>, table: map<int, Row>) {
    forall k :: k in base ==> k in table && table[k] == base[k]
  }

  ghost predicate WritersOk(base: map<int, Row>, s: State) {
    forall w :: w in s.writers ==> WriterOk(base, s.table, s.writers[w])
  }

  ghost predicate Owned(base: map<int, Row>, s: State) {
    forall k :: k in s.table && k !in base ==> exists w :: w in s.writers && s.writers[w] == Returned(s.table[k])
  }

  ghost predicate OwnersDiffer(s: State) {
    forall v, w :: v in ReturnedCalls(s) && w in ReturnedCalls(s) && v != w
      ==> s.writers[v].row.sequence != s.writers[w].row.sequence
  }

  /**
   * The table is a chain that extends `base`; every row beyond `base` belongs to exactly one returned
   * call, and calls that have not returned own no row.
   */
  ghost predicate Inv(hash: RowHasher, base: map<int, Row>, s: State) {
    && Chained(hash, s.table) && Extends(base, s.table)
    && WritersOk(base, s) && Owned(base, s) && OwnersDiffer(s)
    && |s.table| == |base| + |ReturnedCalls(s)|
  }

  lemma LastRowOfChain(hash: RowHasher, table: map<int, Row>)
    requires Chained(hash, table)
    ensures LastRow(table) == if |table| == 0 then None else Some(table[|table|])
  {
    if |table| != 0 {
      assert IsLastKey(table, |table|);
    }
    forall k | IsLastKey(table, k) ensures k == |table| {
      assert |table| > 0 ==> |table| in table;
    }
  }

  lemma StillLinked(hash: RowHasher, table: map<int, Row>, row: Row, k: int)
    requires row.sequence !in table && k in table && Linked(hash, table, k)
    ensures Linked(hash, table[row.sequence := row], k)
  {
  }

  lemma NewlyLinked(hash: RowHasher, table: map<int, Row>, row: Row, n: int)
    requires n >= 0 && n + 1 !in table && (n > 0 ==> n in table)
    requires row.sequence == n + 1 && row.entry == hash(row)
    requires row.prev == if n == 0 then None else Some(table[n].entry)
    ensures Linked(hash, table[n + 1 := row], n + 1)
  {
  }

  lemma NumbersGrow(table: map<int, Row>, row: Row)
    requires Numbered(table)
    ensures |table| + 1 !in table && (|table| > 0 ==> |table| in table)
    ensures Numbered(table[|table| + 1 := row]) && |table[|table| + 1 := row]| == |table| + 1
  {
    SizeWithKey(table, |table| + 1, row);
  }

  lemma SizeWithKey(table: map<int, Row>, n: int, row: Row)
    requires n !in table
    ensures |table[n := row]| == |table| + 1
  {
    assert table[n := row].Keys == table.Keys + {n};
    assert |table.Keys + {n}| == |table.Keys| + 1;
  }

  lemma LinksGrow(hash: RowHasher, table: map<int, Row>, row: Row, n: int)
    requires AllLinked(hash, table) && n >= 0 && n + 1 !in table && (n > 0 ==> n in table)
    requires row.sequence == n + 1 && row.entry == hash(row)
    requires row.prev == if n == 0 then None else Some(table[n].entry)
    ensures AllLinked(hash, table[n + 1 := row])
  {
    var next := table[n + 1 := row];
    NewlyLinked(hash, table, row, n);
    forall k | k in next ensures Linked(hash, next, k) {
      if k != n + 1 {
        StillLinked(hash, table, row, k);
      }
    }
  }

  lemma ChainGrows(hash: RowHasher, table: map<int, Row>, row: Row)
    requires Numbered(table) && AllLinked(hash, table)
    requires row.sequence == |table| + 1 && row.entry == hash(row)
    requires row.prev == if |table| == 0 then None else Some(table[|table|].entry)
    ensures Chained(hash, table[row.sequence := row]) && |table[row.sequence := row]| == |table| + 1
  {
    NumbersGrow(table, row);
    LinksGrow(hash, table, row, |table|);
  }

  /** An insert whose number is free continues the chain: the row it read is still the last one. */
  lemma InsertKeepsInv(hash: RowHasher, base: map<int, Row>, s: State, w: int, e: Event)
    requires Inv(hash, base, s) && w in s.writers && s.writers[w].Inserting?
    requires NewRow(hash, s.writers[w].last, e).sequence !in s.table
    requires hash(NewRow(hash, s.writers[w].last, e)) == NewRow(hash, s.writers[w].last, e).entry
    ensures Inv(hash, base, Step(hash, s, Insert(w, e)))
  {
    var last := s.writers[w].last;
    var row := NewRow(hash, last, e);
    var n := row.sequence;
    assert WriterOk(base, s.table, s.writers[w]);
    if last.Some? {
      assert last.value.sequence in s.table && n !in s.table;
    }
    assert n == |s.table| + 1;
    ChainGrows(hash, s.table, row);
    OwnersGrow(base, s, w, row);
  }

  lemma OwnersGrow(base: map<int, Row>, s: State, w: int, row: Row)
    requires Extends(base, s.table) && WritersOk(base, s) && Owned(base, s) && OwnersDiffer(s)
    requires w in s.writers && !s.writers[w].Returned? && row.sequence !in s.table
    ensures var t := State(s.table[row.sequence := row], s.writers[w := Returned(row)]);
      && Extends(base, t.table) && WritersOk(base, t) && Owned(base, t) && OwnersDiffer(t)
      && |ReturnedCalls(t)| == |ReturnedCalls(s)| + 1
  {
    var t := State(s.table[row.sequence := row], s.writers[w := Returned(row)]);
    assert ReturnedCalls(t) == ReturnedCalls(s) + {w} && w !in ReturnedCalls(s);
    assert WritersOk(base, t) by {
      forall v | v in t.writers ensures WriterOk(base, t.table, t.writers[v]) {
        if v != w { assert WriterOk(base, s.table, s.writers[v]); }
      }
    }
    assert Owned(base, t) by {
      forall k | k in t.table && k !in base ensures exists v :: v in t.writers && t.writers[v] == Returned(t.table[k]) {
        if k == row.sequence {
          assert t.writers[w] == Returned(row);
        } else {
          var v :| v in s.writers && s.writers[v] == Returned(s.table[k]);
          assert t.writers[v] == Returned(t.table[k]);
        }
      }
    }
    assert OwnersDiffer(t) by {
      forall v | v in ReturnedCalls(s) ensures s.writers[v].row.sequence != row.sequence {
        assert WriterOk(base, s.table, s.writers[v]);
      }
    }
  }

  /** Steps other than a successful insert only move one call that owns no row. */
  lemma MoveKeepsInv(hash: RowHasher, base: map<int, Row>, s: State, w: int, next: Writer)
    requires Inv(hash, base, s) && WriterOk(base, s.table, next) && !next.Returned?
    requires w in s.writers ==> !s.writers[w].Returned?
    ensures Inv(hash, base, s.(writers := s.writers[w := next]))
  {
    var t := s.(writers := s.writers[w := next]);
    assert ReturnedCalls(t) == ReturnedCalls(s);
    assert Owned(base, t) by {
      forall k | k in t.table && k !in base ensures exists v :: v in t.writers && t.writers[v] == Returned(t.table[k]) {
        var v :| v in s.writers && s.writers[v] == Returned(s.table[k]);
        assert t.writers[v] == Returned(t.table[k]);
      }
    }
  }

  /** The hash leaves the stored hash itself out, as `_record_hash` does. */
  ghost predicate IgnoresEntry(hash: RowHasher) {
    forall r: Row, h :: hash(r.(entry := h)) == hash(r)
  }

  lemma HasherIgnoresEntry(sha: Sha)
    ensures IgnoresEntry(Hasher(sha))
  {
    forall r: Row, h ensures Hasher(sha)(r.(entry := h)) == Hasher(sha)(r) {
      assert Material(r.(entry := h)) == Material(r);
    }
  }

  lemma StepKeepsInv(hash: RowHasher, base: map<int, Row>, s: State, a: Action)
    requires IgnoresEntry(hash) && Inv(hash, base, s)
    ensures Inv(hash, base, Step(hash, s, a))
    ensures forall k :: k in s.table ==> k in Step(hash, s, a).table && Step(hash, s, a).table[k] == s.table[k]
  {
    var w := a.w;
    if w in s.writers {
      assert WriterOk(base, s.table, s.writers[w]);
    }
    match a {
      case Start(_) =>
        if w !in s.writers { MoveKeepsInv(hash, base, s, w, Reading(0)); }
      case ReadLast(_) =>
        if w in s.writers && s.writers[w].Reading? {
          LastRowOfChain(hash, s.table);
          assert |s.table| != 0 ==> |s.table| in s.table && Linked(hash, s.table, |s.table|);
          MoveKeepsInv(hash, base, s, w, Inserting(s.writers[w].attempt, LastRow(s.table)));
        }
      case Insert(_, e) =>
        if w in s.writers && s.writers[w].Inserting? {
          var row := NewRow(hash, s.writers[w].last, e);
          if row.sequence in s.table {
            MoveKeepsInv(hash, base, s, w, AfterFailure(s.writers[w].attempt));
          } else {
            assert hash(row.(entry := "")) == hash(row);
            InsertKeepsInv(hash, base, s, w, e);
          }
        }
      case DbError(_) =>
        if w in s.writers && (s.writers[w].Reading? || s.writers[w].Inserting?) {
          MoveKeepsInv(hash, base, s, w, AfterFailure(s.writers[w].attempt));
        }
    }
  }

  ghost function Rows(table: map<int, Row>): seq<Row>
    requires forall k :: 1 <= k <= |table| ==> k in table
  {
    seq(|table|, i requires 0 <= i < |table| => table[i + 1])
  }

  lemma ChainVerifies(hash: RowHasher, table: map<int, Row>)
    requires Chained(hash, table)
    ensures forall k :: 1 <= k <= |table| ==> k in table
    ensures Issues(hash, Rows(table), None, 1) == []
  {
    forall k | 1 <= k <= |table| ensures k in table {
    }
    var rows := Rows(table);
    forall i | 0 <= i < |rows| ensures RowOk(hash, rows, i) {
      assert i + 1 in table && Linked(hash, table, i + 1);
    }
    NoIssuesIffIntact(hash, rows);
  }

  lemma {:induction false} RunKeepsInv(hash: RowHasher, base: map<int, Row>, actions: seq<Action>)
    requires IgnoresEntry(hash) && Chained(hash, base)
    ensures Inv(hash, base, Run(hash, State(base, map[]), actions))
  {
    if actions == [] {
      assert ReturnedCalls(State(base, map[])) == {};
    } else {
      var init := actions[..|actions| - 1];
      RunKeepsInv(hash, base, init);
      StepKeepsInv(hash, base, Run(hash, State(base, map[]), init), actions[|actions| - 1]);
    }
  }

  /**
   * However any number of calls interleave, the verifier accepts every reachable table, the rows that
   * were there are still there, every call that returned owns one row that nobody else owns, and no
   * other rows were added; in particular a call that raised added none.
   */
  lemma EveryReachableLogVerifies(sha: Sha, base: map<int, Row>, actions: seq<Action>)
    requires Chained(Hasher(sha), base)
    ensures var s := Run(Hasher(sha), State(base, map[]), actions);
      && Inv(Hasher(sha), base, s)
      && (forall k :: 1 <= k <= |s.table| ==> k in s.table)
      && Issues(Hasher(sha), Rows(s.table), None, 1) == []
      && |s.table| == |base| + |ReturnedCalls(s)|
  {
    HasherIgnoresEntry(sha);
    RunKeepsInv(Hasher(sha), base, actions);
    ChainVerifies(Hasher(sha), Run(Hasher(sha), State(base, map[]), actions).table);
  }

  /** What a call leaves behind of the table `mid` that it meets: one more row, made for `e`, or the same. */
  ghost predicate Outcome(mid: map<int, Row>, table: map<int, Row>, e: Event, result: Option<Row>) {
    match result
    case None => table == mid
    case Some(row) =>
      && row.sequence == |mid| + 1
      && table == mid[row.sequence := row]
      && Event(row.customer, row.kind, row.ts, row.payload) == e
  }

  /** Each attempt made met a database error or a collision. */
  predicate AllLost(dbFails: seq<bool>, collided: seq<bool>) {
    |collided| <= |dbFails| && forall i :: 0 <= i < |collided| ==> dbFails[i] || collided[i]
  }

  /** The last attempt made met neither, and each before it met one. */
  predicate FirstGood(dbFails: seq<bool>, collided: seq<bool>) {
    && 0 < |collided| <= |dbFails|
    && AllLost(dbFails, collided[..|collided| - 1])
    && !dbFails[|collided| - 1] && !collided[|collided| - 1]
  }

  lemma LostOrGood(dbFails: seq<bool>, collided: seq<bool>, lost: bool)
    requires AllLost(dbFails, collided) && |collided| < |dbFails|
    ensures
      if !dbFails[|collided|] && !lost then FirstGood(dbFails, collided + [lost])
      else AllLost(dbFails, collided + [lost])
  {
    assert (collided + [lost])[..|collided|] == collided;
  }

  lemma ExtendsOn(a: map<int, Row>, b: map<int, Row>, c: map<int, Row>)
    requires Extends(a, b) && Extends(b, c)
    ensures Extends(a, c)
  {
  }

  lemma CollisionsGrow(collided: seq<bool>, lost: bool, start: nat, before: nat, after: nat)
    requires start <= before <= after && (true in collided ==> before > start) && (lost ==> after > before)
    ensures true in collided + [lost] ==> after > start
  {
  }

  /** A row built from what was read is the next of the chain, if its number is still free. */
  lemma NewRowFits(hash: RowHasher, seen: map<int, Row>, table: map<int, Row>, e: Event)
    requires IgnoresEntry(hash) && Chained(hash, seen) && Chained(hash, table) && Extends(seen, table)
    requires NewRow(hash, LastRow(seen), e).sequence !in table
    ensures var row := NewRow(hash, LastRow(seen), e);
      && row.sequence == |table| + 1 && Chained(hash, table[row.sequence := row])
      && Event(row.customer, row.kind, row.ts, row.payload) == e
  {
    var row := NewRow(hash, LastRow(seen), e);
    LastRowOfChain(hash, seen);
    assert hash(row.(entry := "")) == hash(row);
    assert LastRow(seen).Some? ==> |seen| in seen && Linked(hash, seen, |seen|);
    assert |seen| == |table|;
    ChainGrows(hash, table, row);
  }

  /** Its number is the one after the last row read. */
  lemma NewRowNumber(hash: RowHasher, seen: map<int, Row>, e: Event)
    requires Chained(hash, seen)
    ensures NewRow(hash, LastRow(seen), e).sequence == |seen| + 1
  {
    LastRowOfChain(hash, seen);
    assert LastRow(seen).Some? ==> |seen| in seen && Linked(hash, seen, |seen|);
  }

  /** Two steps of a call that nobody disturbs append its event and return. */
  lemma UndisturbedCallReturns(hash: RowHasher, s: State, w: int, e: Event)
    requires Chained(hash, s.table) && w in s.writers && s.writers[w].Reading?
    ensures var t := Step(hash, Step(hash, s, ReadLast(w)), Insert(w, e));
      && t.writers.Keys == s.writers.Keys && t.writers[w].Returned?
      && Outcome(s.table, t.table, e, Some(t.writers[w].row))
  {
    LastRowOfChain(hash, s.table);
    NewRowNumber(hash, s.table, e);
    var read := Step(hash, s, ReadLast(w));
    assert read.writers[w] == Inserting(s.writers[w].attempt, LastRow(s.table));
    InsertReturns(hash, read, w, e);
  }

  lemma InsertReturns(hash: RowHasher, s: State, w: int, e: Event)
    requires w in s.writers && s.writers[w].Inserting?
    requires Chained(hash, s.table) && NewRow(hash, s.writers[w].last, e).sequence == |s.table| + 1
    ensures var t := Step(hash, s, Insert(w, e));
      && t.writers.Keys == s.writers.Keys && t.writers[w].Returned?
      && Outcome(s.table, t.table, e, Some(t.writers[w].row))
  {
  }

  /** A database error, or a number taken meanwhile, costs a call one of its five attempts and adds nothing. */
  lemma FailedAttempt(hash: RowHasher, s: State, w: int, e: Event, n: nat)
    requires w in s.writers && n < 5
    requires s.writers[w] == Reading(n) || (s.writers[w].Inserting? && s.writers[w].attempt == n)
    ensures Step(hash, s, DbError(w)) == s.(writers := s.writers[w := if n < 4 then Reading(n + 1) else Raised])
    ensures s.writers[w].Inserting? && NewRow(hash, s.writers[w].last, e).sequence in s.table ==>
      Step(hash, s, Insert(w, e)) == Step(hash, s, DbError(w))
  {
  }

  /** A chain that others have extended is as long or longer, and longer if its next number is taken. */
  lemma Grown(hash: RowHasher, before: map<int, Row>, after: map<int, Row>)
    requires Chained(hash, before) && Chained(hash, after) && Extends(before, after)
    ensures |after| >= |before| && (|before| + 1 in after ==> |after| > |before|)
  {
    assert |before| > 0 ==> |before| in before;
  }

  /** The shared table as one `record_event` call meets it. */
  class AuditStore {
    var table: map<int, Row>

    constructor ()
      ensures table == map[]
    {
      table := map[];
    }

    /** Stands for whatever other calls append in the meantime. */
    method OthersAppend(ghost hash: RowHasher)
      requires Chained(hash, table)
      modifies this
      ensures Chained(hash, table) && Extends(old(table), table)
    {
    }

    /** `order_by(sequence.desc()).limit(1)` on a table numbered from 1. */
    method ReadLast(ghost hash: RowHasher) returns (last: Option<Row>)
      requires Chained(hash, table)
      ensures last == LastRow(table)
    {
      LastRowOfChain(hash, table);
      if |table| == 0 {
        last := None;
      } else {
        assert |table| in table;
        last := Some(table[|table|]);
      }
    }

    /**
     * One attempt, with other calls running between its read and its insert. `mid` is the table just
     * before the insert, which goes through unless the database fails or the number has `collided`.
     */
    method TryAppend(hash: RowHasher, e: Event, dbFails: bool)
      returns (result: Option<Row>, ghost mid: map<int, Row>, ghost collided: bool)
      requires IgnoresEntry(hash) && Chained(hash, table)
      modifies this
      ensures Chained(hash, table) && Chained(hash, mid) && Extends(old(table), mid)
      ensures result.Some? <==> !dbFails && !collided
      ensures Outcome(mid, table, e, result)
      ensures Extends(old(table), table)
      ensures |table| >= |mid| >= |old(table)| && (collided ==> |mid| > |old(table)|)
    {
      var last := ReadLast(hash);
      ghost var seen := table;
      OthersAppend(hash);
      var row := NewRow(hash, last, e);
      NewRowNumber(hash, seen, e);
      Grown(hash, seen, table);
      mid, collided := table, row.sequence in table;
      if row.sequence in table || dbFails {
        return None, mid, collided;
      }
      NewRowFits(hash, seen, table, e);
      table := table[row.sequence := row];
      return Some(row), mid, collided;
    }

    /**
     * `record_event`; `dbFails` says which attempts meet a database error and `collided` which of those
     * made lost their number to another call. The first attempt that does neither returns, and without
     * one the fifth raises. A call that returns adds its one row to `mid`, as the next of the chain, and
     * a call that raises adds none.
     */
    method RecordEvent(hash: RowHasher, e: Event, dbFails: seq<bool>)
      returns (result: Option<Row>, ghost mid: map<int, Row>, ghost collided: seq<bool>)
      requires IgnoresEntry(hash) && Chained(hash, table) && |dbFails| == APPEND_RETRIES
      modifies this
      ensures Chained(hash, table)
      ensures Extends(old(table), mid) && Chained(hash, mid)
      ensures Outcome(mid, table, e, result)
      ensures result.Some? ==> 0 < |collided| <= 5 && FirstGood(dbFails, collided)
      ensures result.None? ==> |collided| == |dbFails| == 5 && AllLost(dbFails, collided)
      ensures true in collided ==> |mid| > |old(table)|
    {
      collided := [];
      for attempt := 0 to APPEND_RETRIES
        invariant Chained(hash, table) && Extends(old(table), table) && |table| >= |old(table)|
        invariant |collided| == attempt && AllLost(dbFails, collided)
        invariant true in collided ==> |table| > |old(table)|
      {
        ghost var lost: bool;
        ghost var met := table;
        result, mid, lost := TryAppend(hash, e, dbFails[attempt]);
        ExtendsOn(old(table), met, mid);
        ExtendsOn(old(table), met, table);
        CollisionsGrow(collided, lost, |old(table)|, |met|, |mid|);
        LostOrGood(dbFails, collided, lost);
        collided := collided + [lost];
        if result.Some? {
          return result, mid, collided;
        }
      }
      result, mid := None, table;
    }
  }
}
