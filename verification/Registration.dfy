/** Matching proven selectors to a registration entry, and the lint that looks for ambiguous entries. */
module Registration {
  import opened Collections

  /** A registration entry of one tenant, as far as matching reads it. */
  datatype Entry = Entry(id: string, agentType: string, selectors: seq<string>, createdAt: int)

  function Required(e: Entry): set<string> {
    set s | s in e.selectors
  }

  // ---- Tables ----

  function Ids(es: seq<Entry>): set<string> {
    if es == [] then {} else {es[0].id} + Ids(es[1..])
  }

  /** `id` is the primary key. */
  predicate Keyed(es: seq<Entry>) {
    es != [] ==> es[0].id !in Ids(es[1..]) && Keyed(es[1..])
  }

  lemma {:induction false} MemberId(es: seq<Entry>, e: Entry)
    requires e in es
    ensures e.id in Ids(es)
  {
    HeadOrTail(es, e);
    if e in es[1..] {
      MemberId(es[1..], e);
    }
  }

  lemma {:induction false} SameIdSameEntry(es: seq<Entry>, e: Entry, f: Entry)
    requires Keyed(es) && e in es && f in es && e.id == f.id
    ensures e == f
  {
    HeadOrTail(es, e);
    HeadOrTail(es, f);
    if e in es[1..] && f in es[1..] {
      SameIdSameEntry(es[1..], e, f);
    } else if e in es[1..] {
      MemberId(es[1..], e);
    } else if f in es[1..] {
      MemberId(es[1..], f);
    }
  }

  // ---- Matching ----

  datatype Outcome = NoMatch | Matched(entry: Entry) | Ambiguous(ids: seq<string>)

  function Matching(es: seq<Entry>, presented: set<string>): seq<Entry> {
    if es == [] then []
    else (if Required(es[0]) <= presented then [es[0]] else []) + Matching(es[1..], presented)
  }

  /** The order of the sort key: more listed selectors first, then earlier creation. */
  predicate Precedes(e: Entry, f: Entry) {
    |e.selectors| > |f.selectors| || (|e.selectors| == |f.selectors| && e.createdAt <= f.createdAt)
  }

  function Insert(e: Entry, es: seq<Entry>): seq<Entry> {
    if es == [] || Precedes(e, es[0]) then [e] + es else [es[0]] + Insert(e, es[1..])
  }

  /** A stable sort. */
  function Sort(es: seq<Entry>): seq<Entry> {
    if es == [] then [] else Insert(es[0], Sort(es[1..]))
  }

  function OfLength(es: seq<Entry>, n: nat): seq<Entry> {
    if es == [] then [] else (if |es[0].selectors| == n then [es[0]] else []) + OfLength(es[1..], n)
  }

  function IdList(es: seq<Entry>): seq<string> {
    if es == [] then [] else [es[0].id] + IdList(es[1..])
  }

  /** `_match_entry`. */
  function MatchEntry(es: seq<Entry>, presented: set<string>): Outcome {
    var matches := Sort(Matching(es, presented));
    if matches == [] then NoMatch
    else
      var tied := OfLength(matches, |matches[0].selectors|);
      if |tied| > 1 then Ambiguous(IdList(tied)) else Matched(matches[0])
  }

  /** `e` is covered by the presented selectors and no covered entry lists more. */
  ghost predicate Best(es: seq<Entry>, presented: set<string>, e: Entry) {
    && e in es && Required(e) <= presented
    && forall f :: f in es && Required(f) <= presented ==> |f.selectors| <= |e.selectors|
  }

  lemma {:induction false} MatchingFacts(es: seq<Entry>, presented: set<string>)
    ensures forall e :: e in Matching(es, presented) <==> e in es && Required(e) <= presented
    ensures Ids(Matching(es, presented)) <= Ids(es)
    ensures Keyed(es) ==> Keyed(Matching(es, presented))
  {
    if es != [] {
      var rest := Matching(es[1..], presented);
      MatchingFacts(es[1..], presented);
      assert ([es[0]] + rest)[1..] == rest;
      assert [] + rest == rest;
      forall e ensures e in Matching(es, presented) <==> e in es && Required(e) <= presented {
        HeadOrTail(es, e);
        HeadOrTail([es[0]] + rest, e);
      }
    }
  }

  lemma {:induction false} InsertFacts(e: Entry, es: seq<Entry>)
    ensures forall f :: f in Insert(e, es) <==> f == e || f in es
    ensures Ids(Insert(e, es)) == Ids(es) + {e.id}
    ensures Keyed(es) && e.id !in Ids(es) ==> Keyed(Insert(e, es))
    ensures Insert(e, es) != []
    ensures Insert(e, es)[0] == e || (es != [] && Insert(e, es)[0] == es[0] && !Precedes(e, es[0]))
  {
    if es == [] || Precedes(e, es[0]) {
      assert ([e] + es)[1..] == es;
    } else {
      var rest := Insert(e, es[1..]);
      InsertFacts(e, es[1..]);
      assert ([es[0]] + rest)[1..] == rest;
      forall f ensures f in Insert(e, es) <==> f == e || f in es {
        HeadOrTail(es, f);
        HeadOrTail([es[0]] + rest, f);
      }
    }
  }

  lemma {:induction false} SortFacts(es: seq<Entry>)
    ensures forall e :: e in Sort(es) <==> e in es
    ensures Ids(Sort(es)) == Ids(es) && (Keyed(es) ==> Keyed(Sort(es)))
    ensures Sort(es) == [] <==> es == []
    ensures forall e :: e in es ==> |e.selectors| <= |Sort(es)[0].selectors|
  {
    if es != [] {
      SortFacts(es[1..]);
      InsertFacts(es[0], Sort(es[1..]));
      forall e ensures e in es <==> e == es[0] || e in es[1..] {
        HeadOrTail(es, e);
      }
    }
  }

  lemma {:induction false} OfLengthFacts(es: seq<Entry>, n: nat)
    ensures forall e :: e in OfLength(es, n) <==> e in es && |e.selectors| == n
    ensures Ids(OfLength(es, n)) <= Ids(es) && (Keyed(es) ==> Keyed(OfLength(es, n)))
  {
    if es != [] {
      var rest := OfLength(es[1..], n);
      OfLengthFacts(es[1..], n);
      assert ([es[0]] + rest)[1..] == rest;
      assert [] + rest == rest;
      forall e ensures e in OfLength(es, n) <==> e in es && |e.selectors| == n {
        HeadOrTail(es, e);
        HeadOrTail([es[0]] + rest, e);
      }
    }
  }

  lemma {:induction false} IdListFacts(es: seq<Entry>)
    ensures |IdList(es)| == |es|
    ensures forall i :: 0 <= i < |es| ==> IdList(es)[i] == es[i].id
  {
    if es != [] {
      IdListFacts(es[1..]);
    }
  }

  lemma {:induction false} TwoOrMore(es: seq<Entry>)
    requires Keyed(es)
    ensures |es| > 1 <==> exists e, f :: e in es && f in es && e.id != f.id
  {
    if |es| > 1 {
      MemberId(es[1..], es[1..][0]);
      assert es[0].id != es[1].id;
    } else if |es| == 1 {
      assert forall e :: e in es ==> e == es[0];
    }
  }

  /** The entries that `MatchEntry` weighs against each other. */
  ghost predicate Tied(es: seq<Entry>, presented: set<string>, tied: seq<Entry>) {
    Keyed(tied) && forall e :: e in tied <==> Best(es, presented, e)
  }

  lemma MatchByTies(es: seq<Entry>, presented: set<string>) returns (tied: seq<Entry>)
    requires Keyed(es)
    ensures Tied(es, presented, tied)
    ensures MatchEntry(es, presented) ==
      if tied == [] then NoMatch else if |tied| > 1 then Ambiguous(IdList(tied)) else Matched(tied[0])
  {
    var all := Matching(es, presented);
    var matches := Sort(all);
    MatchingFacts(es, presented);
    SortFacts(all);
    if matches == [] {
      assert forall e :: e !in all;
      return [];
    }
    tied := OfLength(matches, |matches[0].selectors|);
    OfLengthFacts(matches, |matches[0].selectors|);
    assert matches[0] in tied;
  }

  /**
   * What a match means, with no reference to row order or creation time: nothing is covered; one entry
   * lists more selectors than any other that is covered; or the longest covered entries are several,
   * and exactly these are reported.
   */
  lemma MatchMeans(es: seq<Entry>, presented: set<string>)
    requires Keyed(es)
    ensures MatchEntry(es, presented) == NoMatch <==> forall e :: e in es ==> !(Required(e) <= presented)
    ensures forall e :: MatchEntry(es, presented) == Matched(e) <==>
      Best(es, presented, e) && forall f :: Best(es, presented, f) ==> f == e
    ensures MatchEntry(es, presented).Ambiguous? <==>
      exists e, f :: Best(es, presented, e) && Best(es, presented, f) && e.id != f.id
    ensures MatchEntry(es, presented).Ambiguous? ==>
      forall id :: id in MatchEntry(es, presented).ids <==> exists e :: Best(es, presented, e) && e.id == id
  {
    var tied := MatchByTies(es, presented);
    TwoOrMore(tied);
    IdListFacts(tied);
    if tied == [] {
      NothingBest(es, presented);
    } else {
      assert tied[0] in tied;
      assert Best(es, presented, tied[0]);
    }
    forall e | e in tied ensures e.id in IdList(tied) {
      var i :| 0 <= i < |tied| && tied[i] == e;
    }
  }

  /** If anything is covered then something covered is longest. */
  lemma {:induction false} NothingBest(es: seq<Entry>, presented: set<string>)
    requires forall e :: !Best(es, presented, e)
    ensures forall e :: e in es ==> !(Required(e) <= presented)
  {
    var all := Matching(es, presented);
    MatchingFacts(es, presented);
    SortFacts(all);
    if all != [] {
      assert Sort(all)[0] in Sort(all);
      assert Best(es, presented, Sort(all)[0]);
    }
    assert forall e :: e in es && Required(e) <= presented ==> e in all;
  }

  // ---- Order, creation time and more selectors ----

  function NoAge(e: Entry): Entry {
    e.(createdAt := 0)
  }

  /** What a table holds apart from row order and creation times. */
  function Contents(es: seq<Entry>): set<Entry> {
    set e | e in es :: NoAge(e)
  }

  predicate SameOutcome(x: Outcome, y: Outcome) {
    || (x.NoMatch? && y.NoMatch?)
    || (x.Matched? && y.Matched? && NoAge(x.entry) == NoAge(y.entry))
    || (x.Ambiguous? && y.Ambiguous? && (set i | i in x.ids) == (set i | i in y.ids))
  }

  /** The id of an entry that is covered while no covered entry lists more. */
  ghost predicate BestId(contents: set<Entry>, presented: set<string>, id: string) {
    exists e :: e in contents && e.id == id && Required(e) <= presented
      && forall f :: f in contents && Required(f) <= presented ==> |f.selectors| <= |e.selectors|
  }

  lemma BestIds(es: seq<Entry>, presented: set<string>, id: string)
    ensures (exists e :: Best(es, presented, e) && e.id == id) <==> BestId(Contents(es), presented, id)
  {
    assert forall e :: Required(NoAge(e)) == Required(e);
    if e :| Best(es, presented, e) && e.id == id {
      assert NoAge(e) in Contents(es);
    }
    if BestId(Contents(es), presented, id) {
      var x :| x in Contents(es) && x.id == id && Required(x) <= presented
        && forall f :: f in Contents(es) && Required(f) <= presented ==> |f.selectors| <= |x.selectors|;
      var e :| e in es && NoAge(e) == x;
      forall f | f in es && Required(f) <= presented ensures |f.selectors| <= |e.selectors| {
        assert NoAge(f) in Contents(es);
      }
      assert Best(es, presented, e);
    }
  }

  /** The ids of the tied entries depend on nothing but the contents of the table. */
  lemma TiedIds(es: seq<Entry>, presented: set<string>) returns (tied: seq<Entry>)
    requires Keyed(es)
    ensures Keyed(tied) && forall e :: e in tied ==> e in es
    ensures forall id :: id in IdList(tied) <==> BestId(Contents(es), presented, id)
    ensures MatchEntry(es, presented) ==
      if tied == [] then NoMatch else if |tied| > 1 then Ambiguous(IdList(tied)) else Matched(tied[0])
  {
    tied := MatchByTies(es, presented);
    forall id ensures id in IdList(tied) <==> BestId(Contents(es), presented, id) {
      ListedIds(tied, id);
      BestIds(es, presented, id);
    }
  }

  /** The outcome does not depend on the order of the rows nor on when they were created. */
  lemma OrderAndAgeDoNotMatter(a: seq<Entry>, b: seq<Entry>, presented: set<string>)
    requires Keyed(a) && Keyed(b) && Contents(a) == Contents(b)
    ensures SameOutcome(MatchEntry(a, presented), MatchEntry(b, presented))
  {
    var x := TiedIds(a, presented);
    var y := TiedIds(b, presented);
    SizesAgree(x, y);
    if |x| == 1 {
      IdListFacts(x);
      IdListFacts(y);
      assert x[0].id in IdList(x) && y[0].id == x[0].id;
      assert NoAge(x[0]) in Contents(b);
      var f :| f in b && NoAge(f) == NoAge(x[0]);
      SameIdSameEntry(b, f, y[0]);
    }
  }

  lemma ListedIds(es: seq<Entry>, id: string)
    ensures id in IdList(es) <==> exists e :: e in es && e.id == id
  {
    IdListFacts(es);
    if id in IdList(es) {
      var i :| 0 <= i < |es| && IdList(es)[i] == id;
      assert es[i] in es;
    }
    if e :| e in es && e.id == id {
      var i :| 0 <= i < |es| && es[i] == e;
      assert IdList(es)[i] == id;
    }
  }

  /** Keyed lists with the same ids are empty, single or longer together. */
  lemma SizesAgree(x: seq<Entry>, y: seq<Entry>)
    requires Keyed(x) && Keyed(y) && forall id :: id in IdList(x) <==> id in IdList(y)
    ensures (x == [] <==> y == []) && (|x| > 1 <==> |y| > 1)
  {
    SizeCarries(x, y);
    SizeCarries(y, x);
  }

  lemma SizeCarries(x: seq<Entry>, y: seq<Entry>)
    requires Keyed(x) && Keyed(y) && forall id :: id in IdList(x) ==> id in IdList(y)
    ensures (x != [] ==> y != []) && (|x| > 1 ==> |y| > 1)
  {
    IdListFacts(x);
    IdListFacts(y);
    TwoOrMore(x);
    if x != [] {
      assert IdList(x)[0] in IdList(x);
    }
    if |x| > 1 {
      MemberId(x[1..], x[1]);
      assert IdList(x)[0] != IdList(x)[1] && IdList(x)[1] in IdList(x);
    }
  }

  /** Presenting more selectors still matches something, and nothing less specific. */
  lemma MoreSelectorsNeverLessSpecific(es: seq<Entry>, p: set<string>, q: set<string>, e: Entry)
    requires Keyed(es) && p <= q && MatchEntry(es, p) == Matched(e)
    ensures match MatchEntry(es, q)
      case NoMatch => false
      case Matched(f) => |f.selectors| >= |e.selectors|
      case Ambiguous(ids) => forall f :: f in es && f.id in ids ==> |f.selectors| >= |e.selectors|
  {
    MatchMeans(es, p);
    MatchMeans(es, q);
    forall f, g | f in es && Best(es, q, g) && g.id == f.id ensures f == g {
      SameIdSameEntry(es, f, g);
    }
  }

  // ---- Lint ----

  /** Two entries of equal set size; the rest of a report follows from them. */
  datatype Conflict = Conflict(left: Entry, right: Entry) {
    function Witness(): set<string> {
      Required(left) + Required(right)
    }
  }

  predicate Collide(e: Entry, f: Entry) {
    |Required(e)| == |Required(f)|
  }

  /** The conflicts of the `i`-th entry with those after it and before the `m`-th. */
  function LintOne(es: seq<Entry>, i: nat, m: nat): seq<Conflict>
    requires i < |es| && m <= |es|
  {
    if m <= i + 1 then []
    else LintOne(es, i, m - 1) + if Collide(es[i], es[m - 1]) then [Conflict(es[i], es[m - 1])] else []
  }

  /** The conflicts of the first `n` entries with those after them. */
  function LintUpTo(es: seq<Entry>, n: nat): seq<Conflict>
    requires n <= |es|
  {
    if n == 0 then [] else LintUpTo(es, n - 1) + LintOne(es, n - 1, |es|)
  }

  function Lint(es: seq<Entry>): seq<Conflict> {
    LintUpTo(es, |es|)
  }

  /** The id pairs of all entries before the `n`-th with later ones, and of the `n`-th with those before the `m`-th. */
  function PairsBefore(es: seq<Entry>, n: nat, m: nat): set<set<string>>
    requires n < |es| && m <= |es|
    decreases n, m
  {
    if m > n + 1 then PairsBefore(es, n, m - 1) + {PairOf(es[n], es[m - 1])}
    else if n > 0 then PairsBefore(es, n - 1, |es|)
    else {}
  }

  function PairOf(e: Entry, f: Entry): set<string> {
    {e.id, f.id}
  }

  predicate SeenBefore(seen: set<set<string>>, es: seq<Entry>, n: nat, m: nat)
    requires n < |es| && m <= |es|
  {
    seen <= PairsBefore(es, n, m)
  }

  lemma SeenGrows(seen: set<set<string>>, es: seq<Entry>, i: nat, j: nat)
    requires Keyed(es) && i < j < |es| && SeenBefore(seen, es, i, j)
    ensures PairOf(es[i], es[j]) !in seen
    ensures SeenBefore(seen, es, i, j + 1) && SeenBefore(seen + {PairOf(es[i], es[j])}, es, i, j + 1)
  {
    NotYetRecorded(es, i, j, i, j);
  }

  lemma SeenRow(seen: set<set<string>>, es: seq<Entry>, i: nat)
    requires i < |es| && SeenBefore(seen, es, i, |es|)
    ensures i + 1 < |es| ==> SeenBefore(seen, es, i + 1, i + 2)
  {
  }

  lemma LintOneGrows(es: seq<Entry>, i: nat, j: nat)
    requires i < j < |es|
    ensures LintOne(es, i, j + 1)
         == LintOne(es, i, j) + if Collide(es[i], es[j]) then [Conflict(es[i], es[j])] else []
  {
  }

  /** `lint_registration_entries`. A pair of ids is kept without its order. */
  method LintRegistrationEntries(es: seq<Entry>) returns (conflicts: seq<Conflict>)
    requires Keyed(es)
    ensures conflicts == Lint(es)
  {
    conflicts := [];
    var seenPairs: set<set<string>> := {};
    for i := 0 to |es|
      invariant conflicts == LintUpTo(es, i)
      invariant i < |es| ==> SeenBefore(seenPairs, es, i, i + 1)
    {
      ghost var before := conflicts;
      for j := i + 1 to |es|
        invariant conflicts == before + LintOne(es, i, j)
        invariant SeenBefore(seenPairs, es, i, j)
      {
        var pair := PairOf(es[i], es[j]);
        SeenGrows(seenPairs, es, i, j);
        LintOneGrows(es, i, j);
        if |Required(es[j])| != |Required(es[i])| {
          continue;
        }
        if pair in seenPairs {
          continue;
        }
        seenPairs := seenPairs + {pair};
        conflicts := conflicts + [Conflict(es[i], es[j])];
        assert conflicts == before + LintOne(es, i, j + 1);
      }
      SeenRow(seenPairs, es, i);
    }
  }

  lemma {:induction false} KeyedAt(es: seq<Entry>, i: nat, j: nat)
    requires Keyed(es) && i < j < |es|
    ensures es[i].id != es[j].id
  {
    if i == 0 {
      assert es[1..][j - 1] == es[j];
      MemberId(es[1..], es[j]);
    } else {
      KeyedAt(es[1..], i - 1, j - 1);
    }
  }

  lemma KeyedApart(es: seq<Entry>, i: nat, j: nat)
    requires Keyed(es) && i < |es| && j < |es| && i != j
    ensures es[i].id != es[j].id
  {
    if i < j {
      KeyedAt(es, i, j);
    } else {
      KeyedAt(es, j, i);
    }
  }

  /** Two pairs of positions give two pairs of ids. */
  lemma PairsDiffer(es: seq<Entry>, i: nat, j: nat, n: nat, m: nat)
    requires Keyed(es) && i < j < |es| && n < m < |es| && (i, j) != (n, m)
    ensures PairOf(es[i], es[j]) != PairOf(es[n], es[m])
  {
    var k := if i != n && i != m then i else j;
    KeyedApart(es, k, n);
    KeyedApart(es, k, m);
    assert es[k].id in PairOf(es[i], es[j]) && es[k].id !in PairOf(es[n], es[m]);
  }

  lemma {:induction false} NotYetRecorded(es: seq<Entry>, n: nat, m: nat, i: nat, j: nat)
    requires Keyed(es) && n < |es| && m <= |es| && i < j < |es| && (n < i || (n == i && m <= j))
    ensures PairOf(es[i], es[j]) !in PairsBefore(es, n, m)
    decreases n, m
  {
    if m > n + 1 {
      NotYetRecorded(es, n, m - 1, i, j);
      PairsDiffer(es, i, j, n, m - 1);
    } else if n > 0 {
      NotYetRecorded(es, n - 1, |es|, i, j);
    }
  }

  lemma {:induction false} RowReports(es: seq<Entry>, i: nat, m: nat, j: nat) returns (p: nat)
    requires i < j < m <= |es| && Collide(es[i], es[j])
    ensures p < |LintOne(es, i, m)| && LintOne(es, i, m)[p] == Conflict(es[i], es[j])
  {
    if j < m - 1 {
      p := RowReports(es, i, m - 1, j);
    } else {
      p := |LintOne(es, i, m - 1)|;
    }
  }

  lemma {:induction false} LintReports(es: seq<Entry>, n: nat, i: nat, j: nat) returns (p: nat)
    requires i < n <= |es| && i < j < |es| && Collide(es[i], es[j])
    ensures p < |LintUpTo(es, n)| && LintUpTo(es, n)[p] == Conflict(es[i], es[j])
  {
    if i < n - 1 {
      p := LintReports(es, n - 1, i, j);
    } else {
      p := RowReports(es, i, |es|, j);
      p := |LintUpTo(es, n - 1)| + p;
    }
  }

  predicate SamePair(c: Conflict, d: Conflict) {
    PairOf(c.left, c.right) == PairOf(d.left, d.right)
  }

  lemma {:induction false} RowPosition(es: seq<Entry>, i: nat, m: nat, p: int) returns (a: nat)
    requires i < |es| && m <= |es| && 0 <= p < |LintOne(es, i, m)|
    ensures i < a < m && Collide(es[i], es[a]) && LintOne(es, i, m)[p] == Conflict(es[i], es[a])
  {
    if p < |LintOne(es, i, m - 1)| {
      a := RowPosition(es, i, m - 1, p);
    } else {
      a := m - 1;
    }
  }

  /** One entry's conflicts come in the order of the entries it conflicts with. */
  lemma {:induction false} RowPositions(es: seq<Entry>, i: nat, m: nat, p: int, q: int) returns (a: nat, b: nat)
    requires i < |es| && m <= |es| && 0 <= p < q < |LintOne(es, i, m)|
    ensures i < a < b < m
    ensures LintOne(es, i, m)[p] == Conflict(es[i], es[a]) && LintOne(es, i, m)[q] == Conflict(es[i], es[b])
  {
    if q < |LintOne(es, i, m - 1)| {
      a, b := RowPositions(es, i, m - 1, p, q);
    } else {
      a := RowPosition(es, i, m - 1, p);
      b := m - 1;
    }
  }

  lemma {:induction false} EarlierPair(es: seq<Entry>, n: nat, p: int) returns (i: nat, j: nat)
    requires n <= |es| && 0 <= p < |LintUpTo(es, n)|
    ensures i < n && i < j < |es| && Collide(es[i], es[j]) && LintUpTo(es, n)[p] == Conflict(es[i], es[j])
  {
    var done := |LintUpTo(es, n - 1)|;
    if p < done {
      i, j := EarlierPair(es, n - 1, p);
    } else {
      i := n - 1;
      j := RowPosition(es, i, |es|, p - done);
    }
  }

  /** Exactly the pairs of entries of equal set size are reported. */
  lemma LintLists(es: seq<Entry>)
    ensures forall c :: c in Lint(es) ==>
      exists i, j :: 0 <= i < j < |es| && Collide(es[i], es[j]) && c == Conflict(es[i], es[j])
    ensures forall i, j :: 0 <= i < j < |es| && Collide(es[i], es[j]) ==> Conflict(es[i], es[j]) in Lint(es)
  {
    forall c | c in Lint(es)
      ensures exists i, j :: 0 <= i < j < |es| && Collide(es[i], es[j]) && c == Conflict(es[i], es[j])
    {
      var p :| 0 <= p < |Lint(es)| && Lint(es)[p] == c;
      var i, j := EarlierPair(es, |es|, p);
    }
    forall i, j | 0 <= i < j < |es| && Collide(es[i], es[j]) ensures Conflict(es[i], es[j]) in Lint(es) {
      var p := LintReports(es, |es|, i, j);
    }
  }

  lemma {:induction false} ConflictPositions(es: seq<Entry>, n: nat, p: int, q: int)
      returns (i: nat, j: nat, k: nat, m: nat)
    requires n <= |es| && 0 <= p < q < |LintUpTo(es, n)|
    ensures i < j < |es| && k < m < |es| && (i, j) != (k, m)
    ensures LintUpTo(es, n)[p] == Conflict(es[i], es[j]) && LintUpTo(es, n)[q] == Conflict(es[k], es[m])
  {
    var done := |LintUpTo(es, n - 1)|;
    if q < done {
      i, j, k, m := ConflictPositions(es, n - 1, p, q);
    } else if p < done {
      i, j := EarlierPair(es, n - 1, p);
      k := n - 1;
      m := RowPosition(es, k, |es|, q - done);
    } else {
      i, k := n - 1, n - 1;
      j, m := RowPositions(es, k, |es|, p - done, q - done);
    }
  }

  /** No unordered pair of entries is reported twice. */
  lemma LintNoRepeats(es: seq<Entry>, p: int, q: int)
    requires Keyed(es) && 0 <= p < q < |Lint(es)|
    ensures !SamePair(Lint(es)[p], Lint(es)[q])
  {
    var i, j, k, m := ConflictPositions(es, |es|, p, q);
    PairsDiffer(es, i, j, k, m);
  }

  /** Each unordered pair of entries of equal set size is reported exactly once. */
  lemma LintReportsEachPairOnce(es: seq<Entry>)
    requires Keyed(es)
    ensures forall i, j :: 0 <= i < j < |es| && Collide(es[i], es[j]) ==> Conflict(es[i], es[j]) in Lint(es)
    ensures forall c :: c in Lint(es) ==>
      exists i, j :: 0 <= i < j < |es| && Collide(es[i], es[j]) && c == Conflict(es[i], es[j])
    ensures forall p, q :: 0 <= p < q < |Lint(es)| ==> !SamePair(Lint(es)[p], Lint(es)[q])
  {
    LintLists(es);
    forall p, q | 0 <= p < q < |Lint(es)| ensures !SamePair(Lint(es)[p], Lint(es)[q]) {
      LintNoRepeats(es, p, q);
    }
  }

  // ---- Lint against matching ----

  predicate NoRepeats(e: Entry) {
    forall i, j :: 0 <= i < j < |e.selectors| ==> e.selectors[i] != e.selectors[j]
  }

  lemma {:induction false} CountOf(s: seq<string>)
    requires forall i, j :: 0 <= i < j < |s| ==> s[i] != s[j]
    ensures |set x | x in s| == |s|
  {
    if s != [] {
      var init, last := s[..|s| - 1], s[|s| - 1];
      CountOf(init);
      assert (set x | x in s) == (set x | x in init) + {last};
    }
  }

  predicate Longer(f: Entry, e: Entry) {
    |f.selectors| > |e.selectors|
  }

  /** A witness of ambiguity: two entries of equal length whose joint selectors cover no longer entry. */
  ghost predicate Clash(es: seq<Entry>, e: Entry, f: Entry) {
    && e in es && f in es && e.id != f.id && |e.selectors| == |f.selectors|
    && forall g :: g in es && Required(g) <= Required(e) + Required(f) ==> !Longer(g, e)
  }

  /** Some presented set is ambiguous exactly when two entries clash, and then their union is. */
  lemma AmbiguityIffClash(es: seq<Entry>)
    requires Keyed(es)
    ensures (exists presented :: MatchEntry(es, presented).Ambiguous?) <==> (exists e, f :: Clash(es, e, f))
    ensures forall e, f :: Clash(es, e, f) ==> MatchEntry(es, Required(e) + Required(f)).Ambiguous?
  {
    if presented :| MatchEntry(es, presented).Ambiguous? {
      MatchMeans(es, presented);
      var e, f :| Best(es, presented, e) && Best(es, presented, f) && e.id != f.id;
      assert Clash(es, e, f);
    }
    forall e, f | Clash(es, e, f) ensures MatchEntry(es, Required(e) + Required(f)).Ambiguous? {
      var union := Required(e) + Required(f);
      MatchMeans(es, union);
      assert Best(es, union, e) && Best(es, union, f);
    }
  }

  lemma EqualLengthIsReported(es: seq<Entry>, e: Entry, f: Entry)
    requires e in es && f in es && e != f && NoRepeats(e) && NoRepeats(f) && |e.selectors| == |f.selectors|
    ensures Lint(es) != []
  {
    CountOf(e.selectors);
    CountOf(f.selectors);
    assert Collide(e, f) && Collide(f, e);
    var i :| 0 <= i < |es| && es[i] == e;
    var j :| 0 <= j < |es| && es[j] == f;
    if i < j {
      var p := LintReports(es, |es|, i, j);
    } else {
      var p := LintReports(es, |es|, j, i);
    }
  }

  /** Among entries that list no selector twice, an empty lint report rules out every ambiguous match. */
  lemma CleanLintMeansNoAmbiguity(es: seq<Entry>, presented: set<string>)
    requires Keyed(es) && (forall e :: e in es ==> NoRepeats(e)) && Lint(es) == []
    ensures !MatchEntry(es, presented).Ambiguous?
  {
    MatchMeans(es, presented);
    forall e, f | Best(es, presented, e) && Best(es, presented, f) ensures e.id == f.id {
      if e.id != f.id {
        EqualLengthIsReported(es, e, f);
      }
    }
  }

  lemma ReportedPair(es: seq<Entry>, c: Conflict)
    requires c in Lint(es)
    ensures c.left in es && c.right in es && Collide(c.left, c.right)
  {
    LintLists(es);
  }

  /** A report's joint selectors are ambiguous exactly when no longer entry is covered by them. */
  lemma ReportIsAmbiguousIff(es: seq<Entry>, c: Conflict)
    requires Keyed(es) && (forall e :: e in es ==> NoRepeats(e)) && c in Lint(es) && c.left.id != c.right.id
    ensures (MatchEntry(es, c.Witness()).Ambiguous? && c.left.id in MatchEntry(es, c.Witness()).ids)
       <==> !exists g :: g in es && Required(g) <= c.Witness() && Longer(g, c.left)
  {
    ReportedPair(es, c);
    MatchMeans(es, c.Witness());
    CountOf(c.left.selectors);
    CountOf(c.right.selectors);
    if !exists g :: g in es && Required(g) <= c.Witness() && Longer(g, c.left) {
      assert Best(es, c.Witness(), c.left) && Best(es, c.Witness(), c.right);
    } else if e :| Best(es, c.Witness(), e) && e.id == c.left.id {
      SameIdSameEntry(es, e, c.left);
    }
  }

  lemma NothingToReport(es: seq<Entry>)
    requires forall i, j :: 0 <= i < j < |es| ==> !Collide(es[i], es[j])
    ensures Lint(es) == []
  {
    if Lint(es) != [] {
      var i, j := EarlierPair(es, |es|, 0);
    }
  }

  lemma TwoEntries(x: Entry, y: Entry)
    requires x.id != y.id
    ensures Keyed([x, y]) && x in [x, y] && y in [x, y] && forall e :: e in [x, y] ==> e == x || e == y
  {
    assert [x, y][1..] == [y] && [y][1..] == [];
    assert [x, y][0] == x && [x, y][1] == y;
  }

  /** With a selector listed twice a clean report proves nothing. */
  lemma RepeatedSelectorEscapesLint(x: Entry, y: Entry, a: string, b: string, c: string)
    requires x.id != y.id && x.selectors == [a, a] && y.selectors == [b, c] && b != c
    ensures Keyed([x, y]) && Lint([x, y]) == [] && MatchEntry([x, y], {a, b, c}).Ambiguous?
  {
    var es := [x, y];
    TwoEntries(x, y);
    assert Required(x) == {a} && Required(y) == {b, c};
    NothingToReport(es);
    assert Best(es, {a, b, c}, x) && Best(es, {a, b, c}, y);
    MatchMeans(es, {a, b, c});
  }
}
