/** File-path scope: lexical normalisation, escape detection and allow/deny patterns. */
module Paths {
  import opened Text

  // ---- posixpath.normpath ----

  function Unify(s: string): string {
    if s == "" then "" else [if s[0] == '\\' then '/' else s[0]] + Unify(s[1..])
  }

  /** `s.split("/")`. */
  function Split(s: string): (r: seq<string>)
    ensures r != []
  {
    if s == "" then [""]
    else
      var r := Split(s[1..]);
      if s[0] == '/' then [""] + r else [[s[0]] + r[0]] + r[1..]
  }

  /** `"/".join(cs)`. */
  function Join(cs: seq<string>): string {
    if cs == [] then "" else if |cs| == 1 then cs[0] else cs[0] + ("/" + Join(cs[1..]))
  }

  /** One turn of the component loop: what becomes of the components kept so far. */
  function Step(kept: seq<string>, c: string, rooted: bool): seq<string> {
    if c == "" || c == "." then kept
    else if c != ".." || (!rooted && kept == []) || (kept != [] && kept[|kept| - 1] == "..") then kept + [c]
    else if kept != [] then kept[..|kept| - 1]
    else kept
  }

  function Walk(kept: seq<string>, cs: seq<string>, rooted: bool): seq<string>
    decreases cs
  {
    if cs == [] then kept else Walk(Step(kept, cs[0], rooted), cs[1..], rooted)
  }

  /** Two leading slashes stay two; one, or three and more, become one. */
  function Root(path: string): string {
    if "//" <= path && !("///" <= path) then "//" else if "/" <= path then "/" else ""
  }

  function NormPath(path: string): string {
    if path == "" then "."
    else
      var norm := Root(path) + Join(Walk([], Split(path), Root(path) != ""));
      if norm == "" then "." else norm
  }

  function NormalizePath(path: string): string {
    NormPath(Unify(Strip(path)))
  }

  predicate PathEscapesRoot(path: string) {
    var norm := NormalizePath(path);
    "/" <= norm || norm == ".." || "../" <= norm
  }

  // ---- What the loop keeps ----

  predicate SlashFree(cs: seq<string>) {
    forall c :: c in cs ==> '/' !in c
  }

  /** Parent references only in front, and none at all below a root. */
  predicate Normal(cs: seq<string>, rooted: bool) {
    && (forall c :: c in cs ==> c != "" && c != "." && '/' !in c)
    && (rooted ==> ".." !in cs)
    && (forall i :: 0 < i < |cs| && cs[i] == ".." ==> cs[i - 1] == "..")
  }

  lemma {:induction false} SplitFacts(s: string)
    ensures SlashFree(Split(s))
    ensures Join(Split(s)) == s
  {
    if s != "" {
      SplitFacts(s[1..]);
      var r := Split(s[1..]);
      assert s == [s[0]] + s[1..];
      assert r[0] in r;
      if s[0] == '/' {
        assert Split(s)[1..] == r;
      } else {
        var w := [[s[0]] + r[0]] + r[1..];
        assert w[1..] == r[1..];
        assert Join(w) == [s[0]] + Join(r);
      }
    }
  }

  lemma {:induction false} SplitConcat(c: string, s: string)
    requires '/' !in c
    ensures Split(c + ("/" + s)) == [c] + Split(s)
  {
    if c == "" {
      assert c + ("/" + s) == "/" + s && ("/" + s)[1..] == s;
    } else {
      var w := c + ("/" + s);
      assert w[1..] == c[1..] + ("/" + s);
      assert w[0] == c[0] && c[0] in c && c == [c[0]] + c[1..];
      SplitConcat(c[1..], s);
    }
  }

  lemma {:induction false} SplitOne(c: string)
    requires '/' !in c
    ensures Split(c) == [c]
  {
    if c != "" {
      assert c[0] in c && c == [c[0]] + c[1..];
      SplitOne(c[1..]);
    }
  }

  lemma {:induction false} SplitJoin(cs: seq<string>)
    requires cs != [] && SlashFree(cs)
    ensures Split(Join(cs)) == cs
  {
    assert cs[0] in cs;
    if |cs| == 1 {
      SplitOne(cs[0]);
    } else {
      SplitJoin(cs[1..]);
      SplitConcat(cs[0], Join(cs[1..]));
    }
  }

  lemma {:induction false} WalkNormal(kept: seq<string>, cs: seq<string>, rooted: bool)
    requires Normal(kept, rooted) && SlashFree(cs)
    ensures Normal(Walk(kept, cs, rooted), rooted)
    decreases cs
  {
    if cs != [] {
      assert cs[0] in cs;
      var next := Step(kept, cs[0], rooted);
      assert forall i :: 0 <= i < |next| && i < |kept| ==> next[i] == kept[i];
      WalkNormal(next, cs[1..], rooted);
    }
  }

  /** Walking components that are normal already keeps them all. */
  lemma {:induction false} WalkKeepsNormal(kept: seq<string>, cs: seq<string>, rooted: bool)
    requires Normal(kept + cs, rooted)
    ensures Walk(kept, cs, rooted) == kept + cs
    decreases cs
  {
    if cs == [] {
      assert kept + cs == kept;
    } else {
      var all := kept + cs;
      assert all[|kept|] == cs[0] && cs[0] in all;
      assert kept != [] ==> all[|kept| - 1] == kept[|kept| - 1];
      assert kept + [cs[0]] + cs[1..] == all;
      WalkKeepsNormal(kept + [cs[0]], cs[1..], rooted);
    }
  }

  // ---- Idempotence ----

  /** The normal form is its root followed by normal components, or "." for neither. */
  lemma NormPathShape(path: string) returns (cs: seq<string>)
    ensures Normal(cs, Root(path) != "")
    ensures NormPath(path) == if Root(path) == "" && cs == [] then "." else Root(path) + Join(cs)
    ensures cs == if path == "" then [] else Walk([], Split(path), Root(path) != "")
  {
    if path == "" {
      cs := [];
    } else {
      SplitFacts(path);
      WalkNormal([], Split(path), Root(path) != "");
      cs := Walk([], Split(path), Root(path) != "");
      JoinHead(cs);
    }
  }

  lemma JoinHead(cs: seq<string>)
    requires forall c :: c in cs ==> c != "" && '/' !in c
    ensures Join(cs) == "" <==> cs == []
    ensures cs != [] ==> Join(cs)[0] != '/'
  {
    if cs != [] {
      assert cs[0] in cs && cs[0][0] in cs[0];
      assert Join(cs)[0] == cs[0][0];
    }
  }

  lemma NormPathIdempotent(path: string)
    ensures NormPath(NormPath(path)) == NormPath(path)
  {
    var cs := NormPathShape(path);
    var root, norm := Root(path), NormPath(path);
    if norm == "." {
      SplitOne(".");
      assert Walk([], ["."], false) == [];
    } else {
      JoinHead(cs);
      assert norm == root + Join(cs) && norm != "";
      RootKept(root, Join(cs));
      var bare := if cs == [] then [""] else cs;
      if cs == [] { assert Split("") == [""]; } else { SplitJoin(cs); }
      assert Split(Join(cs)) == bare;
      SplitRoot(root, Join(cs));
      WalkSkipsEmpty(bare, root);
      if cs == [] {
        assert Walk([], bare, root != "") == Walk([], [], root != "");
      } else {
        assert [] + cs == cs;
        WalkKeepsNormal([], cs, root != "");
      }
    }
  }

  lemma RootKept(root: string, rest: string)
    requires (root == "" || root == "/" || root == "//") && (rest == "" || rest[0] != '/')
    ensures Root(root + rest) == root
  {
    assert rest != "" ==> (root + rest)[|root|] == rest[0];
  }

  lemma RootSlashes(root: string, rest: string)
    requires (root == "" || root == "/" || root == "//") && (rest == "" || rest[0] != '/')
    ensures "/" <= root + rest <==> root != ""
    ensures "//" <= root + rest <==> root == "//"
    ensures !("///" <= root + rest)
  {
    var w := root + rest;
    assert |w| > |root| ==> w[|root|] == rest[0];
  }

  /** The result starts with slashes where the path does: with two if those are exactly two, and else with one. */
  lemma LeadingSlashes(path: string)
    ensures "/" <= NormPath(path) <==> "/" <= path
    ensures "//" <= NormPath(path) <==> path == "//" || (|path| > 2 && path[..2] == "//" && path[2] != '/')
    ensures !("///" <= NormPath(path))
  {
    var cs := NormPathShape(path);
    JoinHead(cs);
    RootKept(Root(path), Join(cs));
    RootSlashes(Root(path), Join(cs));
    RootSlashes("", ".");
    assert "///" <= path <==> |path| > 2 && path[..2] == "//" && path[2] == '/';
    assert "//" <= path <==> path == "//" || (|path| > 2 && path[..2] == "//");
  }

  function RootParts(root: string): seq<string> {
    if root == "" then [] else if root == "/" then [""] else ["", ""]
  }

  lemma SplitRoot(root: string, rest: string)
    requires root == "" || root == "/" || root == "//"
    ensures Split(root + rest) == RootParts(root) + Split(rest)
  {
    if root == "" {
      assert root + rest == rest;
    } else if root == "/" {
      SplitOneSlash(rest);
    } else {
      SplitTwoSlashes(rest);
    }
  }

  lemma SplitOneSlash(rest: string)
    ensures Split("/" + rest) == [""] + Split(rest)
  {
    assert "" + ("/" + rest) == "/" + rest;
    SplitConcat("", rest);
  }

  lemma SplitTwoSlashes(rest: string)
    ensures Split("//" + rest) == ["", ""] + Split(rest)
  {
    SplitOneSlash(rest);
    SplitOneSlash("/" + rest);
    assert "//" + rest == "/" + ("/" + rest);
    assert [""] + ([""] + Split(rest)) == ["", ""] + Split(rest);
  }

  lemma WalkSkipsEmpty(cs: seq<string>, root: string)
    requires root == "" || root == "/" || root == "//"
    ensures Walk([], RootParts(root) + cs, root != "") == Walk([], cs, root != "")
  {
    assert ([""] + cs)[1..] == cs;
    assert (["", ""] + cs)[1..] == [""] + cs;
    assert [] + cs == cs;
  }

  lemma {:induction false} UnifyFacts(s: string)
    ensures |Unify(s)| == |s| && '\\' !in Unify(s)
    ensures '\\' !in s ==> Unify(s) == s
    ensures forall i :: 0 <= i < |s| ==> Unify(s)[i] == if s[i] == '\\' then '/' else s[i]
  {
    if s != "" {
      UnifyFacts(s[1..]);
      assert s == [s[0]] + s[1..];
    }
  }

  /** The same text but for the kind of slash, position by position. */
  predicate SameButSlashes(s: string, t: string) {
    |s| == |t| && forall i :: 0 <= i < |s| ==> s[i] == t[i] || (s[i] in "/\\" && t[i] in "/\\")
  }

  lemma SameUnified(s: string, t: string)
    requires SameButSlashes(s, t)
    ensures Unify(s) == Unify(t)
  {
    UnifyFacts(s);
    UnifyFacts(t);
  }

  lemma {:induction false} StripLeftSlashes(s: string, t: string)
    requires SameButSlashes(s, t)
    ensures SameButSlashes(StripLeft(s), StripLeft(t))
  {
    if s != "" && IsSpace(s[0]) {
      StripLeftSlashes(s[1..], t[1..]);
    }
  }

  lemma {:induction false} StripRightSlashes(s: string, t: string)
    requires SameButSlashes(s, t)
    ensures SameButSlashes(StripRight(s), StripRight(t))
  {
    if s != "" && IsSpace(s[|s| - 1]) {
      StripRightSlashes(s[..|s| - 1], t[..|t| - 1]);
    }
  }

  /** A backslash is as good as a slash: it makes no difference to the normal form nor to escaping. */
  lemma SlashKindDoesNotMatter(s: string, t: string)
    requires SameButSlashes(s, t)
    ensures NormalizePath(s) == NormalizePath(t) && (PathEscapesRoot(s) <==> PathEscapesRoot(t))
  {
    StripLeftSlashes(s, t);
    StripRightSlashes(StripLeft(s), StripLeft(t));
    SameUnified(Strip(s), Strip(t));
  }

  // Normalisation introduces no character but the dot.

  lemma {:induction false} WalkOrigin(kept: seq<string>, cs: seq<string>, rooted: bool)
    ensures forall c :: c in Walk(kept, cs, rooted) ==> c in kept || c in cs
    decreases cs
  {
    if cs != [] {
      WalkOrigin(Step(kept, cs[0], rooted), cs[1..], rooted);
    }
  }

  lemma {:induction false} JoinCharacters(cs: seq<string>, x: char)
    requires x != '/' && forall c :: c in cs ==> x !in c
    ensures x !in Join(cs)
  {
    if |cs| > 1 {
      JoinCharacters(cs[1..], x);
    }
  }

  lemma {:induction false} SplitCharacters(s: string, x: char)
    requires x !in s
    ensures forall c :: c in Split(s) ==> x !in c
  {
    if s != "" {
      assert s[0] in s && forall y :: y in s[1..] ==> y in s;
      SplitCharacters(s[1..], x);
      assert Split(s[1..])[0] in Split(s[1..]);
    }
  }

  lemma NormPathCharacters(path: string)
    requires '\\' !in path
    ensures '\\' !in NormPath(path)
  {
    if path != "" {
      SplitCharacters(path, '\\');
      WalkOrigin([], Split(path), Root(path) != "");
      JoinCharacters(Walk([], Split(path), Root(path) != ""), '\\');
    }
  }

  // Normalisation never lengthens a non-empty path.

  function Weight(cs: seq<string>): nat {
    if cs == [] then 0 else |cs[0]| + 1 + Weight(cs[1..])
  }

  lemma {:induction false} WeightConcat(a: seq<string>, b: seq<string>)
    ensures Weight(a + b) == Weight(a) + Weight(b)
  {
    if a == [] {
      assert a + b == b;
    } else {
      assert (a + b)[1..] == a[1..] + b;
      WeightConcat(a[1..], b);
    }
  }

  lemma {:induction false} JoinWeight(cs: seq<string>)
    requires cs != []
    ensures |Join(cs)| + 1 == Weight(cs)
  {
    if |cs| > 1 {
      JoinWeight(cs[1..]);
    } else {
      assert cs[1..] == [];
    }
  }

  lemma {:induction false} WalkWeight(kept: seq<string>, cs: seq<string>, rooted: bool)
    ensures Weight(Walk(kept, cs, rooted)) <= Weight(kept) + Weight(cs)
    decreases cs
  {
    if cs != [] {
      WeightConcat(kept, [cs[0]]);
      assert Weight([cs[0]]) == |cs[0]| + 1 by { assert [cs[0]][1..] == []; }
      if kept != [] {
        assert kept[..|kept| - 1] + kept[|kept| - 1..] == kept;
        WeightConcat(kept[..|kept| - 1], kept[|kept| - 1..]);
      }
      WalkWeight(Step(kept, cs[0], rooted), cs[1..], rooted);
    }
  }

  lemma NormPathLength(path: string)
    requires path != ""
    ensures |NormPath(path)| <= |path|
  {
    var root := Root(path);
    var rest := path[|root|..];
    assert path == root + rest;
    SplitRoot(root, rest);
    WalkSkipsEmpty(Split(rest), root);
    WalkWeight([], Split(rest), root != "");
    SplitFacts(rest);
    JoinWeight(Split(rest));
    var cs := Walk([], Split(rest), root != "");
    if cs != [] { JoinWeight(cs); }
  }

  /**
   * `normalize_path` strips before it normalises, so a second time it changes nothing exactly when the
   * first result has no white space at either end.
   */
  lemma IdempotentIffUnpadded(path: string)
    ensures NormalizePath(NormalizePath(path)) == NormalizePath(path) <==> Unpadded(NormalizePath(path))
  {
    var u, norm := Unify(Strip(path)), NormalizePath(path);
    UnifyFacts(Strip(path));
    NormPathCharacters(u);
    NormPathIdempotent(u);
    StripFacts(norm);
    if Unpadded(norm) {
      UnifyFacts(norm);
    } else {
      UnifyFacts(Strip(norm));
      if Strip(norm) == "" {
        assert NormalizePath(norm) == "." && Unpadded(".");
      } else {
        NormPathLength(Unify(Strip(norm)));
      }
    }
  }

  lemma DotSlashDropped(x: string)
    requires x != "" && x != "." && x != ".." && '/' !in x
    ensures NormPath("." + ("/" + x)) == x
  {
    SplitConcat(".", x);
    SplitOne(x);
    assert [".", x][1..] == [x] && ([".", x][0] == "." && [] + [x] == [x]);
    assert Step([], ".", false) == [];
    WalkKeepsNormal([], [x], false);
    assert ("." + ("/" + x))[0] == '.';
  }

  /** A name with white space before it comes to the front and is stripped the second time. */
  lemma PaddedName(x: string)
    requires |x| > 2 && IsSpace(x[0]) && !IsSpace(x[|x| - 1]) && '/' !in x && '\\' !in x
    ensures NormalizePath("." + ("/" + x)) == x && NormalizePath(x) != x
  {
    var s := "." + ("/" + x);
    StripFacts(s);
    UnifyFacts(s);
    assert s[|s| - 1] == x[|x| - 1];
    assert '\\' !in s;
    DotSlashDropped(x);
    IdempotentIffUnpadded(s);
  }

  /** "./ name" normalises to " name", which is then stripped to "name". */
  lemma PaddingExample()
    ensures NormalizePath("./ name") == " name" && NormalizePath(" name") != " name"
  {
    var x := " name";
    assert '/' !in x && '\\' !in x;
    PaddedName(x);
    assert "." + ("/" + x) == "./ name";
  }

  // ---- Escape detection ----

  /** A lexical walk down the components from `depth` levels below the start never rises above the start. */
  predicate StaysBelow(cs: seq<string>, depth: nat) {
    if cs == [] then true
    else if cs[0] == "" || cs[0] == "." then StaysBelow(cs[1..], depth)
    else if cs[0] == ".." then depth > 0 && StaysBelow(cs[1..], depth - 1)
    else StaysBelow(cs[1..], depth + 1)
  }

  /** Where such a walk ends: the names from the start down. */
  function Destination(cs: seq<string>, at: seq<string>): seq<string>
    requires StaysBelow(cs, |at|)
    decreases cs
  {
    if cs == [] then at
    else if cs[0] == "" || cs[0] == "." then Destination(cs[1..], at)
    else if cs[0] == ".." then Destination(cs[1..], at[..|at| - 1])
    else Destination(cs[1..], at + [cs[0]])
  }

  /** A non-empty name that is neither "." nor "..", without a separator. */
  predicate PlainNames(cs: seq<string>) {
    forall c :: c in cs ==> c != "" && c != "." && c != ".." && '/' !in c
  }

  lemma {:induction false} WalkBelow(at: seq<string>, cs: seq<string>)
    requires PlainNames(at) && SlashFree(cs) && StaysBelow(cs, |at|)
    ensures Walk(at, cs, false) == Destination(cs, at) && PlainNames(Destination(cs, at))
    decreases cs
  {
    if cs != [] {
      assert cs[0] in cs;
      assert at != [] ==> at[|at| - 1] in at;
      WalkBelow(Step(at, cs[0], false), cs[1..]);
    }
  }

  lemma {:induction false} ParentStaysFirst(kept: seq<string>, cs: seq<string>)
    requires kept != [] && kept[0] == ".."
    ensures Walk(kept, cs, false) != [] && Walk(kept, cs, false)[0] == ".."
    decreases cs
  {
    if cs != [] {
      ParentStaysFirst(Step(kept, cs[0], false), cs[1..]);
    }
  }

  lemma {:induction false} WalkAbove(at: seq<string>, cs: seq<string>)
    requires PlainNames(at) && SlashFree(cs) && !StaysBelow(cs, |at|)
    ensures Walk(at, cs, false) != [] && Walk(at, cs, false)[0] == ".."
    decreases cs
  {
    assert cs[0] in cs;
    assert at != [] ==> at[|at| - 1] in at;
    if cs[0] == ".." && at == [] {
      ParentStaysFirst(Step(at, cs[0], false), cs[1..]);
    } else {
      WalkAbove(Step(at, cs[0], false), cs[1..]);
    }
  }

  lemma ParentHead(cs: seq<string>)
    requires cs != [] && SlashFree(cs)
    ensures Join(cs) == ".." || "../" <= Join(cs) <==> cs[0] == ".."
  {
    SplitJoin(cs);
    if Join(cs) == ".." {
      SplitOne("..");
    } else if "../" <= Join(cs) {
      assert Join(cs) == ".." + ("/" + Join(cs)[3..]);
      SplitConcat("..", Join(cs)[3..]);
    }
  }

  /** Where the separator-unified path leads when it stays below the start. */
  function Target(path: string): string
    requires StaysBelow(Split(Unify(Strip(path))), 0)
  {
    var d := Destination(Split(Unify(Strip(path))), []);
    if d == [] then "." else Join(d)
  }

  predicate StaysInRoot(path: string) {
    var u := Unify(Strip(path));
    !("/" <= u) && StaysBelow(Split(u), 0)
  }

  /**
   * A path is said to escape exactly when it is absolute or a lexical walk of its components rises
   * above the start at some point; otherwise its normal form names the place where the walk ends.
   */
  lemma EscapeIffWalkRises(path: string)
    ensures PathEscapesRoot(path) <==> !StaysInRoot(path)
    ensures StaysInRoot(path) ==> NormalizePath(path) == Target(path)
    ensures StaysInRoot(path) ==> PlainNames(Destination(Split(Unify(Strip(path))), []))
  {
    var u := Unify(Strip(path));
    var cs := NormPathShape(u);
    SplitFacts(u);
    JoinHead(cs);
    if Root(u) == "" {
      if u == "" {
        assert Split(u) == [""] && [""][1..] == [];
      }
      if StaysBelow(Split(u), 0) {
        WalkBelow([], Split(u));
      } else {
        WalkAbove([], Split(u));
      }
      if cs != [] {
        assert cs[0] in cs;
        ParentHead(cs);
      }
    }
  }

  lemma ParentComponentFirst(path: string, rest: string)
    requires Unify(Strip(path)) == ".." + ("/" + rest)
    ensures PathEscapesRoot(path)
  {
    EscapeIffWalkRises(path);
    SplitConcat("..", rest);
  }

  lemma UnifyStep(s: string, c: char, rest: string)
    requires s == [c] + rest
    ensures Unify(s) == [if c == '\\' then '/' else c] + Unify(rest)
  {
    assert s[1..] == rest;
  }

  /** A path that starts with a parent reference escapes, with either kind of slash. */
  lemma ParentFirstEscapes(slash: char, rest: string)
    requires slash in "/\\" && Unpadded(".." + [slash] + rest)
    ensures PathEscapesRoot(".." + [slash] + rest)
  {
    var s := ".." + [slash] + rest;
    StripFacts(s);
    UnifyStep(s, '.', "." + [slash] + rest);
    UnifyStep("." + [slash] + rest, '.', [slash] + rest);
    UnifyStep([slash] + rest, slash, rest);
    assert Unify(s) == ".." + ("/" + Unify(rest));
    ParentComponentFirst(s, Unify(rest));
  }

  // ---- When normalizing twice is normalizing once ----

  /** The components that the loop keeps of the stripped, separator-unified path. */
  function Remaining(path: string): seq<string> {
    var u := Unify(Strip(path));
    Walk([], Split(u), Root(u) != "")
  }

  /** Nothing remains, or what remains neither ends with white space nor, unless a slash precedes it, starts with it. */
  predicate CleanEnds(cs: seq<string>, rooted: bool)
    requires forall c :: c in cs ==> c != ""
  {
    cs == [] ||
    (var first, last := cs[0], cs[|cs| - 1];
     assert first in cs && last in cs;
     (rooted || !IsSpace(first[0])) && !IsSpace(last[|last| - 1]))
  }

  lemma JoinStart(cs: seq<string>)
    requires cs != [] && cs[0] != ""
    ensures Join(cs) != "" && Join(cs)[0] == cs[0][0]
  {
  }

  lemma LastOfConcat(a: string, b: string)
    requires b != ""
    ensures (a + b)[|a + b| - 1] == b[|b| - 1]
  {
  }

  lemma {:induction false} JoinStop(cs: seq<string>)
    requires cs != [] && cs[|cs| - 1] != ""
    ensures Join(cs) != "" && Join(cs)[|Join(cs)| - 1] == cs[|cs| - 1][|cs[|cs| - 1]| - 1]
  {
    if |cs| > 1 {
      assert cs[1..][|cs| - 2] == cs[|cs| - 1];
      JoinStop(cs[1..]);
      LastOfConcat("/", Join(cs[1..]));
      LastOfConcat(cs[0], "/" + Join(cs[1..]));
    }
  }

  lemma RemainingShape(path: string)
    ensures forall c :: c in Remaining(path) ==> c != ""
    ensures var root, cs := Root(Unify(Strip(path))), Remaining(path);
      NormalizePath(path) == if root == "" && cs == [] then "." else root + Join(cs)
  {
    var u := Unify(Strip(path));
    var cs := NormPathShape(u);
    if u == "" {
      assert Split(u) == [""] && [""][1..] == [];
      assert Walk([], Split(u), false) == Walk([], [], false);
    }
  }

  lemma UnpaddedIffCleanEnds(root: string, cs: seq<string>)
    requires (root == "" || root == "/" || root == "//") && (forall c :: c in cs ==> c != "")
    ensures Unpadded(if root == "" && cs == [] then "." else root + Join(cs)) <==> CleanEnds(cs, root != "")
  {
    if cs == [] {
      assert root + Join(cs) == root;
    } else {
      var w := Join(cs);
      assert cs[0] in cs && cs[|cs| - 1] in cs;
      JoinStart(cs);
      JoinStop(cs);
      LastOfConcat(root, w);
      assert (root + w)[0] == if root == "" then w[0] else '/';
    }
  }

  /**
   * Normalizing again changes nothing exactly when no component that remains exposes white space at an
   * end of the path; for a path below the start these are the names from the start to where it leads.
   */
  lemma NormalizeIdempotent(path: string)
    ensures forall c :: c in Remaining(path) ==> c != ""
    ensures NormalizePath(NormalizePath(path)) == NormalizePath(path)
       <==> CleanEnds(Remaining(path), Root(Unify(Strip(path))) != "")
    ensures StaysInRoot(path) ==>
      var d := Destination(Split(Unify(Strip(path))), []);
      && PlainNames(d)
      && (NormalizePath(NormalizePath(path)) == NormalizePath(path) <==> CleanEnds(d, false))
  {
    RemainingShape(path);
    UnpaddedIffCleanEnds(Root(Unify(Strip(path))), Remaining(path));
    IdempotentIffUnpadded(path);
    if StaysInRoot(path) {
      SplitFacts(Unify(Strip(path)));
      WalkBelow([], Split(Unify(Strip(path))));
    }
  }

  // ---- Allow and deny patterns ----

  /** `fnmatch.fnmatchcase(path, pattern)`. */
  type Matcher = (string, string) -> bool

  predicate PathMatchesAny(matches: Matcher, path: string, patterns: seq<string>) {
    exists i :: 0 <= i < |patterns| && matches(NormalizePath(path), Strip(patterns[i]))
  }

  datatype ScopeReason = NoPath | Escapes | Denied | Outside | Satisfied

  /** `evaluate_path_scope`; a path is in scope for the first and the last reason. */
  function EvaluatePathScope(
      matches: Matcher, filePath: Option<string>, allowed: seq<string>, denied: seq<string>): ScopeReason
  {
    match filePath
    case None => NoPath
    case Some(path) =>
      if PathEscapesRoot(path) then Escapes
      else if denied != [] && PathMatchesAny(matches, path, denied) then Denied
      else if allowed != [] && !PathMatchesAny(matches, path, allowed) then Outside
      else Satisfied
  }

  predicate InScope(reason: ScopeReason) {
    reason.NoPath? || reason.Satisfied?
  }

  /**
   * A presented path is in scope exactly when it stays below the root, no denied pattern covers the
   * place it leads to, and some allowed pattern covers that place if there are allowed patterns. The
   * reason for a refusal is the first of these that fails.
   */
  lemma ScopeOfDestination(matches: Matcher, path: string, allowed: seq<string>, denied: seq<string>)
    ensures EvaluatePathScope(matches, Some(path), allowed, denied) == Escapes <==> !StaysInRoot(path)
    ensures EvaluatePathScope(matches, Some(path), allowed, denied) == Denied <==>
      StaysInRoot(path) && exists i :: 0 <= i < |denied| && matches(Target(path), Strip(denied[i]))
    ensures EvaluatePathScope(matches, Some(path), allowed, denied) == Outside <==>
      && StaysInRoot(path)
      && (forall i :: 0 <= i < |denied| ==> !matches(Target(path), Strip(denied[i])))
      && allowed != [] && (forall i :: 0 <= i < |allowed| ==> !matches(Target(path), Strip(allowed[i])))
    ensures InScope(EvaluatePathScope(matches, Some(path), allowed, denied)) <==>
      && StaysInRoot(path)
      && (forall i :: 0 <= i < |denied| ==> !matches(Target(path), Strip(denied[i])))
      && (allowed == [] || exists i :: 0 <= i < |allowed| && matches(Target(path), Strip(allowed[i])))
  {
    EscapeIffWalkRises(path);
  }

  /** Two spellings that lead to the same place get the same decision. */
  lemma ScopeIgnoresSpelling(matches: Matcher, p: string, q: string, allowed: seq<string>, denied: seq<string>)
    requires StaysInRoot(p) && StaysInRoot(q)
    requires Destination(Split(Unify(Strip(p))), []) == Destination(Split(Unify(Strip(q))), [])
    ensures EvaluatePathScope(matches, Some(p), allowed, denied) == EvaluatePathScope(matches, Some(q), allowed, denied)
  {
    EscapeIffWalkRises(p);
    EscapeIffWalkRises(q);
  }
}
