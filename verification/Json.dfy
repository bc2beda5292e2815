/** Canonical JSON: `json.dumps(value, sort_keys=True, separators=(",", ":"))`. */
module Json {

  /** The JSON values that are hashed and signed; floating-point numbers are not among them. */
  datatype Json =
    | JNull
    | JBool(b: bool)
    | JInt(i: int)
    | JStr(s: string)
    | JArr(items: seq<Json>)
    | JObj(fields: map<string, Json>)

  // ---- Key order ----

  /** Strictly before in code-point order. */
  predicate Before(a: string, b: string) {
    b != "" && (a == "" || a[0] < b[0] || (a[0] == b[0] && Before(a[1..], b[1..])))
  }

  lemma {:induction false} BeforeTotal(a: string, b: string)
    ensures Before(a, b) ==> !Before(b, a) && a != b
    ensures Before(a, b) || Before(b, a) || a == b
  {
    if a != "" && b != "" && a[0] == b[0] {
      BeforeTotal(a[1..], b[1..]);
      assert a == [a[0]] + a[1..] && b == [b[0]] + b[1..];
    }
  }

  lemma {:induction false} BeforeTransitive(a: string, b: string, c: string)
    requires Before(a, b) && Before(b, c)
    ensures Before(a, c)
  {
    if a != "" && a[0] == b[0] && b[0] == c[0] {
      BeforeTransitive(a[1..], b[1..], c[1..]);
    }
  }

  ghost predicate IsLeast(k: string, ks: set<string>) {
    k in ks && forall j :: j in ks && j != k ==> Before(k, j)
  }

  lemma {:induction false} LeastExists(ks: set<string>)
    requires ks != {}
    ensures exists k :: IsLeast(k, ks)
    decreases |ks|
  {
    var x :| x in ks;
    if ks == {x} {
      assert IsLeast(x, ks);
    } else {
      LeastExists(ks - {x});
      var y :| IsLeast(y, ks - {x});
      BeforeTotal(x, y);
      if Before(x, y) {
        forall j | j in ks && j != x ensures Before(x, j) {
          if j != y { BeforeTransitive(x, y, j); }
        }
        assert IsLeast(x, ks);
      } else {
        assert IsLeast(y, ks);
      }
    }
  }

  /** The keys of an object in the order in which they are written. */
  ghost function SortedKeys(ks: set<string>): seq<string>
    decreases |ks|
  {
    if ks == {} then [] else
      LeastExists(ks);
      var k :| IsLeast(k, ks);
      [k] + SortedKeys(ks - {k})
  }

  ghost predicate Ordered(s: seq<string>) {
    forall i, j :: 0 <= i < j < |s| ==> Before(s[i], s[j])
  }

  lemma {:induction false} SortedKeysFacts(ks: set<string>)
    ensures forall k :: k in SortedKeys(ks) <==> k in ks
    ensures Ordered(SortedKeys(ks))
    decreases |ks|
  {
    if ks != {} {
      LeastExists(ks);
      var k :| IsLeast(k, ks) && SortedKeys(ks) == [k] + SortedKeys(ks - {k});
      SortedKeysFacts(ks - {k});
      PutFirst(k, SortedKeys(ks - {k}));
    }
  }

  lemma PutFirst(k: string, rest: seq<string>)
    requires Ordered(rest) && forall j :: j in rest ==> Before(k, j)
    ensures Ordered([k] + rest)
    ensures forall j :: j in [k] + rest <==> j == k || j in rest
  {
    var s := [k] + rest;
    forall i, j | 0 <= i < j < |s| ensures Before(s[i], s[j]) {
      assert s[j] == rest[j - 1];
    }
  }

  lemma RestOfOrdered(s: seq<string>)
    requires Ordered(s) && s != []
    ensures Ordered(s[1..])
    ensures forall k :: k in s[1..] <==> k in s && k != s[0]
  {
    assert s == [s[0]] + s[1..];
    forall k | k in s[1..] ensures k != s[0] {
      BeforeTotal(s[0], k);
    }
  }

  /** Two strictly ordered listings of the same keys are the same listing. */
  lemma {:induction false} OrderedUnique(s: seq<string>, t: seq<string>)
    requires Ordered(s) && Ordered(t)
    requires forall k :: k in s <==> k in t
    ensures s == t
  {
    assert s != [] ==> s[0] in t;
    assert t != [] ==> t[0] in s;
    if s != [] {
      BeforeTotal(s[0], t[0]);
      assert s[0] == t[0];
      RestOfOrdered(s);
      RestOfOrdered(t);
      OrderedUnique(s[1..], t[1..]);
    }
  }

  lemma {:induction false} OrderedFromNeighbours(s: seq<string>)
    requires forall i :: 0 <= i < |s| - 1 ==> Before(s[i], s[i + 1])
    ensures Ordered(s)
  {
    if |s| > 1 {
      OrderedFromNeighbours(s[1..]);
      forall j | 1 <= j < |s| ensures Before(s[0], s[j]) {
        assert Before(s[0], s[0 + 1]);
        if j > 1 {
          assert Before(s[1..][0], s[1..][j - 1]);
          BeforeTransitive(s[0], s[1], s[j]);
        }
      }
      forall i, j | 1 <= i < j < |s| ensures Before(s[i], s[j]) {
        assert Before(s[1..][i - 1], s[1..][j - 1]);
      }
    }
  }

  // ---- Encoding ----

  function Digits(n: nat): string {
    if n < 10 then ['0' + n as char] else Digits(n / 10) + ['0' + (n % 10) as char]
  }

  function Decimal(i: int): string {
    if i < 0 then "-" + Digits(-i) else Digits(i)
  }

  function HexDigit(n: nat): char
    requires n < 16
  {
    if n < 10 then '0' + n as char else 'a' + (n - 10) as char
  }

  function Hex4(n: nat): string
    requires n < 0x10000
  {
    [HexDigit(n / 4096), HexDigit(n / 256 % 16), HexDigit(n / 16 % 16), HexDigit(n % 16)]
  }

  /** One character inside a string, as `json.dumps` with `ensure_ascii` writes it. */
  function EscapeChar(c: char): string {
    if c == '\"' then "\\\""
    else if c == '\\' then "\\\\"
    else if c == '\n' then "\\n"
    else if c == '\r' then "\\r"
    else if c == '\t' then "\\t"
    else if c == '\U{0c}' then "\\f"
    else if c == '\U{08}' then "\\b"
    else if ' ' <= c <= '~' then [c]
    else if c as int < 0x10000 then "\\u" + Hex4(c as int)
    else
      var v := c as int - 0x10000;
      "\\u" + Hex4(0xd800 + v / 1024) + "\\u" + Hex4(0xdc00 + v % 1024)
  }

  function Escape(s: string): string {
    if s == "" then "" else EscapeChar(s[0]) + Escape(s[1..])
  }

  function Quote(s: string): string {
    "\"" + Escape(s) + "\""
  }

  ghost function Encode(j: Json): string
    decreases j, 1, 0
  {
    match j
    case JNull => "null"
    case JBool(b) => if b then "true" else "false"
    case JInt(i) => Decimal(i)
    case JStr(s) => Quote(s)
    case JArr(_) => "[" + EncodeItems(j, 0)
    case JObj(m) => SortedKeysFacts(m.Keys); "{" + EncodeFields(j, SortedKeys(m.Keys), "")
  }

  /** The items from position `i` on, with the closing bracket. */
  ghost function EncodeItems(j: Json, i: nat): string
    requires j.JArr? && i <= |j.items|
    decreases j, 0, |j.items| - i
  {
    if i == |j.items| then "]"
    else (if i == 0 then "" else ",") + (Encode(j.items[i]) + EncodeItems(j, i + 1))
  }

  /** The members named by `ks`, the first after `sep` and the others after commas, with the closing brace. */
  ghost function EncodeFields(j: Json, ks: seq<string>, sep: string): string
    requires j.JObj? && (forall k :: k in ks ==> k in j.fields)
    decreases j, 0, |ks|
  {
    if ks == [] then "}"
    else sep + (Quote(ks[0]) + (":" + (Encode(j.fields[ks[0]]) + EncodeFields(j, ks[1..], ","))))
  }

  /** Only U+0020 to U+007E: what `ensure_ascii` output consists of. */
  predicate Printable(s: string) {
    forall c :: c in s ==> ' ' <= c <= '~'
  }

  lemma Hex4Printable(n: nat)
    requires n < 0x10000
    ensures Printable(Hex4(n))
  {
  }

  lemma EscapeCharPrintable(c: char)
    ensures Printable(EscapeChar(c))
  {
    if c as int < 0x10000 {
      Hex4Printable(c as int);
    } else {
      var v := c as int - 0x10000;
      Hex4Printable(0xd800 + v / 1024);
      Hex4Printable(0xdc00 + v % 1024);
    }
  }

  lemma {:induction false} EscapePrintable(s: string)
    ensures Printable(Escape(s))
  {
    if s != "" {
      EscapeCharPrintable(s[0]);
      EscapePrintable(s[1..]);
    }
  }

  lemma {:induction false} EncodePrintable(j: Json)
    ensures Printable(Encode(j))
    decreases j, 1, 0
  {
    match j {
      case JNull =>
      case JBool(_) =>
      case JInt(i) => DigitsFacts(if i < 0 then -i else i);
      case JStr(s) => EscapePrintable(s);
      case JArr(_) => ItemsPrintable(j, 0);
      case JObj(m) =>
        SortedKeysFacts(m.Keys);
        FieldsPrintable(j, SortedKeys(m.Keys), "");
    }
  }

  lemma {:induction false} ItemsPrintable(j: Json, i: nat)
    requires j.JArr? && i <= |j.items|
    ensures Printable(EncodeItems(j, i))
    decreases j, 0, |j.items| - i
  {
    if i < |j.items| {
      EncodePrintable(j.items[i]);
      ItemsPrintable(j, i + 1);
    }
  }

  lemma {:induction false} FieldsPrintable(j: Json, ks: seq<string>, sep: string)
    requires j.JObj? && (forall k :: k in ks ==> k in j.fields) && Printable(sep)
    ensures Printable(EncodeFields(j, ks, sep))
    decreases j, 0, |ks|
  {
    if ks != [] {
      EscapePrintable(ks[0]);
      EncodePrintable(j.fields[ks[0]]);
      FieldsPrintable(j, ks[1..], ",");
    }
  }

  // ---- Unambiguity of the pieces ----

  predicate IsDigit(c: char) { '0' <= c <= '9' }

  function Value(ds: string): int {
    if ds == "" then 0 else Value(ds[..|ds| - 1]) * 10 + (ds[|ds| - 1] as int - '0' as int)
  }

  lemma {:induction false} DigitsFacts(n: nat)
    ensures Digits(n) != "" && (forall c :: c in Digits(n) ==> IsDigit(c))
    ensures Value(Digits(n)) == n
  {
    if n >= 10 {
      DigitsFacts(n / 10);
      assert Digits(n)[..|Digits(n)| - 1] == Digits(n / 10);
    } else {
      assert Digits(n)[..0] == "";
    }
  }

  /** Text that cannot continue a number. */
  predicate Stops(s: string) {
    s == "" || s[0] in ",]}"
  }

  function LeadingDigits(w: string): nat {
    if w == "" || !IsDigit(w[0]) then 0 else 1 + LeadingDigits(w[1..])
  }

  lemma {:induction false} LeadingDigitsFacts(x: string, s: string)
    requires (forall c :: c in x ==> IsDigit(c)) && Stops(s)
    ensures LeadingDigits(x + s) == |x|
  {
    if x == "" {
      assert x + s == s;
    } else {
      assert (x + s)[1..] == x[1..] + s;
      LeadingDigitsFacts(x[1..], s);
    }
  }

  /** Equal concatenations with equally long first parts have equal parts. */
  lemma SameSplit(x: string, y: string, s: string, t: string)
    requires x + s == y + t && |x| == |y|
    ensures x == y && s == t
  {
    assert x == (x + s)[..|x|] && s == (x + s)[|x|..];
    assert y == (y + t)[..|y|] && t == (y + t)[|y|..];
  }

  lemma DecimalSign(i: int, s: string)
    ensures Decimal(i) + s != "" && ((Decimal(i) + s)[0] == '-' <==> i < 0)
    ensures (if i < 0 then (Decimal(i) + s)[1..] == Digits(-i) + s else Decimal(i) + s == Digits(i) + s)
  {
    if i < 0 {
      NegativeDecimal(i, s);
    } else {
      NaturalDecimal(i, s);
    }
  }

  lemma NegativeDecimal(i: int, s: string)
    requires i < 0
    ensures Decimal(i) + s == "-" + (Digits(-i) + s)
  {
  }

  lemma NaturalDecimal(i: nat, s: string)
    ensures Decimal(i) + s == Digits(i) + s && Digits(i) + s != "" && (Digits(i) + s)[0] != '-'
  {
    DigitsFacts(i);
    assert (Digits(i) + s)[0] == Digits(i)[0] && Digits(i)[0] in Digits(i);
  }

  lemma DigitsUnambiguous(m: nat, n: nat, s: string, t: string)
    requires Digits(m) + s == Digits(n) + t && Stops(s) && Stops(t)
    ensures m == n && s == t
  {
    DigitsFacts(m);
    DigitsFacts(n);
    LeadingDigitsFacts(Digits(m), s);
    LeadingDigitsFacts(Digits(n), t);
    SameSplit(Digits(m), Digits(n), s, t);
  }

  lemma DecimalUnambiguous(i: int, j: int, s: string, t: string)
    requires Decimal(i) + s == Decimal(j) + t && Stops(s) && Stops(t)
    ensures i == j && s == t
  {
    DecimalSign(i, s);
    DecimalSign(j, t);
    if i < 0 {
      DigitsUnambiguous(-i, -j, s, t);
    } else {
      DigitsUnambiguous(i, j, s, t);
    }
  }

  lemma HexParts(n: nat)
    requires n < 0x10000
    ensures n == n / 4096 * 4096 + n / 256 % 16 * 256 + n / 16 % 16 * 16 + n % 16
  {
    var a := n / 16;
    var b := a / 16;
    assert n == 16 * a + n % 16;
    assert a == 16 * b + a % 16 && b == n / 256;
    assert b == 16 * (b / 16) + b % 16 && b / 16 == n / 4096;
  }

  lemma HexDigitInjective(m: nat, n: nat)
    requires m < 16 && n < 16 && HexDigit(m) == HexDigit(n)
    ensures m == n
  {
  }

  lemma Hex4Injective(m: nat, n: nat)
    requires m < 0x10000 && n < 0x10000 && Hex4(m) == Hex4(n)
    ensures m == n
  {
    HexParts(m);
    HexParts(n);
    assert Hex4(m)[0] == Hex4(n)[0] && Hex4(m)[1] == Hex4(n)[1];
    assert Hex4(m)[2] == Hex4(n)[2] && Hex4(m)[3] == Hex4(n)[3];
    HexDigitInjective(m / 4096, n / 4096);
    HexDigitInjective(m / 256 % 16, n / 256 % 16);
    HexDigitInjective(m / 16 % 16, n / 16 % 16);
    HexDigitInjective(m % 16, n % 16);
  }

  /** The first UTF-16 code unit of `c` as written after a `\\u`. */
  function Unit(c: char): nat {
    if c as int < 0x10000 then c as int else 0xd800 + (c as int - 0x10000) / 1024
  }

  /** The escapes that are six or twelve characters long. */
  predicate Hexed(c: char) {
    c !in "\"\\\n\r\t\U{0c}\U{08}" && !(' ' <= c <= '~')
  }

  lemma HexedShape(c: char)
    requires Hexed(c)
    ensures EscapeChar(c)[..6] == "\\u" + Hex4(Unit(c))
    ensures if c as int < 0x10000 then |EscapeChar(c)| == 6
            else |EscapeChar(c)| == 12 && EscapeChar(c)[8..] == Hex4(0xdc00 + (c as int - 0x10000) % 1024)
  {
  }

  lemma HexedUnambiguous(c: char, d: char, w: string)
    requires Hexed(c) && Hexed(d) && EscapeChar(c) <= w && EscapeChar(d) <= w
    ensures c == d
  {
    HexedShape(c);
    HexedShape(d);
    var x, y := EscapeChar(c), EscapeChar(d);
    assert w[2..6] == x[..6][2..] == y[..6][2..];
    assert x[..6][2..] == Hex4(Unit(c)) && y[..6][2..] == Hex4(Unit(d));
    Hex4Injective(Unit(c), Unit(d));
    if |x| == 12 {
      assert w[8..12] == x[8..] == y[8..];
      Hex4Injective(0xdc00 + (c as int - 0x10000) % 1024, 0xdc00 + (d as int - 0x10000) % 1024);
    }
  }

  lemma ShortEscape(c: char)
    ensures EscapeChar(c) != ""
    ensures !Hexed(c) ==> |EscapeChar(c)| == (if EscapeChar(c)[0] == '\\' then 2 else 1)
    ensures EscapeChar(c)[0] == '\\' ==> |EscapeChar(c)| > 1 && (EscapeChar(c)[1] == 'u' <==> Hexed(c))
  {
  }

  /** No escape is a prefix of another. */
  lemma EscapeCharUnambiguous(c: char, d: char, s: string, t: string)
    requires EscapeChar(c) + s == EscapeChar(d) + t
    ensures c == d && s == t
  {
    var x, y := EscapeChar(c), EscapeChar(d);
    var w := x + s;
    ShortEscape(c);
    ShortEscape(d);
    assert w[0] == x[0] == y[0];
    assert x <= w && y <= w;
    if Hexed(c) && Hexed(d) {
      HexedUnambiguous(c, d, w);
    } else if x[0] == '\\' {
      assert w[1] == x[1] == y[1];
    }
    SameSplit(x, y, s, t);
  }

  lemma EscapeCharHead(c: char)
    ensures EscapeChar(c) != "" && EscapeChar(c)[0] != '\"'
  {
  }

  lemma Regroup(a: string, b: string, c: string, d: string)
    ensures a + b + c + d == a + (b + c + d)
  {
  }

  lemma EscapedTail(x: string, s: string)
    ensures Escape(x) + "\"" + s != ""
    ensures (Escape(x) + "\"" + s)[0] == '\"' <==> x == ""
    ensures x == "" ==> Escape(x) + "\"" + s == "\"" + s
    ensures x != "" ==> Escape(x) + "\"" + s == EscapeChar(x[0]) + (Escape(x[1..]) + "\"" + s)
  {
    if x != "" {
      var e := EscapeChar(x[0]);
      EscapeCharHead(x[0]);
      Regroup(e, Escape(x[1..]), "\"", s);
      assert (e + (Escape(x[1..]) + "\"" + s))[0] == e[0];
    }
  }

  lemma {:induction false} EscapeUnambiguous(x: string, y: string, s: string, t: string)
    requires Escape(x) + "\"" + s == Escape(y) + "\"" + t
    ensures x == y && s == t
  {
    EscapedTail(x, s);
    EscapedTail(y, t);
    if x == "" {
      SameSplit("\"", "\"", s, t);
    } else {
      EscapeCharUnambiguous(x[0], y[0], Escape(x[1..]) + "\"" + s, Escape(y[1..]) + "\"" + t);
      EscapeUnambiguous(x[1..], y[1..], s, t);
    }
  }

  lemma QuoteTail(x: string, s: string)
    ensures (Quote(x) + s)[1..] == Escape(x) + "\"" + s
  {
  }

  lemma QuoteUnambiguous(x: string, y: string, s: string, t: string)
    requires Quote(x) + s == Quote(y) + t
    ensures x == y && s == t
  {
    QuoteTail(x, s);
    QuoteTail(y, t);
    EscapeUnambiguous(x, y, s, t);
  }

  // ---- Unambiguity of values ----

  /** What an encoding starts with tells the kind of value. */
  lemma FirstChar(a: Json, s: string)
    ensures Encode(a) + s != ""
    ensures var c := (Encode(a) + s)[0];
      && (a.JNull? <==> c == 'n')
      && (a.JBool? <==> c == 't' || c == 'f')
      && (a.JInt? <==> c == '-' || IsDigit(c))
      && (a.JStr? <==> c == '\"')
      && (a.JArr? <==> c == '[')
      && (a.JObj? <==> c == '{')
  {
    var e := Encode(a);
    if a.JInt? {
      DigitsFacts(if a.i < 0 then -a.i else a.i);
      assert a.i >= 0 ==> e[0] in Digits(a.i);
    }
    assert e != "" && (e + s)[0] == e[0];
  }

  lemma {:induction false} Unambiguous(a: Json, b: Json, s: string, t: string)
    requires Encode(a) + s == Encode(b) + t && Stops(s) && Stops(t)
    ensures a == b && s == t
    decreases a, 1, 0
  {
    FirstChar(a, s);
    FirstChar(b, t);
    match a {
      case JNull =>
        SameSplit(Encode(a), Encode(b), s, t);
      case JBool(x) =>
        assert (Encode(a) + s)[0] == Encode(a)[0] && (Encode(b) + t)[0] == Encode(b)[0];
        SameSplit(Encode(a), Encode(b), s, t);
      case JInt(i) =>
        DecimalUnambiguous(i, b.i, s, t);
      case JStr(x) =>
        QuoteUnambiguous(x, b.s, s, t);
      case JArr(_) =>
        SameTail("[", EncodeItems(a, 0), EncodeItems(b, 0), s, t);
        ItemsUnambiguous(a, b, 0, s, t);
      case JObj(m) =>
        SortedKeysFacts(m.Keys);
        SortedKeysFacts(b.fields.Keys);
        var ks, ls := SortedKeys(m.Keys), SortedKeys(b.fields.Keys);
        SameTail("{", EncodeFields(a, ks, ""), EncodeFields(b, ls, ""), s, t);
        FieldsUnambiguous(a, b, ks, ls, "", s, t);
        assert forall k :: k in m ==> k in ks;
        assert forall k :: k in b.fields ==> k in ls;
        assert m == b.fields;
    }
  }

  lemma SameTail(p: string, x: string, y: string, s: string, t: string)
    requires p + x + s == p + y + t
    ensures x + s == y + t
  {
    assert p + x + s == p + (x + s) && p + y + t == p + (y + t);
    SameSplit(p, p, x + s, y + t);
  }

  lemma {:induction false} ItemsUnambiguous(a: Json, b: Json, i: nat, s: string, t: string)
    requires a.JArr? && b.JArr? && i <= |a.items| && i <= |b.items| && a.items[..i] == b.items[..i]
    requires EncodeItems(a, i) + s == EncodeItems(b, i) + t
    ensures a == b && s == t
    decreases a, 0, |a.items| - i
  {
    ItemsHead(a, i, s);
    ItemsHead(b, i, t);
    if i == |a.items| {
      SameSplit("]", "]", s, t);
    } else {
      var x, y := EncodeItems(a, i + 1) + s, EncodeItems(b, i + 1) + t;
      SameSplit(if i == 0 then "" else ",", if i == 0 then "" else ",",
        Encode(a.items[i]) + x, Encode(b.items[i]) + y);
      ItemsHead(a, i + 1, s);
      ItemsHead(b, i + 1, t);
      Unambiguous(a.items[i], b.items[i], x, y);
      ItemsUnambiguous(a, b, i + 1, s, t);
    }
  }

  /** A closing bracket is told from a further item by its first character. */
  lemma ItemsHead(a: Json, i: nat, s: string)
    requires a.JArr? && i <= |a.items|
    ensures EncodeItems(a, i) + s != ""
    ensures (EncodeItems(a, i) + s)[0] == ']' <==> i == |a.items|
    ensures i > 0 ==> Stops(EncodeItems(a, i) + s)
    ensures i < |a.items| ==>
      EncodeItems(a, i) + s
      == (if i == 0 then "" else ",") + (Encode(a.items[i]) + (EncodeItems(a, i + 1) + s))
  {
    if i < |a.items| {
      FirstChar(a.items[i], EncodeItems(a, i + 1) + s);
      Regroup(if i == 0 then "" else ",", Encode(a.items[i]), EncodeItems(a, i + 1), s);
    }
  }

  lemma {:induction false} FieldsUnambiguous(
      a: Json, b: Json, ks: seq<string>, ls: seq<string>, sep: string, s: string, t: string)
    requires a.JObj? && b.JObj? && (forall k :: k in ks ==> k in a.fields) && (forall k :: k in ls ==> k in b.fields)
    requires sep == "" || sep == ","
    requires EncodeFields(a, ks, sep) + s == EncodeFields(b, ls, sep) + t
    ensures ks == ls && s == t
    ensures forall k :: k in ks ==> a.fields[k] == b.fields[k]
    decreases a, 0, |ks|
  {
    FieldsHead(a, ks, sep, s);
    FieldsHead(b, ls, sep, t);
    if ks == [] {
      SameSplit("}", "}", s, t);
    } else {
      var x, y := EncodeFields(a, ks[1..], ",") + s, EncodeFields(b, ls[1..], ",") + t;
      var u, v := a.fields[ks[0]], b.fields[ls[0]];
      SameSplit(sep, sep, Quote(ks[0]) + (":" + (Encode(u) + x)), Quote(ls[0]) + (":" + (Encode(v) + y)));
      FieldsHead(a, ks[1..], ",", s);
      FieldsHead(b, ls[1..], ",", t);
      MemberUnambiguous(ks[0], ls[0], u, v, x, y);
      FieldsUnambiguous(a, b, ks[1..], ls[1..], ",", s, t);
      assert ks == [ks[0]] + ks[1..] && ls == [ls[0]] + ls[1..];
    }
  }

  lemma MemberUnambiguous(k: string, l: string, u: Json, v: Json, x: string, y: string)
    requires Quote(k) + (":" + (Encode(u) + x)) == Quote(l) + (":" + (Encode(v) + y))
    requires Stops(x) && Stops(y)
    ensures k == l && u == v && x == y
    decreases u, 2, 0
  {
    QuoteUnambiguous(k, l, ":" + (Encode(u) + x), ":" + (Encode(v) + y));
    SameSplit(":", ":", Encode(u) + x, Encode(v) + y);
    Unambiguous(u, v, x, y);
  }

  lemma FieldsHead(a: Json, ks: seq<string>, sep: string, s: string)
    requires a.JObj? && (forall k :: k in ks ==> k in a.fields) && (sep == "" || sep == ",")
    ensures EncodeFields(a, ks, sep) + s != ""
    ensures (EncodeFields(a, ks, sep) + s)[0] == '}' <==> ks == []
    ensures sep == "," ==> Stops(EncodeFields(a, ks, sep) + s)
    ensures ks != [] ==>
      EncodeFields(a, ks, sep) + s
      == sep + (Quote(ks[0]) + (":" + (Encode(a.fields[ks[0]]) + (EncodeFields(a, ks[1..], ",") + s))))
  {
    if ks == [] {
      assert EncodeFields(a, ks, sep) == "}";
    } else {
      RegroupField(sep, Quote(ks[0]), ":", Encode(a.fields[ks[0]]), EncodeFields(a, ks[1..], ","), s);
    }
  }

  lemma RegroupField(a: string, b: string, c: string, d: string, e: string, s: string)
    ensures (a + (b + (c + (d + e)))) + s == a + (b + (c + (d + (e + s))))
  {
    assert (d + e) + s == d + (e + s);
    assert (c + (d + e)) + s == c + ((d + e) + s);
    assert (b + (c + (d + e))) + s == b + ((c + (d + e)) + s);
    assert (a + (b + (c + (d + e)))) + s == a + ((b + (c + (d + e))) + s);
  }

  /** Canonical JSON bytes determine the value. */
  lemma CanonicalJsonInjective(a: Json, b: Json)
    requires Encode(a) == Encode(b)
    ensures a == b
  {
    assert Encode(a) + "" == Encode(b) + "";
    Unambiguous(a, b, "", "");
  }
}
