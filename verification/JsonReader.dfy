/** What a reader of JSON text (section 2 to 7 of RFC 8259) makes of canonical bytes. */
module JsonReader {
  import opened Text
  import opened Json

  // ---- Strings ----

  function HexValue(c: char): Option<nat> {
    if '0' <= c <= '9' then Some(c as nat - '0' as nat)
    else if 'a' <= c <= 'f' then Some(c as nat - 'a' as nat + 10)
    else if 'A' <= c <= 'F' then Some(c as nat - 'A' as nat + 10)
    else None
  }

  /** Four hexadecimal digits. */
  function ReadHex4(s: string): (r: Option<nat>)
    ensures r.Some? ==> r.value < 0x10000
  {
    if |s| < 4 || HexValue(s[0]).None? || HexValue(s[1]).None? || HexValue(s[2]).None? || HexValue(s[3]).None? then None
    else
      Some(HexValue(s[0]).value * 4096 + HexValue(s[1]).value * 256 + HexValue(s[2]).value * 16 + HexValue(s[3]).value)
  }

  /** The character of a surrogate pair. */
  function Paired(high: nat, low: nat): char
    requires 0xd800 <= high < 0xdc00 && 0xdc00 <= low < 0xe000
  {
    (0x10000 + (high - 0xd800) * 1024 + (low - 0xdc00)) as char
  }

  /** What follows a `\u`: one unit, or two for a surrogate pair; a lone surrogate is no character. */
  function ReadUnits(s: string): (r: Option<(char, string)>)
    ensures r.Some? ==> |r.value.1| < |s|
  {
    var u := ReadHex4(s);
    if u.None? then None
    else if u.value < 0xd800 || 0xe000 <= u.value then Some((u.value as char, s[4..]))
    else if u.value >= 0xdc00 || |s| < 10 || s[4] != '\\' || s[5] != 'u' then None
    else
      var v := ReadHex4(s[6..]);
      if v.None? || v.value < 0xdc00 || 0xe000 <= v.value then None else Some((Paired(u.value, v.value), s[10..]))
  }

  /** What a character after a backslash stands for. */
  function Named(c: char): Option<char> {
    match c
    case '\"' => Some('\"') case '\\' => Some('\\') case '/' => Some('/')
    case 'b' => Some('\U{08}') case 'f' => Some('\U{0c}')
    case 'n' => Some('\n') case 'r' => Some('\r') case 't' => Some('\t')
    case _ => None
  }

  /** One character inside a string, escaped or not. */
  function ReadChar(s: string): (r: Option<(char, string)>)
    requires s != ""
    ensures r.Some? ==> |r.value.1| < |s|
  {
    if s[0] == '\\' then
      if |s| < 2 then None
      else if s[1] == 'u' then ReadUnits(s[2..])
      else if Named(s[1]).Some? then Some((Named(s[1]).value, s[2..]))
      else None
    else if s[0] < ' ' then None
    else Some((s[0], s[1..]))
  }

  /** A string after its opening quotation mark, and the text after the closing one. */
  function ReadString(s: string): (r: Option<(string, string)>)
    ensures r.Some? ==> |r.value.1| < |s|
    decreases |s|
  {
    if s == "" then None
    else if s[0] == '\"' then Some(("", s[1..]))
    else
      match ReadChar(s)
      case None => None
      case Some((c, rest)) =>
        match ReadString(rest)
        case None => None
        case Some((x, after)) => Some(([c] + x, after))
  }

  // ---- Numbers ----

  /** An integer; fractions and exponents are not read. */
  function ReadInt(s: string): (r: Option<(int, string)>)
    ensures r.Some? ==> |r.value.1| < |s|
  {
    var negative := s != "" && s[0] == '-';
    var t := if negative then s[1..] else s;
    var n := LeadingDigits(t);
    LeadingDigitsBound(t);
    if n == 0 then None
    else Some((if negative then -Value(t[..n]) else Value(t[..n]), t[n..]))
  }

  lemma {:induction false} LeadingDigitsBound(w: string)
    ensures LeadingDigits(w) <= |w|
  {
    if w != "" && IsDigit(w[0]) {
      LeadingDigitsBound(w[1..]);
    }
  }

  // ---- Values ----

  /** A value at the start of the text, and the text after it. */
  function ReadValue(s: string): (r: Option<(Json, string)>)
    ensures r.Some? ==> |r.value.1| < |s|
    decreases |s|, 1
  {
    if s == "" then None
    else if s[0] == '\"' then
      match ReadString(s[1..])
      case None => None
      case Some((x, rest)) => Some((JStr(x), rest))
    else if s[0] == '[' then
      if |s| > 1 && s[1] == ']' then Some((JArr([]), s[2..]))
      else
        match ReadItems(s[1..])
        case None => None
        case Some((items, rest)) => Some((JArr(items), rest))
    else if s[0] == '{' then
      if |s| > 1 && s[1] == '}' then Some((JObj(map[]), s[2..]))
      else
        match ReadMembers(s[1..])
        case None => None
        case Some((fields, rest)) => Some((JObj(fields), rest))
    else ReadWord(s)
  }

  function ReadWord(s: string): (r: Option<(Json, string)>)
    requires s != ""
    ensures r.Some? ==> |r.value.1| < |s|
  {
    if "null" <= s then Some((JNull, s[4..]))
    else if "true" <= s then Some((JBool(true), s[4..]))
    else if "false" <= s then Some((JBool(false), s[5..]))
    else
      match ReadInt(s)
      case None => None
      case Some((i, rest)) => Some((JInt(i), rest))
  }

  /** One or more items and the closing bracket. */
  function ReadItems(s: string): (r: Option<(seq<Json>, string)>)
    ensures r.Some? ==> |r.value.1| < |s|
    decreases |s|, 2
  {
    match ReadValue(s)
    case None => None
    case Some((item, rest)) =>
      if rest == "" then None
      else if rest[0] == ']' then Some(([item], rest[1..]))
      else if rest[0] != ',' then None
      else
        match ReadItems(rest[1..])
        case None => None
        case Some((items, after)) => Some(([item] + items, after))
  }

  /** A name with its quotation marks and colon. */
  function ReadName(s: string): (r: Option<(string, string)>)
    ensures r.Some? ==> |r.value.1| < |s|
  {
    if s == "" || s[0] != '\"' then None
    else
      match ReadString(s[1..])
      case None => None
      case Some((name, rest)) => if rest == "" || rest[0] != ':' then None else Some((name, rest[1..]))
  }

  /** One or more members and the closing brace; of equal names the last one counts. */
  function ReadMembers(s: string): (r: Option<(map<string, Json>, string)>)
    ensures r.Some? ==> |r.value.1| < |s|
    decreases |s|, 2
  {
    match ReadName(s)
    case None => None
    case Some((name, text)) =>
      match ReadValue(text)
      case None => None
      case Some((value, rest)) =>
        if rest == "" then None
        else if rest[0] == '}' then Some((map[name := value], rest[1..]))
        else if rest[0] != ',' then None
        else
          match ReadMembers(rest[1..])
          case None => None
          case Some((fields, after)) => Some((map[name := value] + fields, after))
  }

  // ---- Reading what was written ----

  lemma HexDigitReads(n: nat)
    requires n < 16
    ensures HexValue(HexDigit(n)) == Some(n)
  {
  }

  lemma Hex4Reads(n: nat, s: string)
    requires n < 0x10000
    ensures ReadHex4(Hex4(n) + s) == Some(n)
  {
    HexParts(n);
    HexDigitReads(n / 4096);
    HexDigitReads(n / 256 % 16);
    HexDigitReads(n / 16 % 16);
    HexDigitReads(n % 16);
    var w := Hex4(n) + s;
    assert w[0] == Hex4(n)[0] && w[1] == Hex4(n)[1] && w[2] == Hex4(n)[2] && w[3] == Hex4(n)[3];
  }

  lemma UnitReads(c: char, s: string)
    requires c as int < 0x10000
    ensures ReadUnits(Hex4(c as int) + s) == Some((c, s))
  {
    Hex4Reads(c as int, s);
    assert (Hex4(c as int) + s)[4..] == s;
  }

  lemma PairedBack(c: char)
    requires c as int >= 0x10000
    ensures var v := c as int - 0x10000;
      0xd800 + v / 1024 < 0xdc00 && Paired(0xd800 + v / 1024, 0xdc00 + v % 1024) == c
  {
  }

  lemma PairStep(w: string, high: nat, t: string, low: nat, s: string)
    requires 0xd800 <= high < 0xdc00 && 0xdc00 <= low < 0xe000
    requires |w| >= 6 && w[4] == '\\' && w[5] == 'u' && w[6..] == t && |t| >= 4 && t[4..] == s
    requires ReadHex4(w) == Some(high) && ReadHex4(t) == Some(low)
    ensures ReadUnits(w) == Some((Paired(high, low), s))
  {
    assert w[10..] == w[6..][4..];
  }

  lemma PairReads(c: char, s: string)
    requires c as int >= 0x10000
    ensures var v := c as int - 0x10000;
      ReadUnits(Hex4(0xd800 + v / 1024) + ("\\u" + (Hex4(0xdc00 + v % 1024) + s))) == Some((c, s))
  {
    var v := c as int - 0x10000;
    var low := Hex4(0xdc00 + v % 1024) + s;
    var w := Hex4(0xd800 + v / 1024) + ("\\u" + low);
    Hex4Reads(0xd800 + v / 1024, "\\u" + low);
    Hex4Reads(0xdc00 + v % 1024, s);
    PairedBack(c);
    assert w[4..] == "\\u" + low && w[4] == w[4..][0] && w[5] == w[4..][1] && w[6..] == w[4..][2..];
    assert low[4..] == s;
    PairStep(w, 0xd800 + v / 1024, low, 0xdc00 + v % 1024, s);
  }

  lemma OneUnitReads(e: string, c: char, s: string)
    requires c as int < 0x10000 && e == "\\u" + Hex4(c as int)
    ensures ReadChar(e + s) == Some((c, s))
  {
    Joined("\\u", Hex4(c as int), s);
    UReads(Hex4(c as int) + s);
    UnitReads(c, s);
  }

  lemma TwoUnitsRead(e: string, c: char, s: string)
    requires c as int >= 0x10000
    requires var v := c as int - 0x10000;
      e == "\\u" + Hex4(0xd800 + v / 1024) + "\\u" + Hex4(0xdc00 + v % 1024)
    ensures ReadChar(e + s) == Some((c, s))
  {
    var high, low := Hex4(0xd800 + (c as int - 0x10000) / 1024), Hex4(0xdc00 + (c as int - 0x10000) % 1024);
    JoinedPair("\\u", high, "\\u", low, s);
    UReads(high + ("\\u" + (low + s)));
    PairReads(c, s);
  }

  lemma HexedReads(c: char, s: string)
    requires Hexed(c)
    ensures ReadChar(EscapeChar(c) + s) == Some((c, s))
  {
    if c as int < 0x10000 {
      OneUnitReads(EscapeChar(c), c, s);
    } else {
      TwoUnitsRead(EscapeChar(c), c, s);
    }
  }

  lemma JoinedPair(a: string, b: string, c: string, d: string, e: string)
    ensures (a + b + c + d) + e == a + (b + (c + (d + e)))
  {
  }

  lemma UReads(t: string)
    ensures ReadChar("\\u" + t) == ReadUnits(t)
  {
    assert ("\\u" + t)[2..] == t;
  }

  lemma ShortReads(c: char, s: string)
    requires !Hexed(c)
    ensures ReadChar(EscapeChar(c) + s) == Some((c, s))
  {
    if ' ' <= c <= '~' && c != '\"' && c != '\\' {
      assert ([c] + s)[1..] == s;
    } else {
      var e := EscapeChar(c);
      NamedReads(c);
      assert (e + s)[0] == '\\' && (e + s)[1] == e[1] && (e + s)[2..] == s;
    }
  }

  lemma NamedReads(c: char)
    requires c in "\"\\\n\r\t\U{0c}\U{08}"
    ensures |EscapeChar(c)| == 2 && EscapeChar(c)[0] == '\\' && EscapeChar(c)[1] != 'u'
    ensures Named(EscapeChar(c)[1]) == Some(c)
  {
  }

  lemma CharReads(c: char, s: string)
    ensures EscapeChar(c) + s != "" && (EscapeChar(c) + s)[0] != '\"'
    ensures ReadChar(EscapeChar(c) + s) == Some((c, s))
  {
    EscapeCharHead(c);
    if Hexed(c) {
      HexedReads(c, s);
    } else {
      ShortReads(c, s);
    }
  }

  lemma StringStep(w: string, c: char, rest: string, x: string, s: string)
    requires w != "" && w[0] != '\"' && ReadChar(w) == Some((c, rest)) && ReadString(rest) == Some((x, s))
    ensures ReadString(w) == Some(([c] + x, s))
  {
  }

  lemma {:induction false} StringReads(x: string, s: string)
    ensures ReadString(Escape(x) + ("\"" + s)) == Some((x, s))
  {
    if x == "" {
      assert Escape(x) + ("\"" + s) == "\"" + s && ("\"" + s)[1..] == s;
    } else {
      var rest := Escape(x[1..]) + ("\"" + s);
      Joined(EscapeChar(x[0]), Escape(x[1..]), "\"" + s);
      CharReads(x[0], rest);
      StringReads(x[1..], s);
      StringStep(EscapeChar(x[0]) + rest, x[0], rest, x[1..], s);
      assert [x[0]] + x[1..] == x;
    }
  }

  lemma QuotedReads(x: string, s: string)
    ensures Quote(x) + s != "" && (Quote(x) + s)[0] == '\"'
    ensures ReadString((Quote(x) + s)[1..]) == Some((x, s))
  {
    StringReads(x, s);
    assert (Quote(x) + s)[1..] == Escape(x) + ("\"" + s);
  }

  lemma DigitsRead(n: nat, s: string)
    requires Stops(s)
    ensures var w := Digits(n) + s;
      LeadingDigits(w) == |Digits(n)| > 0 && Value(w[..|Digits(n)|]) == n && w[|Digits(n)|..] == s && w[0] != '-'
  {
    DigitsFacts(n);
    LeadingDigitsFacts(Digits(n), s);
    var w := Digits(n) + s;
    assert w[..|Digits(n)|] == Digits(n);
    assert w[0] == Digits(n)[0] && Digits(n)[0] in Digits(n);
  }

  lemma IntReads(i: int, s: string)
    requires Stops(s)
    ensures ReadInt(Decimal(i) + s) == Some((i, s))
  {
    DigitsRead(if i < 0 then -i else i, s);
    if i < 0 {
      assert (Decimal(i) + s)[1..] == Digits(-i) + s;
    }
  }

  lemma WordReads(j: Json, s: string)
    requires (j.JNull? || j.JBool? || j.JInt?) && Stops(s)
    ensures ReadValue(Encode(j) + s) == Some((j, s))
  {
    var w := Encode(j) + s;
    FirstChar(j, s);
    match j {
      case JNull => assert "null" <= w && w[4..] == s;
      case JBool(b) => assert if b then "true" <= w && w[4..] == s else "false" <= w && w[5..] == s;
      case JInt(i) =>
        IntReads(i, s);
        assert w[0] != "null"[0] && w[0] != "true"[0] && w[0] != "false"[0];
    }
  }

  /** A reader gets back exactly the value that was written, whatever delimiter follows it. */
  lemma {:induction false} ValueReads(j: Json, s: string)
    requires Stops(s)
    ensures ReadValue(Encode(j) + s) == Some((j, s))
    decreases j, 1, 0
  {
    match j {
      case JStr(x) => QuotedReads(x, s);
      case JArr(_) => ArrayReads(j, s);
      case JObj(_) => ObjectReads(j, s);
      case _ => WordReads(j, s);
    }
  }

  lemma ArrayStep(w: string, t: string)
    requires w == "[" + t && t != ""
    ensures t[0] == ']' ==> ReadValue(w) == Some((JArr([]), t[1..]))
    ensures t[0] != ']' && ReadItems(t).Some? ==>
      ReadValue(w) == Some((JArr(ReadItems(t).value.0), ReadItems(t).value.1))
  {
    assert w[1..] == t && w[2..] == t[1..];
  }

  lemma ItemsStep(w: string, item: Json, rest: string)
    requires ReadValue(w) == Some((item, rest)) && rest != ""
    ensures rest[0] == ']' ==> ReadItems(w) == Some(([item], rest[1..]))
    ensures rest[0] == ',' && ReadItems(rest[1..]).Some? ==>
      ReadItems(w) == Some(([item] + ReadItems(rest[1..]).value.0, ReadItems(rest[1..]).value.1))
  {
  }

  lemma ObjectStep(w: string, t: string)
    requires w == "{" + t && t != ""
    ensures t[0] == '}' ==> ReadValue(w) == Some((JObj(map[]), t[1..]))
    ensures t[0] != '}' && ReadMembers(t).Some? ==>
      ReadValue(w) == Some((JObj(ReadMembers(t).value.0), ReadMembers(t).value.1))
  {
    assert w[1..] == t && w[2..] == t[1..];
  }

  lemma MembersStep(w: string, name: string, text: string, value: Json, rest: string)
    requires ReadName(w) == Some((name, text)) && ReadValue(text) == Some((value, rest)) && rest != ""
    ensures rest[0] == '}' ==> ReadMembers(w) == Some((map[name := value], rest[1..]))
    ensures rest[0] == ',' && ReadMembers(rest[1..]).Some? ==>
      ReadMembers(w) == Some((map[name := value] + ReadMembers(rest[1..]).value.0, ReadMembers(rest[1..]).value.1))
  {
  }

  lemma {:induction false} ArrayReads(j: Json, s: string)
    requires j.JArr? && Stops(s)
    ensures ReadValue(Encode(j) + s) == Some((j, s))
    decreases j, 0, |j.items| + 1
  {
    var t := EncodeItems(j, 0) + s;
    assert Encode(j) + s == "[" + t;
    ItemsHead(j, 0, s);
    ArrayStep(Encode(j) + s, t);
    if j.items == [] {
      assert t == "]" + s;
    } else {
      ItemsRead(j, 0, s);
      assert t == ItemsText(j, 0, s) && j.items[0..] == j.items;
    }
  }

  /** The items from `i` on, without the comma before them, and the text after the array. */
  ghost function ItemsText(j: Json, i: nat, s: string): string
    requires j.JArr? && i < |j.items|
  {
    Encode(j.items[i]) + (EncodeItems(j, i + 1) + s)
  }

  lemma AfterItem(j: Json, i: nat, s: string)
    requires j.JArr? && i < |j.items|
    ensures var rest := EncodeItems(j, i + 1) + s;
      if i + 1 == |j.items| then rest == "]" + s else rest == "," + ItemsText(j, i + 1, s)
  {
    ItemsHead(j, i + 1, s);
  }

  lemma {:induction false} ItemsRead(j: Json, i: nat, s: string)
    requires j.JArr? && i < |j.items| && Stops(s)
    ensures ReadItems(ItemsText(j, i, s)) == Some((j.items[i..], s))
    decreases j, 0, |j.items| - i
  {
    var rest := EncodeItems(j, i + 1) + s;
    AfterItem(j, i, s);
    ValueReads(j.items[i], rest);
    ItemsStep(ItemsText(j, i, s), j.items[i], rest);
    if i + 1 < |j.items| {
      ItemsRead(j, i + 1, s);
      assert rest[1..] == ItemsText(j, i + 1, s);
      assert j.items[i..] == [j.items[i]] + j.items[i + 1..];
    } else {
      assert rest[1..] == s && j.items[i..] == [j.items[i]];
    }
  }

  /** The members named by `ks`. */
  function Restricted(fields: map<string, Json>, ks: seq<string>): map<string, Json> {
    map k | k in ks && k in fields :: fields[k]
  }

  lemma RestrictedStep(fields: map<string, Json>, ks: seq<string>)
    requires ks != [] && ks[0] in fields
    ensures map[ks[0] := fields[ks[0]]] + Restricted(fields, ks[1..]) == Restricted(fields, ks)
    ensures |ks| == 1 ==> map[ks[0] := fields[ks[0]]] == Restricted(fields, ks)
  {
    assert ks == [ks[0]] + ks[1..];
  }

  lemma {:induction false} ObjectReads(j: Json, s: string)
    requires j.JObj? && Stops(s)
    ensures ReadValue(Encode(j) + s) == Some((j, s))
    decreases j, 0, |SortedKeys(j.fields.Keys)| + 1
  {
    SortedKeysFacts(j.fields.Keys);
    var ks := SortedKeys(j.fields.Keys);
    var t := EncodeFields(j, ks, "") + s;
    ObjectText(j, s);
    FieldsHead(j, ks, "", s);
    ObjectStep(Encode(j) + s, t);
    if ks == [] {
      assert t == "}" + s && j.fields == map[];
    } else {
      MembersRead(j, ks, s);
      assert t == MembersText(j, ks, s);
      assert Restricted(j.fields, ks) == j.fields;
    }
  }

  lemma Joined(a: string, b: string, c: string)
    ensures (a + b) + c == a + (b + c)
  {
  }

  lemma ObjectText(j: Json, s: string)
    requires j.JObj?
    ensures forall k :: k in SortedKeys(j.fields.Keys) ==> k in j.fields
    ensures Encode(j) + s == "{" + (EncodeFields(j, SortedKeys(j.fields.Keys), "") + s)
  {
    SortedKeysFacts(j.fields.Keys);
    Joined("{", EncodeFields(j, SortedKeys(j.fields.Keys), ""), s);
  }

  lemma NameReads(name: string, s: string)
    ensures ReadName(Quote(name) + (":" + s)) == Some((name, s))
  {
    QuotedReads(name, ":" + s);
    assert (":" + s)[1..] == s;
  }

  /** The members named by `ks`, without the comma before them, and the text after the object. */
  ghost function MembersText(j: Json, ks: seq<string>, s: string): string
    requires j.JObj? && ks != [] && forall k :: k in ks ==> k in j.fields
  {
    Quote(ks[0]) + (":" + (Encode(j.fields[ks[0]]) + (EncodeFields(j, ks[1..], ",") + s)))
  }

  lemma {:induction false} MembersRead(j: Json, ks: seq<string>, s: string)
    requires j.JObj? && ks != [] && (forall k :: k in ks ==> k in j.fields) && Stops(s)
    ensures ReadMembers(MembersText(j, ks, s)) == Some((Restricted(j.fields, ks), s))
    decreases j, 0, |ks|
  {
    var rest := EncodeFields(j, ks[1..], ",") + s;
    var text := Encode(j.fields[ks[0]]) + rest;
    NameReads(ks[0], text);
    FieldsHead(j, ks[1..], ",", s);
    ValueReads(j.fields[ks[0]], rest);
    MembersStep(MembersText(j, ks, s), ks[0], text, j.fields[ks[0]], rest);
    RestrictedStep(j.fields, ks);
    if |ks| == 1 {
      assert rest == "}" + s;
    } else {
      assert rest == "," + MembersText(j, ks[1..], s);
      MembersRead(j, ks[1..], s);
      assert rest[1..] == MembersText(j, ks[1..], s);
    }
  }

  /** Canonical bytes have a left inverse. */
  lemma CanonicalJsonReads(j: Json)
    ensures ReadValue(Encode(j)) == Some((j, ""))
  {
    ValueReads(j, "");
    assert Encode(j) + "" == Encode(j);
  }
}
