/** String operations of the host languages that the modelled code relies on. */
module Text {

  datatype Option<+T> = None | Some(value: T)

  /** What hash functions are taken to be: no two texts share a value. */
  ghost predicate Injective(f: string -> string) {
    forall a, b :: f(a) == f(b) ==> a == b
  }

  /** The characters that Python's `str.strip()` removes. */
  predicate IsSpace(c: char) {
    || '\t' <= c <= '\r'
    || '\U{1c}' <= c <= ' '
    || c == '\U{85}' || c == '\U{a0}' || c == '\U{1680}'
    || '\U{2000}' <= c <= '\U{200a}'
    || c == '\U{2028}' || c == '\U{2029}' || c == '\U{202f}' || c == '\U{205f}' || c == '\U{3000}'
  }

  lemma SpacesExactly(c: char)
    ensures IsSpace(c) <==>
      || c in "\t\n\U{0b}\U{0c}\r\U{1c}\U{1d}\U{1e}\U{1f} \U{85}\U{a0}\U{1680}\U{2000}\U{2001}\U{2002}\U{2003}"
      || c in "\U{2004}\U{2005}\U{2006}\U{2007}\U{2008}\U{2009}\U{200a}\U{2028}\U{2029}\U{202f}\U{205f}\U{3000}"
  {
  }

  function StripLeft(s: string): string {
    if s != "" && IsSpace(s[0]) then StripLeft(s[1..]) else s
  }

  function StripRight(s: string): string {
    if s != "" && IsSpace(s[|s| - 1]) then StripRight(s[..|s| - 1]) else s
  }

  function Strip(s: string): string {
    StripRight(StripLeft(s))
  }

  /** No white space at either end. */
  predicate Unpadded(s: string) {
    s == "" || (!IsSpace(s[0]) && !IsSpace(s[|s| - 1]))
  }

  lemma {:induction false} StripLeftFacts(s: string)
    ensures |StripLeft(s)| <= |s|
    ensures |StripLeft(s)| == |s| <==> StripLeft(s) == s
    ensures StripLeft(s) == s <==> s == "" || !IsSpace(s[0])
    ensures StripLeft(s) == "" || !IsSpace(StripLeft(s)[0])
  {
    if s != "" && IsSpace(s[0]) {
      StripLeftFacts(s[1..]);
    }
  }

  lemma {:induction false} StripRightFacts(s: string)
    ensures |StripRight(s)| <= |s|
    ensures |StripRight(s)| == |s| <==> StripRight(s) == s
    ensures StripRight(s) == s <==> s == "" || !IsSpace(s[|s| - 1])
    ensures StripRight(s) == "" || !IsSpace(StripRight(s)[|StripRight(s)| - 1])
    ensures StripRight(s) <= s
  {
    if s != "" && IsSpace(s[|s| - 1]) {
      StripRightFacts(s[..|s| - 1]);
    }
  }

  /** Stripping removes all outer white space, and changes nothing exactly when there is none. */
  lemma StripFacts(s: string)
    ensures Unpadded(Strip(s))
    ensures |Strip(s)| <= |s|
    ensures |Strip(s)| == |s| <==> Unpadded(s)
    ensures Strip(s) == s <==> Unpadded(s)
  {
    StripLeftFacts(s);
    StripRightFacts(StripLeft(s));
  }

  predicate Blank(s: string) {
    forall c :: c in s ==> IsSpace(c)
  }

  lemma {:induction false} StripLeftCuts(s: string) returns (front: string)
    ensures s == front + StripLeft(s) && Blank(front)
  {
    if s != "" && IsSpace(s[0]) {
      front := StripLeftCuts(s[1..]);
      front := [s[0]] + front;
    } else {
      front := "";
    }
  }

  lemma {:induction false} StripRightCuts(s: string) returns (back: string)
    ensures s == StripRight(s) + back && Blank(back)
  {
    if s != "" && IsSpace(s[|s| - 1]) {
      back := StripRightCuts(s[..|s| - 1]);
      back := back + [s[|s| - 1]];
    } else {
      back := "";
    }
  }

  lemma Regrouped(a: string, b: string, c: string)
    ensures a + b + c == a + (b + c)
  {
  }

  /** What stripping leaves is the middle of the text, between white space. */
  lemma StripKeepsMiddle(s: string) returns (front: string, back: string)
    ensures s == front + Strip(s) + back && Blank(front) && Blank(back) && Unpadded(Strip(s))
  {
    front := StripLeftCuts(s);
    back := StripRightCuts(StripLeft(s));
    Regrouped(front, Strip(s), back);
    StripFacts(s);
  }

  /** The position of the first `c` in `s`, or `|s|`. */
  function Find(s: string, c: char): (i: nat)
    ensures i <= |s|
    ensures i < |s| ==> s[i] == c
    ensures c !in s[..i]
    ensures i == |s| <==> c !in s
  {
    if s == "" then 0
    else if s[0] == c then 0
    else
      var i := Find(s[1..], c) + 1;
      assert s[..i] == [s[0]] + s[1..][..i - 1];
      assert s == [s[0]] + s[1..];
      i
  }

  /** The first occurrence splits `a + [c] + b` after `a` when `a` is free of `c`. */
  lemma FindInConcat(a: string, c: char, b: string)
    requires c !in a
    ensures Find(a + [c] + b, c) == |a|
  {
    var s := a + [c] + b;
    assert s[|a|] == c;
    assert forall k | 0 <= k < |a| :: s[k] == a[k];
    assert s[..Find(s, c)] == (a + [c] + b)[..Find(s, c)];
  }
}
