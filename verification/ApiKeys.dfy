/** The text forms of API keys and of their stored hashes. */
module ApiKeys {
  import opened Text

  const KEY_PREFIX: string := "cs_"
  const METHOD: string := "pbkdf2_sha256"
  const ITERATIONS: string := "200000"

  type Bytes = seq<bv8>

  /** Hexadecimal and integer text, and the key derivation function. */
  datatype Host = Host(
    hex: Bytes -> string, fromHex: string -> Option<Bytes>, readInt: string -> Option<int>,
    derive: (string, Bytes, int) -> Bytes)

  /** What the host's conversions promise. */
  ghost predicate WellBehaved(h: Host) {
    && (forall b :: h.fromHex(h.hex(b)) == Some(b) && '$' !in h.hex(b))
    && h.readInt("200000") == Some(200_000)
  }

  /** `api_key_lookup_prefix`. */
  function LookupPrefix(apiKey: string): Option<string> {
    if !(KEY_PREFIX <= apiKey) then None
    else
      var body := apiKey[|KEY_PREFIX|..];
      var dot := Find(body, '.');
      if dot == |body| || dot == 0 then None else Some(body[..dot])
  }

  function ApiKey(lookup: string, secret: string): string {
    KEY_PREFIX + (lookup + ['.'] + secret)
  }

  lemma BuiltHasPrefix(lookup: string, secret: string)
    requires lookup != "" && '.' !in lookup
    ensures LookupPrefix(ApiKey(lookup, secret)) == Some(lookup)
  {
    var body := lookup + ['.'] + secret;
    assert ApiKey(lookup, secret)[|KEY_PREFIX|..] == body;
    FindInConcat(lookup, '.', secret);
    assert body[..|lookup|] == lookup;
  }

  /** The prefix is found in exactly the keys built from a non-empty prefix without a dot and some secret. */
  lemma PrefixIffBuilt(apiKey: string, lookup: string)
    ensures LookupPrefix(apiKey) == Some(lookup)
       <==> lookup != "" && '.' !in lookup && exists secret :: apiKey == "cs_" + (lookup + ['.'] + secret)
  {
    if LookupPrefix(apiKey) == Some(lookup) {
      var body := apiKey[|KEY_PREFIX|..];
      var dot := Find(body, '.');
      assert body == lookup + ['.'] + body[dot + 1..];
      assert apiKey == ApiKey(lookup, body[dot + 1..]);
    }
    if lookup != "" && '.' !in lookup {
      forall secret | apiKey == "cs_" + (lookup + ['.'] + secret) ensures LookupPrefix(apiKey) == Some(lookup) {
        BuiltHasPrefix(lookup, secret);
      }
    }
  }

  /** What stands before and after the first dollar sign. */
  function Cut(s: string): Option<(string, string)> {
    var i := Find(s, '$');
    if i == |s| then None else Some((s[..i], s[i + 1..]))
  }

  /** `split("$", 3)`, where it gives the four parts that are asked for. */
  function SplitInFour(s: string): Option<(string, string, string, string)> {
    match Cut(s)
    case None => None
    case Some((a, t)) =>
      match Cut(t)
      case None => None
      case Some((b, u)) =>
        match Cut(u)
        case None => None
        case Some((c, d)) => Some((a, b, c, d))
  }

  lemma CutJoined(a: string, rest: string)
    requires '$' !in a
    ensures Cut(a + ['$'] + rest) == Some((a, rest))
  {
    FindInConcat(a, '$', rest);
    var s := a + ['$'] + rest;
    assert s[..|a|] == a && s[|a| + 1..] == rest;
  }

  lemma SplitJoined(a: string, b: string, c: string, d: string)
    requires '$' !in a && '$' !in b && '$' !in c
    ensures SplitInFour(a + ['$'] + (b + ['$'] + (c + ['$'] + d))) == Some((a, b, c, d))
  {
    CutJoined(c, d);
    CutJoined(b, c + ['$'] + d);
    CutJoined(a, b + ['$'] + (c + ['$'] + d));
  }

  /** `hash_api_key` for a given salt. */
  function HashApiKey(h: Host, apiKey: string, salt: Bytes): string {
    METHOD + ['$'] + (ITERATIONS + ['$'] + (h.hex(salt) + ['$'] + h.hex(h.derive(apiKey, salt, 200_000))))
  }

  /** `verify_api_key`. */
  function VerifyApiKey(h: Host, apiKey: string, encoded: Option<string>): bool {
    if encoded.None? || encoded.value == "" then false
    else match SplitInFour(encoded.value)
      case None => false
      case Some((name, iterations, salt, digest)) =>
        && name == METHOD
        && h.readInt(iterations).Some? && h.fromHex(salt).Some? && h.fromHex(digest).Some?
        && h.derive(apiKey, h.fromHex(salt).value, h.readInt(iterations).value) == h.fromHex(digest).value
  }

  lemma CutMeans(s: string, a: string, rest: string)
    ensures Cut(s) == Some((a, rest)) <==> '$' !in a && s == a + ['$'] + rest
  {
    if '$' !in a && s == a + ['$'] + rest {
      CutJoined(a, rest);
    }
  }

  /** `it`, `salt` and `digest` are the parts of a stored hash of the one known method that verifies the key. */
  predicate Parts(h: Host, apiKey: string, encoded: string, it: string, salt: string, digest: string) {
    && '$' !in it && '$' !in salt && encoded == "pbkdf2_sha256" + ['$'] + (it + ['$'] + (salt + ['$'] + digest))
    && h.readInt(it).Some? && h.fromHex(salt).Some? && h.fromHex(digest).Some?
    && h.derive(apiKey, h.fromHex(salt).value, h.readInt(it).value) == h.fromHex(digest).value
  }

  /** A stored text verifies a key exactly if it has these four parts. */
  lemma VerifyExactly(h: Host, apiKey: string, encoded: string)
    ensures VerifyApiKey(h, apiKey, Some(encoded)) <==>
      exists it, salt, digest :: Parts(h, apiKey, encoded, it, salt, digest)
    ensures !VerifyApiKey(h, apiKey, None)
  {
    if VerifyApiKey(h, apiKey, Some(encoded)) {
      var (name, it, salt, digest) := SplitInFour(encoded).value;
      var t := Cut(encoded).value.1;
      var u := Cut(t).value.1;
      CutMeans(encoded, name, t);
      CutMeans(t, it, u);
      CutMeans(u, salt, digest);
      assert Parts(h, apiKey, encoded, it, salt, digest);
    }
    forall it, salt, digest | Parts(h, apiKey, encoded, it, salt, digest)
      ensures VerifyApiKey(h, apiKey, Some(encoded))
    {
      SplitJoined(METHOD, it, salt, digest);
    }
  }

  /** A stored hash verifies exactly the keys that derive the same bytes as the key it was made from. */
  lemma HashVerifiesItsKey(h: Host, apiKey: string, other: string, salt: Bytes)
    requires WellBehaved(h)
    ensures VerifyApiKey(h, other, Some(HashApiKey(h, apiKey, salt)))
       <==> h.derive(other, salt, 200_000) == h.derive(apiKey, salt, 200_000)
  {
    SplitJoined(METHOD, ITERATIONS, h.hex(salt), h.hex(h.derive(apiKey, salt, 200_000)));
  }
}
