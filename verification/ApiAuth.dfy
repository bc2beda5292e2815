/** Authentication by API key, with the cache of keys verified before. */
module ApiAuth {
  import opened Text
  import opened ApiKeys
  import opened TtlCache

  datatype Customer = Customer(id: string, apiKey: string, hash: Option<string>)

  datatype ScopedKey = ScopedKey(
    customerId: string, apiKey: string, hash: string, scopes: set<string>, active: bool)

  /** The `customers` and `tenant_api_keys` tables by primary key. */
  datatype Db = Db(customers: map<string, Customer>, keys: map<string, ScopedKey>)

  /** The `api_key` column is unique in each table. */
  ghost predicate UniqueRows(db: Db) {
    && (forall c :: c in db.customers ==> db.customers[c].id == c)
    && (forall c, d ::
          c in db.customers && d in db.customers && db.customers[c].apiKey == db.customers[d].apiKey ==> c == d)
    && (forall k, l :: k in db.keys && l in db.keys && db.keys[k].apiKey == db.keys[l].apiKey ==> k == l)
  }

  datatype Kind = Bootstrap | Scoped

  datatype Auth = Auth(customer: Customer, scopes: set<string>, keyId: string, kind: Kind)

  datatype Outcome = Granted(auth: Auth) | Refused | Conflict

  const ALL_SCOPES: set<string> := {"admin", "issuer", "verifier", "reader", "revoker"}

  /** What is cached for a key that was verified. */
  datatype Verified = Verified(customerId: string, hash: string, keyId: string, scopes: set<string>, kind: Kind)

  ghost function ActiveKey(db: Db, lookup: Option<string>): Option<string> {
    if lookup.Some? && exists k :: k in db.keys && db.keys[k].apiKey == lookup.value && db.keys[k].active then
      var k :| k in db.keys && db.keys[k].apiKey == lookup.value && db.keys[k].active;
      Some(k)
    else None
  }

  ghost function CustomerWith(db: Db, apiKey: Option<string>): Option<string> {
    if apiKey.Some? && exists c :: c in db.customers && db.customers[c].apiKey == apiKey.value then
      var c :| c in db.customers && db.customers[c].apiKey == apiKey.value;
      Some(c)
    else None
  }

  function BootstrapAuth(c: Customer): Auth {
    Auth(c, ALL_SCOPES, c.id, Bootstrap)
  }

  /** The row of a customer whose plaintext key has been replaced by a hash. */
  function Upgraded(c: Customer, lookup: Option<string>, newHash: string): Customer {
    var head := if |c.id| <= 16 then c.id else c.id[..16];
    c.(hash := Some(newHash), apiKey := match lookup case Some(l) => l case None => head)
  }

  predicate Present(hash: Option<string>) {
    hash.Some? && hash.value != ""
  }

  /** `_authenticate_customer`, with `newHash` the hash made for a legacy row. */
  ghost function Authenticate(h: Host, db: Db, apiKey: string, newHash: string): (Outcome, Db) {
    var lookup := LookupPrefix(apiKey);
    var scoped := ActiveKey(db, lookup);
    if && scoped.Some? && VerifyApiKey(h, apiKey, Some(db.keys[scoped.value].hash))
       && db.keys[scoped.value].customerId in db.customers then
      var row := db.keys[scoped.value];
      (Granted(Auth(db.customers[row.customerId], row.scopes, scoped.value, Scoped)), db)
    else
      var candidate := CustomerWith(db, lookup);
      if candidate.Some? then
        var c := db.customers[candidate.value];
        (if VerifyApiKey(h, apiKey, c.hash) then Granted(BootstrapAuth(c)) else Refused, db)
      else AuthenticateLegacy(h, db, apiKey, newHash)
  }

  ghost function AuthenticateLegacy(h: Host, db: Db, apiKey: string, newHash: string): (Outcome, Db) {
    var legacy := CustomerWith(db, Some(apiKey));
    if legacy.None? then (Refused, db)
    else
      var c := db.customers[legacy.value];
      if Present(c.hash) then (if VerifyApiKey(h, apiKey, c.hash) then Granted(BootstrapAuth(c)) else Refused, db)
      else
        var upgraded := Upgraded(c, LookupPrefix(apiKey), newHash);
        if CustomerWith(db, Some(upgraded.apiKey)).Some? && upgraded.apiKey != c.apiKey then (Conflict, db)
        else (Granted(BootstrapAuth(upgraded)), db.(customers := db.customers[legacy.value := upgraded]))
  }

  /** What a cached verification is still worth against the current rows. */
  function Recheck(db: Db, v: Verified): Option<Auth> {
    match v.kind
    case Bootstrap =>
      if v.customerId in db.customers && Present(db.customers[v.customerId].hash)
         && db.customers[v.customerId].hash.value == v.hash
      then Some(Auth(db.customers[v.customerId], v.scopes, v.keyId, Bootstrap)) else None
    case Scoped =>
      if v.keyId in db.keys && db.keys[v.keyId].active && db.keys[v.keyId].customerId == v.customerId
         && db.keys[v.keyId].hash == v.hash && v.customerId in db.customers
      then Some(Auth(db.customers[v.customerId], db.keys[v.keyId].scopes, v.keyId, Scoped)) else None
  }

  /** The hash that a granted authentication was verified against, if it can be cached. */
  function VerifiedHash(db: Db, auth: Auth): Option<string> {
    if auth.kind == Bootstrap then auth.customer.hash
    else if auth.keyId in db.keys then Some(db.keys[auth.keyId].hash) else None
  }

  /** The fingerprint under which a key is cached. */
  type Fingerprint = string -> string

  ghost function CurrentAuth(
      h: Host, f: Fingerprint, c: Config, db: Db, s: Store<string, Verified>,
      apiKey: string, now: real, later: real, newHash: string): (Outcome, Db, Store<string, Verified>)
  {
    if apiKey == "" then (Refused, db, s)
    else
      var (cached, t) := Got(c, s, f(apiKey), now);
      if cached.Some? && Recheck(db, cached.value).Some? then (Granted(Recheck(db, cached.value).value), db, t)
      else
        var u := if cached.Some? then Without(t, f(apiKey)) else t;
        var (outcome, after) := Authenticate(h, db, apiKey, newHash);
        (outcome, after, Remembered(f, c, after, u, apiKey, outcome, later))
  }

  function Remembered(
      f: Fingerprint, c: Config, db: Db, s: Store<string, Verified>, apiKey: string, outcome: Outcome, later: real)
      : Store<string, Verified>
  {
    if !outcome.Granted? || !Present(VerifiedHash(db, outcome.auth)) then s
    else
      var a := outcome.auth;
      Put(c, s, f(apiKey), Verified(a.customer.id, VerifiedHash(db, a).value, a.keyId, a.scopes, a.kind), later)
  }

  lemma OnlyKey(db: Db, lookup: string, k: string)
    requires UniqueRows(db) && k in db.keys && db.keys[k].apiKey == lookup && db.keys[k].active
    ensures ActiveKey(db, Some(lookup)) == Some(k)
  {
  }

  lemma OnlyCustomer(db: Db, apiKey: string, c: string)
    requires UniqueRows(db) && c in db.customers && db.customers[c].apiKey == apiKey
    ensures CustomerWith(db, Some(apiKey)) == Some(c)
  {
  }

  class Authenticator {
    const host: Host
    const fingerprint: Fingerprint
    const cache: TTLCache<string, Verified>
    var db: Db

    constructor (host: Host, fingerprint: Fingerprint, maxSize: int, ttl: real, db: Db)
      ensures this.host == host && this.fingerprint == fingerprint && this.db == db
      ensures fresh(cache) && cache.store == []
    {
      this.host := host;
      this.fingerprint := fingerprint;
      this.db := db;
      cache := new TTLCache(maxSize, ttl);
    }

    method AuthenticateCustomer(apiKey: string, newHash: string) returns (outcome: Outcome)
      requires UniqueRows(db)
      modifies this`db
      ensures (outcome, db) == Authenticate(host, old(db), apiKey, newHash)
    {
      var lookup := LookupPrefix(apiKey);
      if lookup.Some? {
        if k :| k in db.keys && db.keys[k].apiKey == lookup.value && db.keys[k].active {
          OnlyKey(db, lookup.value, k);
          if VerifyApiKey(host, apiKey, Some(db.keys[k].hash)) {
            var row := db.keys[k];
            if row.customerId in db.customers {
              return Granted(Auth(db.customers[row.customerId], row.scopes, k, Scoped));
            }
          }
        }
        if c :| c in db.customers && db.customers[c].apiKey == lookup.value {
          OnlyCustomer(db, lookup.value, c);
          if VerifyApiKey(host, apiKey, db.customers[c].hash) {
            return Granted(BootstrapAuth(db.customers[c]));
          }
          return Refused;
        }
      }
      outcome := AuthenticateLegacyCustomer(apiKey, newHash);
    }

    method AuthenticateLegacyCustomer(apiKey: string, newHash: string) returns (outcome: Outcome)
      requires UniqueRows(db)
      modifies this`db
      ensures (outcome, db) == AuthenticateLegacy(host, old(db), apiKey, newHash)
    {
      if c :| c in db.customers && db.customers[c].apiKey == apiKey {
        OnlyCustomer(db, apiKey, c);
        var legacy := db.customers[c];
        if Present(legacy.hash) {
          if VerifyApiKey(host, apiKey, legacy.hash) {
            return Granted(BootstrapAuth(legacy));
          }
          return Refused;
        }
        var upgraded := Upgraded(legacy, LookupPrefix(apiKey), newHash);
        var taken := exists d :: d in db.customers && db.customers[d].apiKey == upgraded.apiKey;
        if upgraded.apiKey != legacy.apiKey && taken {
          return Conflict;
        }
        db := db.(customers := db.customers[c := upgraded]);
        return Granted(BootstrapAuth(upgraded));
      }
      return Refused;
    }

    /** `get_current_auth`; the empty key stands for a missing header. */
    method GetCurrentAuth(apiKey: string, now: real, later: real, newHash: string) returns (outcome: Outcome)
      requires UniqueRows(db)
      modifies this`db, cache
      ensures (outcome, db, cache.store)
           == CurrentAuth(host, fingerprint, cache.config, old(db), old(cache.store), apiKey, now, later, newHash)
    {
      if apiKey == "" {
        return Refused;
      }
      var key := fingerprint(apiKey);
      var cached := cache.Get(key, now);
      if cached.Some? {
        var auth := Recheck(db, cached.value);
        if auth.Some? {
          return Granted(auth.value);
        }
        cache.Invalidate(key);
      }
      outcome := AuthenticateCustomer(apiKey, newHash);
      if outcome.Granted? {
        var auth := outcome.auth;
        var hash := VerifiedHash(db, auth);
        if Present(hash) {
          cache.Set(key, Verified(auth.customer.id, hash.value, auth.keyId, auth.scopes, auth.kind), later);
        }
      }
    }
  }

  // ---- Every context is genuine ----

  /** `auth` names rows that exist now, whose current hash verifies the key, with the scopes due now. */
  ghost predicate Genuine(h: Host, db: Db, apiKey: string, auth: Auth) {
    && auth.customer.id in db.customers && db.customers[auth.customer.id] == auth.customer
    && match auth.kind
       case Bootstrap =>
         auth.keyId == auth.customer.id && auth.scopes == ALL_SCOPES && VerifyApiKey(h, apiKey, auth.customer.hash)
       case Scoped =>
         && auth.keyId in db.keys && db.keys[auth.keyId].active
         && db.keys[auth.keyId].customerId == auth.customer.id
         && db.keys[auth.keyId].scopes == auth.scopes
         && VerifyApiKey(h, apiKey, Some(db.keys[auth.keyId].hash))
  }

  /** A cached verification holds for the keys with its fingerprint, whatever the tables say. */
  ghost predicate EntryOk(h: Host, f: Fingerprint, e: Entry<string, Verified>) {
    && (forall k :: f(k) == e.key ==> VerifyApiKey(h, k, Some(e.value.hash)))
    && (e.value.kind == Bootstrap ==> e.value.keyId == e.value.customerId && e.value.scopes == ALL_SCOPES)
  }

  ghost predicate CacheOk(h: Host, f: Fingerprint, s: Store<string, Verified>) {
    forall e :: e in s ==> EntryOk(h, f, e)
  }

  /** A positive answer is genuine and cacheable; any other changes nothing. */
  ghost predicate Answers(h: Host, db: Db, apiKey: string, outcome: Outcome, after: Db) {
    && UniqueRows(after)
    && (outcome.Granted? ==> Genuine(h, after, apiKey, outcome.auth) && Present(VerifiedHash(after, outcome.auth)))
    && (!outcome.Granted? ==> after == db)
  }

  lemma LegacyGenuine(h: Host, db: Db, apiKey: string, newHash: string)
    requires UniqueRows(db) && VerifyApiKey(h, apiKey, Some(newHash))
    ensures Answers(h, db, apiKey, AuthenticateLegacy(h, db, apiKey, newHash).0,
                    AuthenticateLegacy(h, db, apiKey, newHash).1)
  {
    var legacy := CustomerWith(db, Some(apiKey));
    if legacy.Some? && !Present(db.customers[legacy.value].hash) {
      var upgraded := Upgraded(db.customers[legacy.value], LookupPrefix(apiKey), newHash);
      if upgraded.apiKey == apiKey || CustomerWith(db, Some(upgraded.apiKey)).None? {
        UpgradeKeepsRowsUnique(db, legacy.value, upgraded);
      }
    }
  }

  lemma UpgradeKeepsRowsUnique(db: Db, id: string, row: Customer)
    requires UniqueRows(db) && id in db.customers && row.id == id
    requires forall c :: c in db.customers && c != id ==> db.customers[c].apiKey != row.apiKey
    ensures UniqueRows(db.(customers := db.customers[id := row]))
  {
  }

  lemma AuthenticateGenuine(h: Host, db: Db, apiKey: string, newHash: string)
    requires UniqueRows(db) && VerifyApiKey(h, apiKey, Some(newHash))
    ensures Answers(h, db, apiKey, Authenticate(h, db, apiKey, newHash).0, Authenticate(h, db, apiKey, newHash).1)
  {
    LegacyGenuine(h, db, apiKey, newHash);
  }

  lemma RecheckGenuine(h: Host, f: Fingerprint, db: Db, apiKey: string, e: Entry<string, Verified>)
    requires UniqueRows(db) && EntryOk(h, f, e) && f(apiKey) == e.key && Recheck(db, e.value).Some?
    ensures Genuine(h, db, apiKey, Recheck(db, e.value).value)
  {
  }

  /** Entries after a request are entries from before or the verification just made. */
  lemma StoreAfter(
      h: Host, f: Fingerprint, c: Config, db: Db, s: Store<string, Verified>,
      apiKey: string, now: real, later: real, newHash: string, e: Entry<string, Verified>)
    requires e in CurrentAuth(h, f, c, db, s, apiKey, now, later, newHash).2
    ensures e in s || NewEntry(f, Authenticate(h, db, apiKey, newHash), apiKey, e)
  {
    var k := f(apiKey);
    if apiKey != "" {
      var (cached, t) := Got(c, s, k, now);
      if cached.Some? && Recheck(db, cached.value).Some? {
        StepMembers(c, s, GetOp(k, now), e);
      } else {
        var u := if cached.Some? then Without(t, k) else t;
        var (outcome, after) := Authenticate(h, db, apiKey, newHash);
        RememberedMembers(f, c, after, u, apiKey, outcome, later, e);
        WithoutMembers(t, k, e);
        if e in t {
          StepMembers(c, s, GetOp(k, now), e);
        }
      }
    }
  }

  lemma RememberedMembers(
      f: Fingerprint, c: Config, db: Db, s: Store<string, Verified>, apiKey: string, outcome: Outcome, later: real,
      e: Entry<string, Verified>)
    requires e in Remembered(f, c, db, s, apiKey, outcome, later)
    ensures e in s || NewEntry(f, (outcome, db), apiKey, e)
  {
    if outcome.Granted? && Present(VerifiedHash(db, outcome.auth)) {
      var a := outcome.auth;
      var v := Verified(a.customer.id, VerifiedHash(db, a).value, a.keyId, a.scopes, a.kind);
      StepMembers(c, s, SetOp(f(apiKey), v, later), e);
    }
  }

  predicate NewEntry(f: Fingerprint, answer: (Outcome, Db), apiKey: string, e: Entry<string, Verified>) {
    && answer.0.Granted? && e.key == f(apiKey)
    && var a := answer.0.auth;
       var hash := VerifiedHash(answer.1, a);
       Present(hash) && e.value == Verified(a.customer.id, hash.value, a.keyId, a.scopes, a.kind)
  }

  lemma NewEntryOk(h: Host, f: Fingerprint, db: Db, apiKey: string, newHash: string, e: Entry<string, Verified>)
    requires UniqueRows(db) && Injective(f) && VerifyApiKey(h, apiKey, Some(newHash))
    requires NewEntry(f, Authenticate(h, db, apiKey, newHash), apiKey, e)
    ensures EntryOk(h, f, e)
  {
    AuthenticateGenuine(h, db, apiKey, newHash);
  }

  lemma CacheKeptOk(
      h: Host, f: Fingerprint, c: Config, db: Db, s: Store<string, Verified>,
      apiKey: string, now: real, later: real, newHash: string)
    requires UniqueRows(db) && Injective(f) && VerifyApiKey(h, apiKey, Some(newHash)) && CacheOk(h, f, s)
    ensures CacheOk(h, f, CurrentAuth(h, f, c, db, s, apiKey, now, later, newHash).2)
  {
    forall e | e in CurrentAuth(h, f, c, db, s, apiKey, now, later, newHash).2 ensures EntryOk(h, f, e) {
      StoreAfter(h, f, c, db, s, apiKey, now, later, newHash, e);
      if e !in s {
        NewEntryOk(h, f, db, apiKey, newHash, e);
      }
    }
  }

  /** The verification found for a key, if its row still bears it out. */
  ghost predicate Hit(
      f: Fingerprint, c: Config, db: Db, s: Store<string, Verified>, apiKey: string, now: real,
      e: Entry<string, Verified>)
  {
    && Lookup(s, f(apiKey)) == Some(e) && e in s && e.key == f(apiKey)
    && Got(c, s, f(apiKey), now).0 == Some(e.value) && Recheck(db, e.value).Some?
  }

  /** A request is answered from the cache or by full authentication. */
  lemma HitOrMiss(
      h: Host, f: Fingerprint, c: Config, db: Db, s: Store<string, Verified>,
      apiKey: string, now: real, later: real, newHash: string)
    ensures var (outcome, after, _) := CurrentAuth(h, f, c, db, s, apiKey, now, later, newHash);
      || (apiKey == "" && outcome == Refused && after == db)
      || (outcome, after) == Authenticate(h, db, apiKey, newHash)
      || (exists e :: Hit(f, c, db, s, apiKey, now, e) && (outcome, after) == (Granted(Recheck(db, e.value).value), db))
  {
    LookupKeys(s, f(apiKey));
    var cached := Got(c, s, f(apiKey), now).0;
    if apiKey != "" && cached.Some? && Recheck(db, cached.value).Some? {
      assert Hit(f, c, db, s, apiKey, now, Lookup(s, f(apiKey)).value);
    }
  }

  /** Hit or miss, the answer is genuine against the rows of the moment. */
  lemma CurrentAuthGenuine(
      h: Host, f: Fingerprint, c: Config, db: Db, s: Store<string, Verified>,
      apiKey: string, now: real, later: real, newHash: string)
    requires UniqueRows(db) && VerifyApiKey(h, apiKey, Some(newHash)) && CacheOk(h, f, s)
    ensures var (outcome, after, _) := CurrentAuth(h, f, c, db, s, apiKey, now, later, newHash);
      outcome.Granted? ==> Genuine(h, after, apiKey, outcome.auth)
  {
    HitOrMiss(h, f, c, db, s, apiKey, now, later, newHash);
    AuthenticateGenuine(h, db, apiKey, newHash);
    forall e | Hit(f, c, db, s, apiKey, now, e) ensures Genuine(h, db, apiKey, Recheck(db, e.value).value) {
      RecheckGenuine(h, f, db, apiKey, e);
    }
  }

  // ---- Who is granted what ----

  /** An active scoped key with the presented prefix, whose hash verifies the key and whose tenant exists. */
  ghost predicate ScopedFor(h: Host, db: Db, apiKey: string, k: string) {
    && k in db.keys && db.keys[k].active && LookupPrefix(apiKey) == Some(db.keys[k].apiKey)
    && VerifyApiKey(h, apiKey, Some(db.keys[k].hash)) && db.keys[k].customerId in db.customers
  }

  ghost predicate NoneScoped(h: Host, db: Db, apiKey: string) {
    forall k :: !ScopedFor(h, db, apiKey, k)
  }

  /** A tenant with the presented prefix. */
  predicate HasPrefix(db: Db, apiKey: string, c: string) {
    c in db.customers && LookupPrefix(apiKey) == Some(db.customers[c].apiKey)
  }

  /** A tenant whose row still holds the whole key where its prefix should be. */
  predicate HoldsPlaintext(db: Db, apiKey: string, c: string) {
    c in db.customers && db.customers[c].apiKey == apiKey
  }

  /** A scoped key wins over a tenant with the same prefix; the scopes are the row's. */
  lemma ScopedKeyWins(h: Host, db: Db, apiKey: string, newHash: string, k: string)
    requires UniqueRows(db) && ScopedFor(h, db, apiKey, k)
    ensures Authenticate(h, db, apiKey, newHash)
      == (Granted(Auth(db.customers[db.keys[k].customerId], db.keys[k].scopes, k, Scoped)), db)
  {
    OnlyKey(db, db.keys[k].apiKey, k);
  }

  /** Without one, a tenant with the prefix decides: it has every scope if its hash verifies the key. */
  lemma TenantKeyDecides(h: Host, db: Db, apiKey: string, newHash: string, c: string)
    requires UniqueRows(db) && NoneScoped(h, db, apiKey) && HasPrefix(db, apiKey, c)
    ensures Authenticate(h, db, apiKey, newHash)
      == (if VerifyApiKey(h, apiKey, db.customers[c].hash)
          then Granted(Auth(db.customers[c], {"admin", "issuer", "verifier", "reader", "revoker"}, c, Bootstrap))
          else Refused, db)
  {
    NotScoped(h, db, apiKey);
    OnlyCustomer(db, db.customers[c].apiKey, c);
  }

  lemma NotScoped(h: Host, db: Db, apiKey: string)
    requires UniqueRows(db) && NoneScoped(h, db, apiKey)
    ensures var k := ActiveKey(db, LookupPrefix(apiKey));
      k.Some? ==> !(VerifyApiKey(h, apiKey, Some(db.keys[k.value].hash)) && db.keys[k.value].customerId in db.customers)
  {
    var k := ActiveKey(db, LookupPrefix(apiKey));
    if k.Some? {
      assert !ScopedFor(h, db, apiKey, k.value);
    }
  }

  /** The row that replaces a plaintext row: the prefix of the key, or the head of the id, and the new hash. */
  function UpgradedRow(db: Db, apiKey: string, newHash: string, c: string): Customer
    requires c in db.customers
  {
    var prefix := LookupPrefix(apiKey);
    Customer(c, if prefix.Some? then prefix.value else if |c| < 16 then c else c[..16], Some(newHash))
  }

  /**
   * Without either, a row that holds the whole key decides: by its hash if it has one; otherwise it is
   * replaced, unless another tenant has the name it would get.
   */
  lemma PlaintextRowDecides(h: Host, db: Db, apiKey: string, newHash: string, c: string)
    requires UniqueRows(db) && NoneScoped(h, db, apiKey) && HoldsPlaintext(db, apiKey, c)
    requires forall d :: !HasPrefix(db, apiKey, d)
    ensures var row := UpgradedRow(db, apiKey, newHash, c);
      Authenticate(h, db, apiKey, newHash) ==
        if db.customers[c].hash.Some? && db.customers[c].hash.value != "" then
          (if VerifyApiKey(h, apiKey, db.customers[c].hash)
           then Granted(Auth(db.customers[c], ALL_SCOPES, c, Bootstrap)) else Refused, db)
        else if exists d :: d in db.customers && d != c && db.customers[d].apiKey == row.apiKey then (Conflict, db)
        else (Granted(Auth(row, ALL_SCOPES, c, Bootstrap)), db.(customers := db.customers[c := row]))
  {
    NotScoped(h, db, apiKey);
    NoPrefix(db, apiKey);
    OnlyCustomer(db, apiKey, c);
    var row := UpgradedRow(db, apiKey, newHash, c);
    assert row == Upgraded(db.customers[c], LookupPrefix(apiKey), newHash);
    if d :| d in db.customers && db.customers[d].apiKey == row.apiKey {
      OnlyCustomer(db, row.apiKey, d);
    }
  }

  lemma NoPrefix(db: Db, apiKey: string)
    requires forall d :: !HasPrefix(db, apiKey, d)
    ensures CustomerWith(db, LookupPrefix(apiKey)).None?
  {
    var c := CustomerWith(db, LookupPrefix(apiKey));
    if c.Some? {
      assert HasPrefix(db, apiKey, c.value);
    }
  }

  /** Any other key is refused. */
  lemma UnknownKeyRefused(h: Host, db: Db, apiKey: string, newHash: string)
    requires UniqueRows(db) && NoneScoped(h, db, apiKey)
    requires forall c :: !HasPrefix(db, apiKey, c) && !HoldsPlaintext(db, apiKey, c)
    ensures Authenticate(h, db, apiKey, newHash) == (Refused, db)
  {
    NotScoped(h, db, apiKey);
    NoPrefix(db, apiKey);
    NoPlaintext(db, apiKey);
  }

  lemma NoPlaintext(db: Db, apiKey: string)
    requires forall c :: !HoldsPlaintext(db, apiKey, c)
    ensures CustomerWith(db, Some(apiKey)).None?
  {
    var c := CustomerWith(db, Some(apiKey));
    if c.Some? {
      assert HoldsPlaintext(db, apiKey, c.value);
    }
  }

  /** After a replacement no row holds the presented key, unless it has no prefix and is the head of its own id. */
  lemma PlaintextLeavesTheTable(h: Host, db: Db, apiKey: string, newHash: string, c: string, d: string)
    requires UniqueRows(db) && HoldsPlaintext(db, apiKey, c)
    requires Authenticate(h, db, apiKey, newHash).1 != db && d in db.customers
    ensures var after := Authenticate(h, db, apiKey, newHash).1;
      && d in after.customers
      && (after.customers[d].apiKey == apiKey
          <==> d == c && LookupPrefix(apiKey).None? && apiKey == (if |c| < 16 then c else c[..16]))
  {
    OnlyCustomer(db, apiKey, c);
    if LookupPrefix(apiKey).Some? {
      PrefixMeansDot(apiKey);
      PrefixHasNoDot(apiKey);
    }
  }

  lemma PrefixHasNoDot(apiKey: string)
    requires LookupPrefix(apiKey).Some?
    ensures '.' !in LookupPrefix(apiKey).value
  {
    PrefixIffBuilt(apiKey, LookupPrefix(apiKey).value);
  }

  // ---- What is cached ----

  /** What is cached of a granted authentication whose hash is present. */
  function VerificationOf(db: Db, a: Auth): Verified {
    var hash := match VerifiedHash(db, a) case Some(x) => x case None => "";
    Verified(a.customer.id, hash, a.keyId, a.scopes, a.kind)
  }

  /** A verification just made is borne out by the rows it was made against. */
  lemma FreshVerificationHolds(h: Host, db: Db, apiKey: string, newHash: string)
    requires UniqueRows(db) && VerifyApiKey(h, apiKey, Some(newHash))
    requires Authenticate(h, db, apiKey, newHash).0.Granted?
    ensures var (outcome, after) := Authenticate(h, db, apiKey, newHash);
      Recheck(after, VerificationOf(after, outcome.auth)) == Some(outcome.auth)
  {
    AuthenticateGenuine(h, db, apiKey, newHash);
  }

  /** A key that was granted is found in the cache, with that verification, until its entry expires. */
  lemma GrantIsCached(
      h: Host, f: Fingerprint, c: Config, db: Db, s: Store<string, Verified>, apiKey: string, now: real, later: real,
      newHash: string, next: real)
    requires UniqueRows(db) && VerifyApiKey(h, apiKey, Some(newHash)) && apiKey != "" && c.ttl > 0.0 && c.maxSize >= 1
    requires Authenticate(h, db, apiKey, newHash).0.Granted? && next < later + c.ttl
    requires Got(c, s, f(apiKey), now).0.None? && Bounded(c, s)
    ensures var (outcome, after, t) := CurrentAuth(h, f, c, db, s, apiKey, now, later, newHash);
      outcome.Granted? && Got(c, t, f(apiKey), next).0 == Some(VerificationOf(after, outcome.auth))
  {
    AuthenticateGenuine(h, db, apiKey, newHash);
    var (outcome, after) := Authenticate(h, db, apiKey, newHash);
    var v := VerificationOf(after, outcome.auth);
    var u := Got(c, s, f(apiKey), now).1;
    StepBounded(c, s, GetOp(f(apiKey), now));
    PutIsFound(c, u, f(apiKey), v, later, next);
  }

  // ---- The cache is unobservable ----

  /** The lookup prefix that each row keeps for ever, by primary key. */
  datatype Labels = Labels(keys: string -> string, customers: string -> string)

  /** Rows carry their fixed prefixes, none of which has a dot or occurs in both tables. */
  ghost predicate Labelled(l: Labels, db: Db) {
    && (forall k :: k in db.keys ==> db.keys[k].apiKey == l.keys(k))
    && (forall c :: c in db.customers ==> db.customers[c].apiKey == l.customers(c) && '.' !in l.customers(c))
    && (forall k, c :: k in db.keys && c in db.customers ==> db.keys[k].apiKey != db.customers[c].apiKey)
  }

  /** A cached key in the current form has the prefix of the row it was verified against. */
  ghost predicate EntryLabelled(l: Labels, f: Fingerprint, e: Entry<string, Verified>) {
    forall k :: f(k) == e.key && LookupPrefix(k).Some? ==>
      LookupPrefix(k).value == if e.value.kind == Scoped then l.keys(e.value.keyId) else l.customers(e.value.customerId)
  }

  ghost predicate CacheLabelled(l: Labels, f: Fingerprint, s: Store<string, Verified>) {
    forall e :: e in s ==> EntryLabelled(l, f, e)
  }

  lemma RecheckIsAuthenticate(
      h: Host, f: Fingerprint, l: Labels, db: Db, apiKey: string, newHash: string, e: Entry<string, Verified>)
    requires UniqueRows(db) && Labelled(l, db) && LookupPrefix(apiKey).Some?
    requires EntryOk(h, f, e) && EntryLabelled(l, f, e) && f(apiKey) == e.key && Recheck(db, e.value).Some?
    ensures Authenticate(h, db, apiKey, newHash) == (Granted(Recheck(db, e.value).value), db)
  {
    var lookup := LookupPrefix(apiKey);
    if e.value.kind == Scoped {
      OnlyKey(db, lookup.value, e.value.keyId);
    } else {
      assert ActiveKey(db, lookup).None?;
      OnlyCustomer(db, lookup.value, e.value.customerId);
    }
  }

  lemma PrefixMeansDot(apiKey: string)
    requires LookupPrefix(apiKey).Some?
    ensures '.' in apiKey
  {
    var body := apiKey[|KEY_PREFIX|..];
    assert body[Find(body, '.')] == apiKey[|KEY_PREFIX| + Find(body, '.')];
  }

  lemma NewEntryLabelled(
      h: Host, f: Fingerprint, l: Labels, db: Db, apiKey: string, newHash: string, e: Entry<string, Verified>)
    requires UniqueRows(db) && Injective(f) && Labelled(l, db)
    requires NewEntry(f, Authenticate(h, db, apiKey, newHash), apiKey, e)
    ensures EntryLabelled(l, f, e)
  {
    if LookupPrefix(apiKey).Some? {
      PrefixMeansDot(apiKey);
      assert CustomerWith(db, Some(apiKey)).None?;
    }
  }

  /**
   * With fixed prefixes that are unique across both tables, a key in the current form gets from the
   * cache exactly the answer that full authentication would give now.
   */
  lemma CacheUnobservable(
      h: Host, f: Fingerprint, l: Labels, c: Config, db: Db, s: Store<string, Verified>,
      apiKey: string, now: real, later: real, newHash: string)
    requires UniqueRows(db) && Labelled(l, db) && LookupPrefix(apiKey).Some?
    requires CacheOk(h, f, s) && CacheLabelled(l, f, s)
    ensures var (outcome, after, _) := CurrentAuth(h, f, c, db, s, apiKey, now, later, newHash);
      (outcome, after) == Authenticate(h, db, apiKey, newHash)
  {
    HitOrMiss(h, f, c, db, s, apiKey, now, later, newHash);
    forall e | Hit(f, c, db, s, apiKey, now, e)
      ensures Authenticate(h, db, apiKey, newHash) == (Granted(Recheck(db, e.value).value), db)
    {
      RecheckIsAuthenticate(h, f, l, db, apiKey, newHash, e);
    }
    assert apiKey != "";
  }

  // ---- Runs ----

  /** A request together with the rows it meets, which may have changed in any way since the last one. */
  datatype Event = Event(db: Db, apiKey: string, now: real, later: real, newHash: string)

  ghost function Answer(h: Host, f: Fingerprint, c: Config, s: Store<string, Verified>, e: Event)
      : (Outcome, Db, Store<string, Verified>)
  {
    CurrentAuth(h, f, c, e.db, s, e.apiKey, e.now, e.later, e.newHash)
  }

  /** The cache after a run. */
  ghost function CacheAfter(h: Host, f: Fingerprint, c: Config, events: seq<Event>): Store<string, Verified> {
    if events == [] then []
    else Answer(h, f, c, CacheAfter(h, f, c, Init(events)), Last(events)).2
  }

  ghost predicate Sane(h: Host, events: seq<Event>) {
    forall i :: 0 <= i < |events| ==>
      UniqueRows(events[i].db) && VerifyApiKey(h, events[i].apiKey, Some(events[i].newHash))
  }

  lemma {:induction false} CacheStaysOk(h: Host, f: Fingerprint, c: Config, events: seq<Event>)
    requires Injective(f) && Sane(h, events)
    ensures CacheOk(h, f, CacheAfter(h, f, c, events))
  {
    if events != [] {
      CacheStaysOk(h, f, c, Init(events));
      var e := Last(events);
      CacheKeptOk(h, f, c, e.db, CacheAfter(h, f, c, Init(events)), e.apiKey, e.now, e.later, e.newHash);
    }
  }

  lemma {:induction false} CacheStaysLabelled(
      h: Host, f: Fingerprint, l: Labels, c: Config, events: seq<Event>)
    requires Injective(f) && Sane(h, events)
    requires forall i :: 0 <= i < |events| ==> Labelled(l, events[i].db)
    ensures CacheLabelled(l, f, CacheAfter(h, f, c, events))
  {
    if events != [] {
      CacheStaysLabelled(h, f, l, c, Init(events));
      var e := Last(events);
      var s := CacheAfter(h, f, c, Init(events));
      forall x | x in CacheAfter(h, f, c, events) ensures EntryLabelled(l, f, x) {
        StoreAfter(h, f, c, e.db, s, e.apiKey, e.now, e.later, e.newHash, x);
        if x !in s {
          NewEntryLabelled(h, f, l, e.db, e.apiKey, e.newHash, x);
        }
      }
    }
  }

  /** After any run, with any change of any row before each request, the next answer is genuine. */
  lemma EveryAnswerGenuine(h: Host, f: Fingerprint, c: Config, events: seq<Event>)
    requires Injective(f) && Sane(h, events) && events != []
    ensures var e := Last(events);
      var (outcome, after, _) := Answer(h, f, c, CacheAfter(h, f, c, Init(events)), e);
      outcome.Granted? ==> Genuine(h, after, e.apiKey, outcome.auth)
  {
    CacheStaysOk(h, f, c, Init(events));
    var e := Last(events);
    CurrentAuthGenuine(h, f, c, e.db, CacheAfter(h, f, c, Init(events)), e.apiKey, e.now, e.later, e.newHash);
  }

  /** After any run in which rows keep their prefixes, the next answer is the uncached one. */
  lemma EveryAnswerUncached(h: Host, f: Fingerprint, l: Labels, c: Config, events: seq<Event>)
    requires Injective(f) && Sane(h, events) && events != []
    requires forall i :: 0 <= i < |events| ==> Labelled(l, events[i].db)
    requires LookupPrefix(Last(events).apiKey).Some?
    ensures var e := Last(events);
      var (outcome, after, _) := Answer(h, f, c, CacheAfter(h, f, c, Init(events)), e);
      (outcome, after) == Authenticate(h, e.db, e.apiKey, e.newHash)
  {
    CacheStaysOk(h, f, c, Init(events));
    CacheStaysLabelled(h, f, l, c, Init(events));
    var e := Last(events);
    CacheUnobservable(
      h, f, l, c, e.db, CacheAfter(h, f, c, Init(events)), e.apiKey, e.now, e.later, e.newHash);
  }
}
