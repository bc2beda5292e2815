/** Decryption of stored signing keys through the cache. */
module SigningKeys {
  import opened Text
  import opened TtlCache

  /** The configured provider: how stored keys look, whether encryption is on, and what decrypts to what. */
  datatype Provider = Provider(
    plaintext: string -> bool, encryptionEnabled: bool, decrypt: string -> Option<string>)

  /** `decrypt_private_pem` without a cache; `None` where it raises. */
  function Uncached(p: Provider, stored: string): Option<string> {
    if p.plaintext(stored) then (if p.encryptionEnabled then None else Some(stored)) else p.decrypt(stored)
  }

  /** Every cached plaintext is what its ciphertext decrypts to. */
  predicate Memo(p: Provider, s: Store<string, string>) {
    forall e :: e in s ==> p.decrypt(e.key) == Some(e.value)
  }

  lemma GetKeepsMemo(p: Provider, c: Config, s: Store<string, string>, key: string, now: real)
    requires Memo(p, s)
    ensures Memo(p, Got(c, s, key, now).1)
    ensures Got(c, s, key, now).0.Some? ==> Got(c, s, key, now).0 == p.decrypt(key)
  {
    LookupKeys(s, key);
    forall e | e in Got(c, s, key, now).1 ensures p.decrypt(e.key) == Some(e.value) {
      WithoutMembers(s, key, e);
    }
  }

  lemma SetKeepsMemo(p: Provider, c: Config, s: Store<string, string>, key: string, value: string, now: real)
    requires Memo(p, s) && p.decrypt(key) == Some(value)
    ensures Memo(p, Put(c, s, key, value, now))
  {
    forall e | e in Put(c, s, key, value, now) ensures p.decrypt(e.key) == Some(e.value) {
      WithoutMembers(s, key, e);
    }
  }

  class SigningKeyReader {
    const provider: Provider
    const cache: TTLCache<string, string>

    ghost predicate Valid()
      reads this, cache
    {
      Memo(provider, cache.store)
    }

    constructor (provider: Provider, maxSize: int, ttl: real)
      ensures Valid() && fresh(cache) && this.provider == provider
    {
      this.provider := provider;
      cache := new TTLCache(maxSize, ttl);
    }

    /** The clock is read once for the look-up and once more when a plaintext is stored. */
    method DecryptPrivatePem(stored: string, now: real, later: real) returns (pem: Option<string>)
      requires Valid()
      modifies cache
      ensures Valid() && pem == Uncached(provider, stored)
      ensures provider.plaintext(stored) && provider.encryptionEnabled ==> pem.None?
      ensures provider.plaintext(stored) && !provider.encryptionEnabled ==> pem == Some(stored)
      ensures !provider.plaintext(stored) ==> pem == provider.decrypt(stored)
    {
      if provider.plaintext(stored) {
        if provider.encryptionEnabled {
          return None;
        }
        return Some(stored);
      }
      GetKeepsMemo(provider, cache.config, cache.store, stored, now);
      pem := cache.Get(stored, now);
      if pem.Some? {
        return pem;
      }
      pem := provider.decrypt(stored);
      if pem.Some? {
        SetKeepsMemo(provider, cache.config, cache.store, stored, pem.value, later);
        cache.Set(stored, pem.value, later);
      }
    }
  }

  /** However the cache was filled with decrypted keys and emptied, a hit is what decryption would give. */
  lemma {:induction false} HitsDecrypt(
      p: Provider, c: Config, ops: seq<Op<string, string>>, key: string, now: real)
    requires forall i :: 0 <= i < |ops| && ops[i].SetOp? ==> p.decrypt(ops[i].key) == Some(ops[i].value)
    ensures Got(c, Run(c, ops), key, now).0.Some? ==> Got(c, Run(c, ops), key, now).0 == p.decrypt(key)
  {
    HitIsLatestLiveSet(c, ops, key, now);
    LatestDecrypts(p, ops, key);
  }

  lemma {:induction false} LatestDecrypts(p: Provider, ops: seq<Op<string, string>>, key: string)
    requires forall i :: 0 <= i < |ops| && ops[i].SetOp? ==> p.decrypt(ops[i].key) == Some(ops[i].value)
    ensures Latest(ops, key).Some? ==> p.decrypt(key) == Some(Latest(ops, key).value.0)
  {
    if ops != [] {
      LatestDecrypts(p, Init(ops), key);
      assert Last(ops) == ops[|ops| - 1];
    }
  }
}
