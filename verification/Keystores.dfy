/** The keystore: secrets encrypted in storage, decrypted ones in a cache. */
module Keystores {
  import opened Wrappers
  import opened Bytes
  import opened KeyBlobs

  const DEFAULT_PASSPHRASE: string := "convenient and insecure keystore"

  /** "PHCCHECK" */
  const PCHECK_HEADER: seq<Byte> := [80, 72, 67, 67, 72, 69, 67, 75]
  const PCHECK_SIZE: nat := 40

  const SIGNKEY_SUFFIX: string := ":sign_key"
  const ENCKEY_SUFFIX: string := ":enc_key"

  // ----- the passphrase check -----

  /** A check cipher holds the header and random bytes; a wrong passphrase never shows the header. */
  predicate IsCheck(c: Cipher) {
    |c.plain| == PCHECK_SIZE && c.plain[..8] == PCHECK_HEADER && c.Conceals(8)
  }

  function MakePassphraseCheck(passphrase: string, random: seq<Byte>, noise: seq<Byte>): (c: Cipher)
    ensures IsCheck(c) && c.passphrase == passphrase
  {
    var rest := if |random| == PCHECK_SIZE - 8 then random else Zeros(PCHECK_SIZE - 8);
    Seal(passphrase, PCHECK_HEADER + rest, 8, noise)
  }

  function CheckPassphrase(c: Cipher, passphrase: string): Result<bool, Trouble> {
    var buf :- Unseal(c, passphrase, PCHECK_SIZE);
    Ok(buf[..8] == PCHECK_HEADER)
  }

  /** The check tells the keystore's passphrase from every other. */
  lemma CheckIsExact(c: Cipher, passphrase: string)
    requires IsCheck(c)
    ensures CheckPassphrase(c, passphrase) == Ok(passphrase == c.passphrase)
  {
  }

  // ----- blobs as the keystore makes them -----

  /** The blob of some storable secret. */
  ghost predicate Sound(b: KeyBlob) {
    exists s, noise :: Storable(s) && AsBlob(s, b.data.passphrase, noise) == Ok(b)
  }

  lemma SoundBlob(b: KeyBlob, q: string)
    requires Sound(b)
    ensures var s := FromBlob(b, b.data.passphrase); s.Ok? && Storable(s.value)
    ensures q != b.data.passphrase ==> FromBlob(b, q) != FromBlob(b, b.data.passphrase)
  {
    var s, noise :| Storable(s) && AsBlob(s, b.data.passphrase, noise) == Ok(b);
    SecretRoundTripIff(s, b.data.passphrase, noise);
    if q != b.data.passphrase { WrongPassphraseFails(s, b.data.passphrase, noise, q); }
  }

  lemma BlobPassphrase(s: Secret, p: string, noise: seq<Byte>)
    requires AsBlob(s, p, noise).Ok?
    ensures AsBlob(s, p, noise).value.data.passphrase == p
  {
    hide Layout, Seal;
  }

  // ----- key derivation, as uninterpreted functions of the right sizes -----

  datatype Crypto = Crypto(
    kdf: (seq<Byte>, string, nat) -> seq<Byte>,
    signPublic: seq<Byte> -> seq<Byte>,
    signPrivate: seq<Byte> -> seq<Byte>,
    kxPublic: seq<Byte> -> seq<Byte>,
    kxPrivate: seq<Byte> -> seq<Byte>)
  {
    ghost predicate Lawful() {
      && (forall s, c, i :: |kdf(s, c, i)| == SEED_SIZE)
      && (forall s :: |signPublic(s)| == PUBLIC) && (forall s :: |signPrivate(s)| == SIGN_SECRET)
      && (forall s :: |kxPublic(s)| == PUBLIC) && (forall s :: |kxPrivate(s)| == KX_SECRET)
    }

    function SigningPair(seed: seq<Byte>): KeyPair {
      KeyPair(Hcid(HCS0, signPublic(seed)), signPrivate(seed))
    }

    function EncryptingPair(seed: seq<Byte>): KeyPair {
      KeyPair(Hcid(HCK0, kxPublic(seed)), kxPrivate(seed))
    }

    /** The key of the given kind that belongs to a seed. */
    function KeySecret(seed: seq<Byte>, signing: bool): (s: Secret)
      ensures s.SigningKey? == signing && !s.SeedSecret?
    {
      if signing then SigningKey(SigningPair(seed)) else EncryptingKey(EncryptingPair(seed))
    }
  }

  /** What is written to the keystore file. */
  datatype Saved = Saved(passphraseCheck: Cipher, secrets: map<string, KeyBlob>)

  /** In every method, `pw` is what the passphrase manager answers during the call, and `noise`
      the randomness of encryption. */
  class Keystore {
    const crypto: Crypto
    var passphraseCheck: Cipher
    var secrets: map<string, KeyBlob>
    var cache: map<string, Secret>

    ghost predicate Valid()
      reads this`passphraseCheck
    {
      IsCheck(passphraseCheck) && crypto.Lawful()
    }

    ghost function Phrase(): string
      reads this`passphraseCheck
    {
      passphraseCheck.passphrase
    }

    /** What storage holds under `id`, read with the keystore's own passphrase. */
    ghost function Stored(id: string): Result<Secret, Trouble>
      requires id in secrets
      reads this`secrets, this`passphraseCheck
    {
      FromBlob(secrets[id], Phrase())
    }

    /** Everything stored is a storable secret under the keystore's passphrase, and the cache
        never says otherwise. */
    ghost predicate Agrees()
      reads this
    {
      forall id | id in secrets ::
        && Sound(secrets[id]) && secrets[id].data.passphrase == Phrase()
        && (id in cache ==> Stored(id) == Ok(cache[id]))
    }

    constructor (crypto: Crypto, passphrase: string, random: seq<Byte>, noise: seq<Byte>)
      requires crypto.Lawful()
      ensures Valid() && Agrees() && secrets == map[] && Phrase() == passphrase
    {
      this.crypto := crypto;
      passphraseCheck := MakePassphraseCheck(passphrase, random, noise);
      secrets, cache := map[], map[];
    }

    constructor FromFile(crypto: Crypto, saved: Saved)
      requires crypto.Lawful() && IsCheck(saved.passphraseCheck)
      ensures Valid() && passphraseCheck == saved.passphraseCheck && secrets == saved.secrets && cache == map[]
    {
      this.crypto := crypto;
      passphraseCheck, secrets, cache := saved.passphraseCheck, saved.secrets, map[];
    }

    method Save() returns (saved: Saved)
      ensures saved == Saved(passphraseCheck, secrets)
    {
      saved := Saved(passphraseCheck, secrets);
    }

    /** Replaces the check and nothing else. */
    method ChangePassphrase(oldPassphrase: string, newPassphrase: string, random: seq<Byte>, noise: seq<Byte>)
      returns (r: Result<(), Trouble>)
      requires Valid()
      modifies this`passphraseCheck
      ensures Valid()
      ensures r.Ok? <==> oldPassphrase == old(Phrase())
      ensures Phrase() == if r.Ok? then newPassphrase else old(Phrase())
      // the stored secrets stay under the old passphrase: unless it is the same, none of them
      // reads as before
      ensures old(Agrees()) && Phrase() != old(Phrase()) ==> forall id | id in secrets :: Stored(id) != old(Stored(id))
    {
      CheckIsExact(passphraseCheck, oldPassphrase);
      if CheckPassphrase(passphraseCheck, oldPassphrase) != Ok(true) { return Err(BadPassphrase); }
      passphraseCheck := MakePassphraseCheck(newPassphrase, random, noise);
      if old(Agrees()) && Phrase() != old(Phrase()) {
        forall id | id in secrets
          ensures Stored(id) != old(Stored(id))
        {
          SoundBlob(secrets[id], Phrase());
        }
      }
      return Ok(());
    }

    /** Encrypts a cached secret.  The passphrase is checked first, but only a check that cannot be
        made would stop the encryption, and a check always can be: its answer is not looked at. */
    method Encrypt(id: string, pw: Option<string>, noise: seq<Byte>) returns (r: Result<(), Trouble>)
      requires Valid() && id in cache
      modifies this`secrets
      ensures r.Ok? <==> pw.Some? && AsBlob(cache[id], pw.value, noise).Ok?
      ensures secrets == if r.Ok? then old(secrets)[id := AsBlob(cache[id], pw.value, noise).value] else old(secrets)
    {
      if pw.None? { return Err(NoPassphrase); }
      CheckIsExact(passphraseCheck, pw.value);
      assert CheckPassphrase(passphraseCheck, pw.value).Ok?;
      var blob := MakeBlob(cache[id], pw.value, noise);
      if blob.Err? { return Err(blob.error); }
      secrets := secrets[id := blob.value];
      return Ok(());
    }

    function List(): set<string>
      reads this
    {
      secrets.Keys
    }

    // ----- adding -----

    /** One more blob under the keystore's passphrase keeps storage and cache in agreement
        exactly when it was sealed with that passphrase and its secret is storable. */
    lemma AgreementAfterAdd(before: map<string, KeyBlob>, cached: map<string, Secret>, id: string, s: Secret, p: string, noise: seq<Byte>)
      requires id !in before && AsBlob(s, p, noise).Ok?
      requires secrets == before[id := AsBlob(s, p, noise).value] && cache == cached[id := s]
      requires forall other | other in before ::
                 && Sound(before[other]) && before[other].data.passphrase == Phrase()
                 && (other in cached ==> FromBlob(before[other], Phrase()) == Ok(cached[other]))
      ensures Agrees() <==> Storable(s) && p == Phrase()
    {
      BlobPassphrase(s, p, noise);
      SecretRoundTripIff(s, p, noise);
      hide FromBlob, AsBlob, Storable;
      assert Agrees() ==> secrets[id].data.passphrase == Phrase() && Stored(id) == Ok(cache[id]);
      if Storable(s) && p == Phrase() {
        forall other | other in secrets
          ensures Sound(secrets[other]) && secrets[other].data.passphrase == Phrase()
          ensures other in cache ==> Stored(other) == Ok(cache[other])
        {
          if other != id { assert secrets[other] == before[other]; }
        }
      }
    }

    /** Adds a secret under a new id.  Whether it succeeds does not depend on the passphrase being
        the right one; whether it can be read back does. */
    method Add(id: string, secret: Secret, pw: Option<string>, noise: seq<Byte>) returns (r: Result<(), Trouble>)
      requires Valid()
      modifies this`secrets, this`cache
      ensures r.Ok? <==> id !in old(secrets) && pw.Some? && AsBlob(secret, pw.value, noise).Ok?
      ensures secrets == if r.Ok? then old(secrets)[id := AsBlob(secret, pw.value, noise).value] else old(secrets)
      ensures cache == if id in old(secrets) then old(cache) else old(cache)[id := secret]
      ensures old(Agrees()) && r.Ok? ==> (Agrees() <==> Storable(secret) && pw.value == Phrase())
      ensures old(Agrees()) && r.Err? ==> Agrees()
    {
      if id in secrets { return Err(AlreadyExists); }
      cache := cache[id := secret];
      r := Encrypt(id, pw, noise);
      if r.Ok? && old(Agrees()) {
        hide FromBlob, AsBlob, Storable;
        AgreementAfterAdd(old(secrets), old(cache), id, secret, pw.value, noise);
      }
    }

    // ----- reading -----

    /** The passphrase a secret is decrypted with: the default one if the check accepts it. */
    ghost function Effective(pw: Option<string>): Option<string>
      reads this`passphraseCheck
    {
      if Phrase() == DEFAULT_PASSPHRASE then Some(DEFAULT_PASSPHRASE) else pw
    }

    method Decrypt(id: string, pw: Option<string>) returns (r: Result<(), Trouble>)
      requires Valid() && id in secrets
      modifies this`cache
      ensures r.Ok? <==> Effective(pw).Some? && FromBlob(secrets[id], Effective(pw).value).Ok?
      ensures cache == if r.Ok? then old(cache)[id := FromBlob(secrets[id], Effective(pw).value).value] else old(cache)
    {
      CheckIsExact(passphraseCheck, DEFAULT_PASSPHRASE);
      var s;
      if CheckPassphrase(passphraseCheck, DEFAULT_PASSPHRASE) == Ok(true) {
        s := FromBlob(secrets[id], DEFAULT_PASSPHRASE);
      } else if pw.None? {
        return Err(NoPassphrase);
      } else {
        s := FromBlob(secrets[id], pw.value);
      }
      if s.Err? { return Err(s.error); }
      cache := cache[id := s.value];
      return Ok(());
    }

    /** Gets a secret, decrypting it on first use.  As long as storage and cache agree, the answer
        is what is stored, if and only if it was cached or the right passphrase was given; a
        wrong one is not noticed, but what it decrypts to is never the secret. */
    method Get(id: string, pw: Option<string>) returns (r: Result<Secret, Trouble>)
      requires Valid()
      modifies this`cache
      ensures id !in secrets ==> r == Err(NotFound) && cache == old(cache)
      ensures r.Ok? ==> id in secrets && id in cache && cache[id] == r.value
      ensures forall other | other in old(cache) :: other in cache && cache[other] == old(cache)[other]
      ensures forall other | other in cache && other != id :: other in old(cache)
      ensures old(Agrees()) && id in secrets ==>
                (r == Stored(id) <==> id in old(cache) || Effective(pw) == Some(Phrase()))
      ensures old(Agrees()) ==> (Agrees() <==> r.Err? || r == Stored(id))
    {
      if id !in secrets { return Err(NotFound); }
      if old(Agrees()) {
        SoundBlob(secrets[id], if Effective(pw).Some? then Effective(pw).value else Phrase());
      }
      hide FromBlob, Sound;
      if id !in cache {
        var d := Decrypt(id, pw);
        if d.Err? { return Err(d.error); }
      }
      return Ok(cache[id]);
    }

    // ----- deriving, under the right passphrase -----

    /** The seed stored under `id`, if there is one. */
    ghost function StoredSeed(id: string): Option<seq<Byte>>
      reads this`secrets, this`passphraseCheck
    {
      if id in secrets && Stored(id).Ok? && Stored(id).value.SeedSecret? then Some(Stored(id).value.buf) else None
    }

    lemma StoredSeedSize(id: string)
      requires Agrees()
      ensures StoredSeed(id).Some? ==> |StoredSeed(id).value| == SEED_SIZE
    {
      if id in secrets { SoundBlob(secrets[id], Phrase()); }
    }

    lemma StorableKey(seed: seq<Byte>, signing: bool)
      requires Valid()
      ensures Storable(crypto.KeySecret(seed, signing))
    {
    }

    /** Adds what was derived from a secret. */
    method AddDerived(dst: string, secret: Secret, pw: Option<string>, noise: seq<Byte>) returns (r: Result<(), Trouble>)
      requires Valid() && Storable(secret) && dst !in secrets
      modifies this`secrets, this`cache
      ensures r.Ok? <==> pw.Some?
      ensures forall id | id in old(secrets) :: id in secrets && secrets[id] == old(secrets)[id]
      ensures secrets.Keys == old(secrets).Keys + (if r.Ok? then {dst} else {})
      ensures old(Agrees()) && pw == Some(Phrase()) ==> Agrees() && Stored(dst) == Ok(secret)
    {
      if pw.Some? { SecretRoundTripIff(secret, pw.value, noise); }
      hide AsBlob, FromBlob, Storable, Sound;
      r := Add(dst, secret, pw, noise);
    }

    /** Derives a seed from a stored seed. */
    method AddSeedFromSeed(src: string, dst: string, context: string, index: nat, pw: Option<string>, noise: seq<Byte>)
      returns (r: Result<(), Trouble>)
      requires Valid()
      modifies this`secrets, this`cache
      ensures forall id | id in old(secrets) :: id in secrets && secrets[id] == old(secrets)[id]
      ensures secrets.Keys == old(secrets).Keys + (if r.Ok? then {dst} else {})
      ensures old(Agrees()) && pw == Some(Phrase()) ==>
                && Agrees()
                && (r.Ok? <==> dst !in old(secrets) && old(StoredSeed(src)).Some? && index != 0)
                && (r.Ok? ==> StoredSeed(dst) == Some(crypto.kdf(old(StoredSeed(src)).value, context, index)))
    {
      hide AsBlob, FromBlob, Sound;
      if dst in secrets { return Err(AlreadyExists); }
      var s := Get(src, pw);
      if s.Err? { return Err(s.error); }
      if !s.value.SeedSecret? { return Err(NotASeed); }
      if index == 0 { return Err(InvalidIndex); }
      r := AddDerived(dst, SeedSecret(crypto.kdf(s.value.buf, context, index)), pw, noise);
    }

    /** Derives a key pair from a stored seed and returns its public key. */
    method AddKeyFromSeed(src: string, dst: string, signing: bool, pw: Option<string>, noise: seq<Byte>)
      returns (r: Result<Hcid, Trouble>)
      requires Valid()
      modifies this`secrets, this`cache
      ensures forall id | id in old(secrets) :: id in secrets && secrets[id] == old(secrets)[id]
      ensures secrets.Keys == old(secrets).Keys + (if r.Ok? then {dst} else {})
      ensures old(Agrees()) && pw == Some(Phrase()) ==>
                && Agrees()
                && (r.Ok? <==> dst !in old(secrets) && old(StoredSeed(src)).Some?)
                && (r.Ok? ==> var key := crypto.KeySecret(old(StoredSeed(src)).value, signing);
                              Stored(dst) == Ok(key) && r.value == key.pair.public)
    {
      hide AsBlob, FromBlob, Sound;
      if Agrees() { StoredSeedSize(src); }
      if dst in secrets { return Err(AlreadyExists); }
      var s := Get(src, pw);
      if s.Err? { return Err(s.error); }
      if !s.value.SeedSecret? { return Err(NotASeed); }
      if |s.value.buf| != SEED_SIZE { return Err(Panic); }
      var key := crypto.KeySecret(s.value.buf, signing);
      StorableKey(s.value.buf, signing);
      var a := AddDerived(dst, key, pw, noise);
      if a.Err? { return Err(a.error); }
      return Ok(key.pair.public);
    }

    // ----- key bundles: two key pairs under one prefix -----

    /** Derives a signing and an encrypting key.  If the second cannot be added the first stays. */
    method AddKeybundleFromSeed(src: string, prefix: string, pw: Option<string>, noise: seq<Byte>, noise': seq<Byte>)
      returns (r: Result<(Hcid, Hcid), Trouble>)
      requires Valid()
      modifies this`secrets, this`cache
      ensures forall id | id in old(secrets) :: id in secrets && secrets[id] == old(secrets)[id]
      ensures old(Agrees()) && pw == Some(Phrase()) ==>
                var signId, encId, seed := prefix + SIGNKEY_SUFFIX, prefix + ENCKEY_SUFFIX, old(StoredSeed(src));
                && Agrees()
                && (r.Ok? <==> signId !in old(secrets) && encId !in old(secrets) && seed.Some?)
                && secrets.Keys == old(secrets).Keys
                     + (if seed.Some? && signId !in old(secrets) then {signId} else {})
                     + (if r.Ok? then {encId} else {})
                && (r.Ok? ==> Stored(signId) == Ok(SigningKey(crypto.SigningPair(seed.value))))
                && (r.Ok? ==> Stored(encId) == Ok(EncryptingKey(crypto.EncryptingPair(seed.value))))
    {
      hide AsBlob, FromBlob, Sound, Agrees;
      var signId, encId := prefix + SIGNKEY_SUFFIX, prefix + ENCKEY_SUFFIX;
      assert |signId| != |encId|;
      var sign := AddKeyFromSeed(src, signId, true, pw, noise);
      if sign.Err? { return Err(sign.error); }
      var enc := AddKeyFromSeed(src, encId, false, pw, noise');
      if enc.Err? { return Err(enc.error); }
      return Ok((sign.value, enc.value));
    }

    /** The key pair of the given kind stored under `id`, if there is one. */
    ghost function StoredPair(id: string, signing: bool): Option<KeyPair>
      reads this`secrets, this`passphraseCheck
    {
      if id in secrets && Stored(id).Ok? && !Stored(id).value.SeedSecret? && Stored(id).value.SigningKey? == signing
      then Some(Stored(id).value.pair) else None
    }

    /** Gets both keys of a bundle. */
    method GetKeybundle(prefix: string, pw: Option<string>) returns (r: Result<KeyBundle, Trouble>)
      requires Valid()
      modifies this`cache
      ensures old(Agrees()) && pw == Some(Phrase()) ==>
                var sign, enc := StoredPair(prefix + SIGNKEY_SUFFIX, true), StoredPair(prefix + ENCKEY_SUFFIX, false);
                && Agrees()
                && (r.Ok? <==> sign.Some? && enc.Some?)
                && (r.Ok? ==> r.value == KeyBundle(sign.value, enc.value))
    {
      if Agrees() {
        if prefix + SIGNKEY_SUFFIX in secrets { SoundBlob(secrets[prefix + SIGNKEY_SUFFIX], Phrase()); }
        if prefix + ENCKEY_SUFFIX in secrets { SoundBlob(secrets[prefix + ENCKEY_SUFFIX], Phrase()); }
      }
      hide FromBlob, Sound;
      var sign := Get(prefix + SIGNKEY_SUFFIX, pw);
      if sign.Err? { return Err(sign.error); }
      if !sign.value.SigningKey? { return Err(TypeMismatch); }
      var enc := Get(prefix + ENCKEY_SUFFIX, pw);
      if enc.Err? { return Err(enc.error); }
      if !enc.value.EncryptingKey? { return Err(TypeMismatch); }
      return Ok(KeyBundle(sign.value.pair, enc.value.pair));
    }
  }

  /** Saving and loading keeps everything that can be got: the loaded keystore agrees with the
      same storage under the same passphrase. */
  method Reload(k: Keystore) returns (l: Keystore)
    requires k.Valid()
    ensures fresh(l) && l.Valid() && l.Phrase() == k.Phrase() && l.List() == k.List()
    ensures forall id | id in k.secrets :: id in l.secrets && l.Stored(id) == k.Stored(id)
    ensures k.Agrees() ==> l.Agrees()
  {
    var saved := k.Save();
    l := new Keystore.FromFile(k.crypto, saved);
  }

  // ----- what goes wrong, on runs -----

  /** Adding under a wrong passphrase succeeds, and the keystore's own passphrase no longer reads
      what was added. */
  method WrongPassphraseIsAccepted(crypto: Crypto, seed: seq<Byte>, random: seq<Byte>, noise: seq<Byte>)
    returns (k: Keystore, added: Result<(), Trouble>)
    requires crypto.Lawful() && |seed| == SEED_SIZE
    ensures k.Valid() && k.Phrase() == "p" && added.Ok?
    ensures "id" in k.secrets && k.Stored("id") != Ok(SeedSecret(seed))
  {
    k := new Keystore(crypto, "p", random, noise);
    WrongPassphraseFails(SeedSecret(seed), "q", noise, "p");
    added := k.Add("id", SeedSecret(seed), Some("q"), noise);
  }

  /** After a successful change of the passphrase the secret is lost to the new one. */
  method ChangeLosesSecret(crypto: Crypto, seed: seq<Byte>, random: seq<Byte>, noise: seq<Byte>)
    returns (k: Keystore, changed: Result<(), Trouble>)
    requires crypto.Lawful() && |seed| == SEED_SIZE
    ensures k.Valid() && k.Phrase() == "q" && changed.Ok?
    ensures "id" in k.secrets && k.Stored("id") != Ok(SeedSecret(seed))
  {
    k := new Keystore(crypto, "p", random, noise);
    WrongPassphraseFails(SeedSecret(seed), "p", noise, "q");
    var _ := k.Add("id", SeedSecret(seed), Some("p"), noise);
    changed := k.ChangePassphrase("p", "q", random, noise);
  }

  /** A keybundle whose second id is taken is refused, and its first key stays. */
  method HalfAKeybundle(crypto: Crypto, seed: seq<Byte>, random: seq<Byte>, noise: seq<Byte>)
    returns (k: Keystore, added: Result<(Hcid, Hcid), Trouble>)
    requires crypto.Lawful() && |seed| == SEED_SIZE
    ensures k.Valid() && k.Agrees() && added.Err? && ("b" + SIGNKEY_SUFFIX) in k.secrets
  {
    k := new Keystore(crypto, "p", random, noise);
    SecretRoundTripIff(SeedSecret(seed), "p", noise);
    var enc := "b" + ENCKEY_SUFFIX;
    var _ := k.Add(enc, SeedSecret(seed), Some("p"), noise);
    assert k.StoredSeed(enc) == Some(seed);
    SuffixesDiffer("b");
    added := k.AddKeybundleFromSeed(enc, "b", Some("p"), noise, noise);
  }

  lemma SuffixesDiffer(prefix: string)
    ensures prefix + SIGNKEY_SUFFIX != prefix + ENCKEY_SUFFIX
  {
    assert (prefix + SIGNKEY_SUFFIX)[|prefix|..] == SIGNKEY_SUFFIX;
    assert (prefix + ENCKEY_SUFFIX)[|prefix|..] == ENCKEY_SUFFIX;
  }
}
