/** Secrets as encrypted blobs: the byte layouts of keys, and how they survive encryption.

    Encryption is symbolic.  A cipher text remembers its passphrase, its plain text, and what
    any other passphrase makes of it, which is arbitrary except that it is never the content. */
module KeyBlobs {
  import opened Wrappers
  import opened Bytes

  const SEED_SIZE: nat := 32
  const PUBLIC: nat := 32          // public keys of either kind
  const SIGN_SECRET: nat := 64
  const KX_SECRET: nat := 32

  /** Sizes are rounded up to a multiple of eight. */
  function Aligned(n: nat): nat {
    (n + 8 - 1) / 8 * 8
  }

  datatype Trouble =
    | NotFound | AlreadyExists | NoPassphrase | BadPassphrase | TypeMismatch | BadSize | BadVersion
    | NotASeed | InvalidIndex | Panic

  // ----- symbolic encryption -----

  datatype Cipher = Cipher(passphrase: string, plain: seq<Byte>, garbage: seq<Byte>) {
    /** A wrong passphrase never reveals the first `n` bytes. */
    predicate Conceals(n: nat) {
      n <= |plain| && |garbage| == |plain| && garbage[..n] != plain[..n]
    }
  }

  /** Encrypts; `noise` is what a wrong passphrase yields, unless that would reveal the content,
      the first `n` bytes. */
  function Seal(passphrase: string, plain: seq<Byte>, n: nat, noise: seq<Byte>): (c: Cipher)
    requires 0 < n <= |plain|
    ensures c.Conceals(n) && c.passphrase == passphrase && c.plain == plain
  {
    if |noise| == |plain| && noise[..n] != plain[..n] then Cipher(passphrase, plain, noise)
    else
      var other: Byte := if plain[0] == 0 then 1 else 0;
      var garbage := [other] + plain[1..];
      assert garbage[..n][0] != plain[..n][0];
      Cipher(passphrase, plain, garbage)
  }

  /** Decrypts into a buffer of the given size.  A wrong passphrase goes unnoticed. */
  function Unseal(c: Cipher, passphrase: string, size: nat): (r: Result<seq<Byte>, Trouble>)
    ensures r.Ok? ==> |r.value| == size
  {
    if passphrase == c.passphrase then (if |c.plain| == size then Ok(c.plain) else Err(BadSize))
    else Ok(if |c.garbage| == size then c.garbage else Zeros(size))
  }

  // ----- layouts: fields of fixed width at a running offset -----

  datatype Field = Field(data: seq<Byte>, width: nat)

  /** Overwrites part of a buffer. */
  function Place(buf: seq<Byte>, offset: nat, data: seq<Byte>): (r: seq<Byte>)
    requires offset + |data| <= |buf|
    ensures |r| == |buf|
    ensures forall i | 0 <= i < |buf| :: r[i] == if offset <= i < offset + |data| then data[i - offset] else buf[i]
  {
    buf[..offset] + data + buf[offset + |data|..]
  }

  /** `None` when a field does not fit the buffer, which is a panic. */
  function PlaceAll(buf: seq<Byte>, offset: nat, fields: seq<Field>): (r: Option<seq<Byte>>)
    ensures r.Some? ==> |r.value| == |buf|
    decreases |fields|
  {
    if fields == [] then Some(buf)
    else if offset + |fields[0].data| > |buf| then None
    else PlaceAll(Place(buf, offset, fields[0].data), offset + fields[0].width, fields[1..])
  }

  /** A version byte and the fields, padded with zeros. */
  function Layout(size: nat, version: Byte, fields: seq<Field>): (r: Option<seq<Byte>>)
    requires size > 0
    ensures r.Some? ==> |r.value| == size
  {
    PlaceAll([version] + Zeros(size - 1), 1, fields)
  }

  method WriteAt(buf: array<Byte>, offset: nat, data: seq<Byte>)
    requires offset + |data| <= buf.Length
    modifies buf
    ensures buf[..] == Place(old(buf[..]), offset, data)
  {
    for i := 0 to |data|
      invariant forall k | 0 <= k < buf.Length :: buf[k] == if offset <= k < offset + i then data[k - offset] else old(buf[k])
    {
      buf[offset + i] := data[i];
    }
  }

  /** Writes the fields one after the other. */
  method FillBuffer(size: nat, version: Byte, fields: seq<Field>) returns (r: Option<seq<Byte>>)
    requires size > 0
    ensures r == Layout(size, version, fields)
  {
    var buf := new Byte[size](_ => 0);
    buf[0] := version;
    assert buf[..] == [version] + Zeros(size - 1);
    var offset: nat := 1;
    assert fields[0..] == fields;
    for i := 0 to |fields|
      invariant PlaceAll(buf[..], offset, fields[i..]) == Layout(size, version, fields)
    {
      assert fields[i..][1..] == fields[i + 1..];
      if offset + |fields[i].data| > buf.Length { return None; }
      WriteAt(buf, offset, fields[i].data);
      offset := offset + fields[i].width;
    }
    return Some(buf[..]);
  }

  // ----- reading fields back -----

  function Width(fields: seq<Field>): nat {
    if fields == [] then 0 else fields[0].width + Width(fields[1..])
  }

  predicate Exact(fields: seq<Field>) {
    forall i | 0 <= i < |fields| :: |fields[i].data| == fields[i].width
  }

  function Offset(fields: seq<Field>, i: nat): nat
    requires i <= |fields|
  {
    if i == 0 then 0 else fields[0].width + Offset(fields[1..], i - 1)
  }

  /** Fields that fit their widths are placed, and what comes before them stays. */
  lemma {:induction false} PlacedExactly(buf: seq<Byte>, offset: nat, fields: seq<Field>)
    requires Exact(fields) && offset + Width(fields) <= |buf|
    ensures PlaceAll(buf, offset, fields).Some?
    ensures PlaceAll(buf, offset, fields).value[..offset] == buf[..offset]
    decreases |fields|
  {
    if fields != [] {
      var next := Place(buf, offset, fields[0].data);
      PlacedExactly(next, offset + fields[0].width, fields[1..]);
      var r := PlaceAll(buf, offset, fields).value;
      assert r[..offset] == r[..offset + fields[0].width][..offset] == next[..offset + fields[0].width][..offset];
    }
  }

  lemma {:induction false} WidthCovers(fields: seq<Field>, i: nat)
    requires i < |fields|
    ensures Offset(fields, i) + fields[i].width <= Width(fields)
  {
    if i > 0 { WidthCovers(fields[1..], i - 1); }
  }

  /** Every field is found where it was put. */
  lemma {:induction false} FieldReadsBack(buf: seq<Byte>, offset: nat, fields: seq<Field>, i: nat)
    requires Exact(fields) && offset + Width(fields) <= |buf| && i < |fields|
    ensures PlaceAll(buf, offset, fields).Some?
    ensures offset + Offset(fields, i) + fields[i].width <= |buf|
    ensures PlaceAll(buf, offset, fields).value[offset + Offset(fields, i)..offset + Offset(fields, i) + fields[i].width] == fields[i].data
    decreases |fields|
  {
    PlacedExactly(buf, offset, fields);
    WidthCovers(fields, i);
    var next := Place(buf, offset, fields[0].data);
    var r := PlaceAll(buf, offset, fields).value;
    if i == 0 {
      PlacedExactly(next, offset + fields[0].width, fields[1..]);
      assert r[offset..offset + fields[0].width] == r[..offset + fields[0].width][offset..] == next[..offset + fields[0].width][offset..];
    } else {
      FieldReadsBack(next, offset + fields[0].width, fields[1..], i - 1);
    }
  }

  // ----- keys and secrets -----

  /** The two public key encodings; a text in one does not decode in the other. */
  datatype Codec = HCS0 | HCK0
  datatype Hcid = Hcid(codec: Codec, bytes: seq<Byte>)

  datatype KeyPair = KeyPair(public: Hcid, private: seq<Byte>)
  datatype KeyBundle = KeyBundle(sign: KeyPair, enc: KeyPair)
  datatype Secret = SigningKey(pair: KeyPair) | EncryptingKey(pair: KeyPair) | SeedSecret(buf: seq<Byte>)

  datatype BlobType = SeedBlob | KeyBundleBlob | SigningBlob | EncryptingBlob
  datatype KeyBlob = KeyBlob(blobType: BlobType, data: Cipher)

  const SIGNING_SIZE: nat := 1 + PUBLIC + SIGN_SECRET
  const ENCRYPTING_SIZE: nat := 1 + PUBLIC + KX_SECRET
  const BUNDLE_SIZE: nat := 1 + PUBLIC + PUBLIC + SIGN_SECRET + KX_SECRET

  /** The public key decodes, and to the right number of bytes; otherwise blobbing panics. */
  predicate Encoded(h: Hcid, codec: Codec) {
    h.codec == codec && |h.bytes| == PUBLIC
  }

  predicate Proper(k: KeyPair, codec: Codec, secretSize: nat) {
    Encoded(k.public, codec) && |k.private| == secretSize
  }

  /** The secrets a keystore is meant to hold. */
  predicate Storable(s: Secret) {
    match s
    case SigningKey(k) => Proper(k, HCS0, SIGN_SECRET)
    case EncryptingKey(k) => Proper(k, HCK0, KX_SECRET)
    case SeedSecret(buf) => |buf| == SEED_SIZE
  }

  function SigningFields(k: KeyPair): seq<Field> {
    [Field(k.public.bytes, PUBLIC), Field(k.private, SIGN_SECRET)]
  }

  function EncryptingFields(k: KeyPair): seq<Field> {
    [Field(k.public.bytes, PUBLIC), Field(k.private, KX_SECRET)]
  }

  function BundleFields(b: KeyBundle): seq<Field> {
    [Field(b.sign.public.bytes, PUBLIC), Field(b.enc.public.bytes, PUBLIC),
     Field(b.sign.private, SIGN_SECRET), Field(b.enc.private, KX_SECRET)]
  }

  function SealLayout(t: BlobType, passphrase: string, layout: Option<seq<Byte>>, n: nat, noise: seq<Byte>): Result<KeyBlob, Trouble>
    requires layout.Some? ==> 0 < n <= |layout.value|
  {
    if layout.None? then Err(Panic) else Ok(KeyBlob(t, Seal(passphrase, layout.value, n, noise)))
  }

  function AsBlob(s: Secret, passphrase: string, noise: seq<Byte>): Result<KeyBlob, Trouble> {
    match s
    case SeedSecret(buf) =>
      if |buf| != SEED_SIZE then Err(Panic) else Ok(KeyBlob(SeedBlob, Seal(passphrase, buf, SEED_SIZE, noise)))
    case SigningKey(k) =>
      if !Encoded(k.public, HCS0) then Err(Panic)
      else SealLayout(SigningBlob, passphrase, Layout(Aligned(SIGNING_SIZE), 1, SigningFields(k)), SIGNING_SIZE, noise)
    case EncryptingKey(k) =>
      if !Encoded(k.public, HCK0) then Err(Panic)
      else SealLayout(EncryptingBlob, passphrase, Layout(Aligned(ENCRYPTING_SIZE), 1, EncryptingFields(k)), ENCRYPTING_SIZE, noise)
  }

  function FromBlob(b: KeyBlob, passphrase: string): Result<Secret, Trouble> {
    match b.blobType
    case SeedBlob =>
      var buf :- Unseal(b.data, passphrase, SEED_SIZE);
      Ok(SeedSecret(buf))
    case SigningBlob =>
      var bytes :- Unseal(b.data, passphrase, Aligned(SIGNING_SIZE));
      if bytes[0] != 1 then Err(BadVersion) else Ok(SigningKey(KeyPair(Hcid(HCS0, bytes[1..33]), bytes[33..97])))
    case EncryptingBlob =>
      var bytes :- Unseal(b.data, passphrase, Aligned(ENCRYPTING_SIZE));
      if bytes[0] != 1 then Err(BadVersion) else Ok(EncryptingKey(KeyPair(Hcid(HCK0, bytes[1..33]), bytes[33..65])))
    case KeyBundleBlob => Err(TypeMismatch)
  }

  function BundleAsBlob(b: KeyBundle, passphrase: string, noise: seq<Byte>): Result<KeyBlob, Trouble> {
    if !Encoded(b.sign.public, HCS0) || !Encoded(b.enc.public, HCK0) then Err(Panic)
    else SealLayout(KeyBundleBlob, passphrase, Layout(Aligned(BUNDLE_SIZE), 2, BundleFields(b)), BUNDLE_SIZE, noise)
  }

  function BundleFromBlob(b: KeyBlob, passphrase: string): Result<KeyBundle, Trouble> {
    if b.blobType != KeyBundleBlob then Err(TypeMismatch) else
      var bytes :- Unseal(b.data, passphrase, Aligned(BUNDLE_SIZE));
      if bytes[0] != 2 then Err(BadVersion)
      else Ok(KeyBundle(KeyPair(Hcid(HCS0, bytes[1..33]), bytes[65..129]),
                        KeyPair(Hcid(HCK0, bytes[33..65]), bytes[129..161])))
  }

  /** Blobs a secret by filling a buffer. */
  method MakeBlob(s: Secret, passphrase: string, noise: seq<Byte>) returns (r: Result<KeyBlob, Trouble>)
    ensures r == AsBlob(s, passphrase, noise)
  {
    hide Layout, Seal;
    match s {
      case SeedSecret(buf) =>
        if |buf| != SEED_SIZE { return Err(Panic); }
        return Ok(KeyBlob(SeedBlob, Seal(passphrase, buf, SEED_SIZE, noise)));
      case SigningKey(k) =>
        if !Encoded(k.public, HCS0) { return Err(Panic); }
        var bytes := FillBuffer(Aligned(SIGNING_SIZE), 1, SigningFields(k));
        return SealLayout(SigningBlob, passphrase, bytes, SIGNING_SIZE, noise);
      case EncryptingKey(k) =>
        if !Encoded(k.public, HCK0) { return Err(Panic); }
        var bytes := FillBuffer(Aligned(ENCRYPTING_SIZE), 1, EncryptingFields(k));
        return SealLayout(EncryptingBlob, passphrase, bytes, ENCRYPTING_SIZE, noise);
    }
  }

  // ----- round trips -----

  lemma LayoutVersion(size: nat, version: Byte, fields: seq<Field>)
    requires size > 0 && Exact(fields) && 1 + Width(fields) <= size
    ensures Layout(size, version, fields).Some? && |Layout(size, version, fields).value| == size
    ensures Layout(size, version, fields).value[0] == version
  {
    var buf := [version] + Zeros(size - 1);
    PlacedExactly(buf, 1, fields);
    var r := Layout(size, version, fields).value;
    assert r[0] == r[..1][0] == buf[..1][0];
  }

  lemma TwoFields(size: nat, version: Byte, f: Field, g: Field)
    requires Exact([f, g]) && 1 + f.width + g.width <= size
    ensures var l := Layout(size, version, [f, g]);
            l.Some? && |l.value| == size && l.value[0] == version
            && l.value[1..1 + f.width] == f.data && l.value[1 + f.width..1 + f.width + g.width] == g.data
  {
    var fields := [f, g];
    assert fields[1..] == [g] && [g][1..] == [];
    assert Width([g]) == g.width;
    assert Offset([g], 0) == 0;
    LayoutVersion(size, version, fields);
    hide PlaceAll;
    FieldReadsBack([version] + Zeros(size - 1), 1, fields, 0);
    FieldReadsBack([version] + Zeros(size - 1), 1, fields, 1);
  }

  /** A signing key survives blobbing exactly when it is a proper one. */
  lemma SigningRoundTripIff(k: KeyPair, p: string, noise: seq<Byte>)
    ensures var b := AsBlob(SigningKey(k), p, noise);
            b.Ok? && FromBlob(b.value, p) == Ok(SigningKey(k)) <==> Storable(SigningKey(k))
  {
    hide Layout, Seal;
    if Storable(SigningKey(k)) {
      var fields := SigningFields(k);
      TwoFields(Aligned(SIGNING_SIZE), 1, fields[0], fields[1]);
      assert fields == [fields[0], fields[1]];
    }
  }

  lemma EncryptingRoundTripIff(k: KeyPair, p: string, noise: seq<Byte>)
    ensures var b := AsBlob(EncryptingKey(k), p, noise);
            b.Ok? && FromBlob(b.value, p) == Ok(EncryptingKey(k)) <==> Storable(EncryptingKey(k))
  {
    hide Layout, Seal;
    if Storable(EncryptingKey(k)) {
      var fields := EncryptingFields(k);
      TwoFields(Aligned(ENCRYPTING_SIZE), 1, fields[0], fields[1]);
      assert fields == [fields[0], fields[1]];
    }
  }

  /** A secret survives blobbing and unblobbing with one passphrase exactly when it is storable. */
  lemma SecretRoundTripIff(s: Secret, p: string, noise: seq<Byte>)
    ensures var b := AsBlob(s, p, noise); b.Ok? && FromBlob(b.value, p) == Ok(s) <==> Storable(s)
  {
    match s
    case SigningKey(k) => SigningRoundTripIff(k, p, noise);
    case EncryptingKey(k) => EncryptingRoundTripIff(k, p, noise);
    case SeedSecret(_) =>
  }

  lemma SamePrefix(a: seq<Byte>, b: seq<Byte>, k: nat, n: nat)
    requires 1 <= k <= n <= |a| && n <= |b| && a[0] == b[0] && a[1..k] == b[1..k] && a[k..n] == b[k..n]
    ensures a[..n] == b[..n]
  {
    assert a[..n] == [a[0]] + a[1..k] + a[k..n];
    assert b[..n] == [b[0]] + b[1..k] + b[k..n];
  }

  /** With any other passphrase a storable secret is never read back. */
  lemma WrongPassphraseFails(s: Secret, p: string, noise: seq<Byte>, q: string)
    requires Storable(s) && q != p
    ensures AsBlob(s, p, noise).Ok? && FromBlob(AsBlob(s, p, noise).value, q) != Ok(s)
  {
    SecretRoundTripIff(s, p, noise);
    var b := AsBlob(s, p, noise).value;
    hide Layout, Seal;
    match s {
      case SeedSecret(buf) =>
        assert b.data.garbage[..SEED_SIZE] == b.data.garbage && b.data.plain[..SEED_SIZE] == b.data.plain;
      case SigningKey(k) =>
        if FromBlob(b, q) == Ok(s) { SamePrefix(b.data.garbage, b.data.plain, 33, SIGNING_SIZE); }
      case EncryptingKey(k) =>
        if FromBlob(b, q) == Ok(s) { SamePrefix(b.data.garbage, b.data.plain, 33, ENCRYPTING_SIZE); }
    }
  }

  lemma FourFields(size: nat, version: Byte, f: Field, g: Field, h: Field, i: Field)
    requires Exact([f, g, h, i]) && 1 + f.width + g.width + h.width + i.width <= size
    ensures var l := Layout(size, version, [f, g, h, i]);
            var a, b, c, d := 1 + f.width, 1 + f.width + g.width, 1 + f.width + g.width + h.width, 1 + f.width + g.width + h.width + i.width;
            l.Some? && |l.value| == size && l.value[0] == version
            && l.value[1..a] == f.data && l.value[a..b] == g.data && l.value[b..c] == h.data && l.value[c..d] == i.data
  {
    var fields := [f, g, h, i];
    assert fields[1..] == [g, h, i] && [g, h, i][1..] == [h, i] && [h, i][1..] == [i] && [i][1..] == [];
    assert Width([i]) == i.width;
    assert Width([h, i]) == h.width + Width([i]);
    assert Width([g, h, i]) == g.width + Width([h, i]);
    assert Width(fields) == f.width + Width([g, h, i]);
    assert Offset([g, h, i], 1) == g.width by { assert Offset([h, i], 0) == 0; }
    assert Offset([h, i], 1) == h.width by { assert Offset([i], 0) == 0; }
    assert Offset([g, h, i], 2) == g.width + h.width;
    LayoutVersion(size, version, fields);
    hide PlaceAll;
    var buf := [version] + Zeros(size - 1);
    FieldReadsBack(buf, 1, fields, 0);
    FieldReadsBack(buf, 1, fields, 1);
    FieldReadsBack(buf, 1, fields, 2);
    FieldReadsBack(buf, 1, fields, 3);
    assert Offset(fields, 1) == f.width && Offset(fields, 2) == f.width + g.width && Offset(fields, 3) == f.width + g.width + h.width;
  }

  /** A key bundle survives blobbing exactly when both of its key pairs are proper. */
  lemma BundleRoundTripIff(k: KeyBundle, p: string, noise: seq<Byte>)
    ensures var b := BundleAsBlob(k, p, noise);
            b.Ok? && BundleFromBlob(b.value, p) == Ok(k) <==>
            Proper(k.sign, HCS0, SIGN_SECRET) && Proper(k.enc, HCK0, KX_SECRET)
  {
    hide Layout, Seal;
    if Proper(k.sign, HCS0, SIGN_SECRET) && Proper(k.enc, HCK0, KX_SECRET) {
      var fields := BundleFields(k);
      FourFields(Aligned(BUNDLE_SIZE), 2, fields[0], fields[1], fields[2], fields[3]);
      assert fields == [fields[0], fields[1], fields[2], fields[3]];
    }
  }
}
