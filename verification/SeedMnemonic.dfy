/** Seeds and encrypted seeds as mnemonics. A seed of 32 bytes is one phrase of 24 words; an encrypted
    seed, 48 bytes of cipher and 16 of salt, is two such phrases in one line. */
module SeedMnemonic {
  import opened Bytes
  import opened Sequences
  import opened Chunking
  import opened Bip39
  import KeyBlobs

  const SEED_SIZE: nat := KeyBlobs.SEED_SIZE
  const ABYTES: nat := 16
  const SALTBYTES: nat := 16
  const WORDS: nat := 24

  datatype SeedType = Root | Revocation | Device | DevicePin | DNA | OneShot | Mock

  datatype Seed = Seed(kind: SeedType, buf: seq<Byte>)

  datatype EncryptedData = EncryptedData(salt: seq<Byte>, nonce: seq<Byte>, cipher: seq<Byte>)

  datatype EncryptedSeed = EncryptedSeed(kind: SeedType, data: EncryptedData)

  /** What a call comes to: failed assertions and unwrapped errors are panics. */
  datatype Outcome<+T> = Done(value: T) | Failed | Panic

  /** The word list and the first byte of the hash of some entropy. */
  datatype Codec = Codec(list: seq<string>, sha: seq<Byte> -> Byte)

  // ----- seeds -----

  function MnemonicOfSeed(c: Codec, seed: Seed): Outcome<string>
    requires IsWordList(c.list)
  {
    match FromEntropy(c.list, c.sha, seed.buf)
    case None => Failed
    case Some(phrase) => Done(phrase)
  }

  function SeedFromMnemonic(c: Codec, phrase: string, kind: SeedType): Outcome<Seed> {
    match FromPhrase(c.list, c.sha, phrase)
    case None => Failed
    case Some(e) => if |e| == SEED_SIZE then Done(Seed(kind, e)) else Panic
  }

  /** For seeds of the size that every constructor demands, reading undoes writing; and whatever
      is read writes itself again. */
  lemma SeedRoundTrip(c: Codec, seed: Seed, phrase: string)
    requires IsWordList(c.list)
    ensures SeedFromMnemonic(c, phrase, seed.kind) == Done(seed) <==>
            MnemonicOfSeed(c, seed) == Done(phrase) && |seed.buf| == SEED_SIZE
  {
    hide FromPhrase, FromEntropy, IsWordList;
    PhrasesAreEntropy(c.list, c.sha, phrase, seed.buf);
  }

  // ----- encrypted seeds -----

  function AllWords(c: Codec, es: seq<seq<Byte>>): (wss: seq<seq<string>>)
    requires IsWordList(c.list) && forall i | 0 <= i < |es| :: ValidSize(|es[i]|)
    ensures |wss| == |es|
  {
    seq(|es|, i requires 0 <= i < |es| => EntropyWords(c.list, c.sha, es[i]))
  }

  function JoinAll(wss: seq<seq<string>>): (phrases: seq<string>)
    ensures |phrases| == |wss|
  {
    seq(|wss|, i requires 0 <= i < |wss| => Join(wss[i]))
  }

  function GetMnemonic(c: Codec, seed: EncryptedSeed): Outcome<string>
    requires IsWordList(c.list)
  {
    var entropy := seed.data.cipher + seed.data.salt;
    if |entropy| != SEED_SIZE + ABYTES + SALTBYTES then Panic else
      ExactChunks(entropy, SEED_SIZE, 2);
      Done(Join(JoinAll(AllWords(c, Chunks(entropy, SEED_SIZE)))))
  }

  predicate AllPhrases(c: Codec, wss: seq<seq<string>>) {
    forall i | 0 <= i < |wss| :: FromPhrase(c.list, c.sha, Join(wss[i])).Some?
  }

  function AllEntropy(c: Codec, wss: seq<seq<string>>): (es: seq<seq<Byte>>)
    requires AllPhrases(c, wss)
    ensures |es| == |wss|
  {
    seq(|wss|, i requires 0 <= i < |wss| => FromPhrase(c.list, c.sha, Join(wss[i])).value)
  }

  function Unpack(entropy: seq<Byte>, kind: SeedType, nonceBytes: nat): EncryptedSeed
    requires |entropy| == SEED_SIZE + ABYTES + SALTBYTES
  {
    EncryptedSeed(kind, EncryptedData(entropy[SEED_SIZE + ABYTES..], Zeros(nonceBytes), entropy[..SEED_SIZE + ABYTES]))
  }

  function NewWithMnemonic(c: Codec, phrase: string, kind: SeedType, nonceBytes: nat): Outcome<EncryptedSeed> {
    var chunks := Chunks(Split(phrase), WORDS);
    if !AllPhrases(c, chunks) then Panic else
      var entropy := Concat(AllEntropy(c, chunks));
      if |entropy| != SEED_SIZE + ABYTES + SALTBYTES then Panic else Done(Unpack(entropy, kind, nonceBytes))
  }

  // ----- two phrases in one line -----

  lemma ConcatPair<T>(a: seq<T>, b: seq<T>)
    ensures Concat([a, b]) == a + b
  {
    assert [a, b][1..] == [b] && [b][1..] == [];
    assert Concat([b]) == b;
  }

  lemma ChunkPair<T>(a: seq<T>, b: seq<T>, n: nat)
    requires n > 0 && |a| == n && |b| == n
    ensures Chunks(a + b, n) == [a, b]
  {
    ConcatPair(a, b);
    ChunksConcat([a, b], n);
  }

  /** The mnemonic is the words of the two halves, one after the other. */
  lemma MnemonicOfHalves(c: Codec, seed: EncryptedSeed, a: seq<Byte>, b: seq<Byte>)
    requires IsWordList(c.list) && |a| == SEED_SIZE && |b| == SEED_SIZE
    requires seed.data.cipher + seed.data.salt == a + b
    ensures GetMnemonic(c, seed) == Done(Join(EntropyWords(c.list, c.sha, a) + EntropyWords(c.list, c.sha, b)))
  {
    hide IsWordList, EntropyWords, Chunks;
    ChunkPair(a, b, SEED_SIZE);
    var wa, wb := EntropyWords(c.list, c.sha, a), EntropyWords(c.list, c.sha, b);
    assert AllWords(c, [a, b]) == [wa, wb];
    assert JoinAll([wa, wb]) == [Join(wa), Join(wb)];
    JoinAppend(wa, wb);
    assert Join([Join(wa), Join(wb)]) == Join(wa) + (" " + Join(wb));
  }

  /** What is written is read back, cut after 48 bytes and with a zero nonce. */
  lemma ReadHalves(c: Codec, a: seq<Byte>, b: seq<Byte>, kind: SeedType, nonceBytes: nat)
    requires IsWordList(c.list) && |a| == SEED_SIZE && |b| == SEED_SIZE
    ensures NewWithMnemonic(c, Join(EntropyWords(c.list, c.sha, a) + EntropyWords(c.list, c.sha, b)), kind, nonceBytes)
         == Done(Unpack(a + b, kind, nonceBytes))
  {
    hide IsWordList, EntropyWords, Chunks, FromPhrase, Unpack, Spaceless, Split, Join, Concat;
    var wa, wb := EntropyWords(c.list, c.sha, a), EntropyWords(c.list, c.sha, b);
    SplitJoin(wa + wb);
    ChunkPair(wa, wb, WORDS);
    PhraseRoundTrip(c.list, c.sha, a);
    PhraseRoundTrip(c.list, c.sha, b);
    assert AllEntropy(c, [wa, wb]) == [a, b];
    ConcatPair(a, b);
  }

  /** Writing and reading gives every seed back exactly when it looks like one made by encryption
      under a zero nonce: the cipher is 48 bytes and the nonce is zero. */
  lemma MnemonicRoundTripIff(c: Codec, seed: EncryptedSeed, nonceBytes: nat)
    requires IsWordList(c.list)
    ensures GetMnemonic(c, seed).Done? <==> |seed.data.cipher| + |seed.data.salt| == 64
    ensures GetMnemonic(c, seed).Done? ==>
              (NewWithMnemonic(c, GetMnemonic(c, seed).value, seed.kind, nonceBytes) == Done(seed)
               <==> |seed.data.cipher| == 48 && seed.data.nonce == Zeros(nonceBytes))
  {
    hide IsWordList, EntropyWords, NewWithMnemonic, Join, JoinAll, AllWords, Chunks, Zeros;
    var entropy := seed.data.cipher + seed.data.salt;
    if |entropy| == 64 {
      var a, b := entropy[..32], entropy[32..];
      assert a + b == entropy;
      MnemonicOfHalves(c, seed, a, b);
      ReadHalves(c, a, b, seed.kind, nonceBytes);
      assert |seed.data.cipher| == 48 ==> entropy[..48] == seed.data.cipher && entropy[48..] == seed.data.salt;
    }
  }

  // ----- which phrases are read -----

  lemma {:induction false} EntropyPerWord(es: seq<seq<Byte>>, wss: seq<seq<string>>)
    requires |es| == |wss| && forall i | 0 <= i < |es| :: 3 * |es[i]| == 4 * |wss[i]|
    ensures 3 * |Concat(es)| == 4 * |Concat(wss)|
  {
    if es != [] {
      EntropyPerWord(es[1..], wss[1..]);
    }
  }

  lemma {:induction false} ChunksNonEmpty<T>(s: seq<T>, n: nat)
    requires n > 0
    ensures forall i | 0 <= i < |Chunks(s, n)| :: Chunks(s, n)[i] != []
    decreases |s|
  {
    if |s| > n { ChunksNonEmpty(s[n..], n); }
  }

  lemma {:induction false} ChunksKeep(ws: seq<string>, n: nat)
    requires n > 0 && AllSpaceless(ws)
    ensures forall i | 0 <= i < |Chunks(ws, n)| :: AllSpaceless(Chunks(ws, n)[i])
    decreases |ws|
  {
    hide Spaceless;
    if |ws| > n { ChunksKeep(ws[n..], n); }
  }

  /** Each chunk that is read is the words of its entropy. */
  lemma ChunkIsWords(c: Codec, ws: seq<string>)
    requires IsWordList(c.list) && ws != [] && AllSpaceless(ws) && FromPhrase(c.list, c.sha, Join(ws)).Some?
    ensures var e := FromPhrase(c.list, c.sha, Join(ws)).value;
            ValidSize(|e|) && 3 * |e| == 4 * |ws| && EntropyWords(c.list, c.sha, e) == ws
  {
    hide IsWordList, EntropyWords, FromPhrase, Join, Split, AllSpaceless;
    SplitJoin(ws);
    EntropyRoundTrip(c.list, c.sha, Join(ws));
  }

  /** Only lines of 48 words pass the length assertion. */
  lemma FortyEightWords(c: Codec, phrase: string, kind: SeedType, nonceBytes: nat)
    requires IsWordList(c.list)
    ensures NewWithMnemonic(c, phrase, kind, nonceBytes).Done? ==> |Split(phrase)| == 48
  {
    hide IsWordList, EntropyWords, FromPhrase, Join, Split, AllSpaceless, Chunks, Concat, ValidSize, Unpack;
    if !NewWithMnemonic(c, phrase, kind, nonceBytes).Done? { return; }
    var ws := Split(phrase);
    var wss := Chunks(ws, WORDS);
    ChunksNonEmpty(ws, WORDS);
    ChunksKeep(ws, WORDS);
    var es := AllEntropy(c, wss);
    forall i | 0 <= i < |es|
      ensures 3 * |es[i]| == 4 * |wss[i]|
    {
      ChunkIsWords(c, wss[i]);
    }
    EntropyPerWord(es, wss);
    ConcatChunks(ws, WORDS);
  }

  /** Whatever line is read is the mnemonic of the seed it gives: reading is injective, and
      the seed has a 48-byte cipher, a 16-byte salt and a zero nonce. */
  lemma ReadIsWritten(c: Codec, phrase: string, kind: SeedType, nonceBytes: nat)
    requires IsWordList(c.list)
    ensures NewWithMnemonic(c, phrase, kind, nonceBytes).Done? ==>
              var seed := NewWithMnemonic(c, phrase, kind, nonceBytes).value;
              && GetMnemonic(c, seed) == Done(phrase) && seed.kind == kind
              && |seed.data.cipher| == 48 && |seed.data.salt| == 16 && seed.data.nonce == Zeros(nonceBytes)
  {
    hide IsWordList, EntropyWords, FromPhrase, Join, Split, AllSpaceless, Chunks, Concat, GetMnemonic, Zeros;
    if !NewWithMnemonic(c, phrase, kind, nonceBytes).Done? { return; }
    FortyEightWords(c, phrase, kind, nonceBytes);
    var ws := Split(phrase);
    ExactChunks(ws, WORDS, 2);
    ChunksKeep(ws, WORDS);
    var wss := Chunks(ws, WORDS);
    ChunkIsWords(c, wss[0]);
    ChunkIsWords(c, wss[1]);
    var es := AllEntropy(c, wss);
    assert es == [es[0], es[1]] && wss == [wss[0], wss[1]];
    ConcatPair(es[0], es[1]);
    ConcatPair(wss[0], wss[1]);
    ConcatChunks(ws, WORDS);
    JoinSplit(phrase);
    var seed := NewWithMnemonic(c, phrase, kind, nonceBytes).value;
    var entropy := es[0] + es[1];
    assert seed.data.cipher + seed.data.salt == entropy;
    MnemonicOfHalves(c, seed, es[0], es[1]);
  }

  // ----- seeds made by encryption -----

  /** The seal is the cipher under the zero nonce, keyed by the passphrase and the random salt. */
  function Encrypt(seal: (string, seq<Byte>, seq<Byte>) -> seq<Byte>, seed: Seed, passphrase: string,
                   salt: seq<Byte>, nonceBytes: nat): EncryptedSeed {
    EncryptedSeed(seed.kind, EncryptedData(salt, Zeros(nonceBytes), seal(passphrase, salt, seed.buf)))
  }

  /** Every encrypted seed survives being written down, whatever the passphrase and the salt. */
  lemma EncryptedSeedSurvives(c: Codec, seal: (string, seq<Byte>, seq<Byte>) -> seq<Byte>, seed: Seed,
                              passphrase: string, salt: seq<Byte>, nonceBytes: nat)
    requires IsWordList(c.list) && |seed.buf| == SEED_SIZE && |salt| == SALTBYTES
    requires |seal(passphrase, salt, seed.buf)| == |seed.buf| + ABYTES
    ensures var es := Encrypt(seal, seed, passphrase, salt, nonceBytes);
            && GetMnemonic(c, es).Done?
            && NewWithMnemonic(c, GetMnemonic(c, es).value, seed.kind, nonceBytes) == Done(es)
  {
    hide IsWordList, GetMnemonic, NewWithMnemonic;
    MnemonicRoundTripIff(c, Encrypt(seal, seed, passphrase, salt, nonceBytes), nonceBytes);
  }
}
