/** Entropy as words of a list, coded as in "Generating the mnemonic" of BIP-39: the bytes, then a
    checksum of one bit for every 32, cut into groups of eleven bits. */
module Bip39 {
  import opened Wrappers
  import opened Bytes
  import opened Sequences
  import opened Chunking

  // ----- numbers as bits, most significant first -----

  function Pow2(k: nat): (p: nat)
    ensures p > 0
  {
    if k == 0 then 1 else 2 * Pow2(k - 1)
  }

  function Bits(n: nat, width: nat): (bs: seq<bool>)
    ensures |bs| == width
    decreases width
  {
    if width == 0 then [] else Bits(n / 2, width - 1) + [n % 2 == 1]
  }

  function Num(bs: seq<bool>): (n: nat)
    ensures n < Pow2(|bs|)
  {
    if bs == [] then 0 else 2 * Num(bs[..|bs| - 1]) + (if bs[|bs| - 1] then 1 else 0)
  }

  lemma {:induction false} NumOfBits(n: nat, width: nat)
    requires n < Pow2(width)
    ensures Num(Bits(n, width)) == n
  {
    if width > 0 {
      NumOfBits(n / 2, width - 1);
      assert Bits(n, width)[..width - 1] == Bits(n / 2, width - 1);
    }
  }

  lemma {:induction false} BitsOfNum(bs: seq<bool>)
    ensures Bits(Num(bs), |bs|) == bs
  {
    if bs != [] {
      BitsOfNum(bs[..|bs| - 1]);
      assert bs == bs[..|bs| - 1] + [bs[|bs| - 1]];
    }
  }

  /** Numbers below 2^width, each as so many bits. */
  predicate Below(ns: seq<nat>, width: nat) {
    forall i | 0 <= i < |ns| :: ns[i] < Pow2(width)
  }

  function BitGroups(ns: seq<nat>, width: nat): (gs: seq<seq<bool>>)
    ensures |gs| == |ns| && AllOfLength(gs, width)
  {
    seq(|ns|, i requires 0 <= i < |ns| => Bits(ns[i], width))
  }

  function Nums(gs: seq<seq<bool>>): (ns: seq<nat>)
    ensures |ns| == |gs|
  {
    seq(|gs|, i requires 0 <= i < |gs| => Num(gs[i]))
  }

  function Spread(ns: seq<nat>, width: nat): seq<bool> {
    Concat(BitGroups(ns, width))
  }

  function Gather(bs: seq<bool>, width: nat): seq<nat>
    requires width > 0
  {
    Nums(Chunks(bs, width))
  }

  lemma SpreadLength(ns: seq<nat>, width: nat)
    ensures |Spread(ns, width)| == |ns| * width
  {
    ConcatLength(BitGroups(ns, width), width);
  }

  lemma GatherSpread(ns: seq<nat>, width: nat)
    requires width > 0 && Below(ns, width)
    ensures Gather(Spread(ns, width), width) == ns
  {
    ChunksConcat(BitGroups(ns, width), width);
    forall i | 0 <= i < |ns|
      ensures Nums(BitGroups(ns, width))[i] == ns[i]
    {
      NumOfBits(ns[i], width);
    }
  }

  lemma SpreadGather(bs: seq<bool>, width: nat, k: nat)
    requires width > 0 && |bs| == k * width
    ensures |Gather(bs, width)| == k && Below(Gather(bs, width), width)
    ensures Spread(Gather(bs, width), width) == bs
  {
    var gs := Chunks(bs, width);
    ExactChunks(bs, width, k);
    forall i | 0 <= i < k
      ensures BitGroups(Nums(gs), width)[i] == gs[i]
    {
      BitsOfNum(gs[i]);
    }
    assert BitGroups(Nums(gs), width) == gs;
    ConcatChunks(bs, width);
  }

  // ----- bytes -----

  function ToNats(e: seq<Byte>): (ns: seq<nat>)
    ensures |ns| == |e| && Below(ns, 8)
  {
    assert Pow2(8) == 256;
    seq(|e|, i requires 0 <= i < |e| => e[i] as nat)
  }

  function ToBytes(ns: seq<nat>): (e: seq<Byte>)
    requires Below(ns, 8)
    ensures |e| == |ns|
  {
    assert Pow2(8) == 256;
    seq(|ns|, i requires 0 <= i < |ns| => ns[i] as Byte)
  }

  lemma ByteTrip(e: seq<Byte>)
    ensures ToBytes(ToNats(e)) == e
  {
  }

  lemma NatTrip(ns: seq<nat>)
    requires Below(ns, 8)
    ensures ToNats(ToBytes(ns)) == ns
  {
  }

  // ----- entropy and word numbers -----

  predicate ValidSize(bytes: nat) {
    bytes == 16 || bytes == 20 || bytes == 24 || bytes == 28 || bytes == 32
  }

  predicate ValidCount(words: nat) {
    words == 12 || words == 15 || words == 18 || words == 21 || words == 24
  }

  /** The leading bits of the first byte of the hash `sha`. */
  function Checksum(sha: seq<Byte> -> Byte, e: seq<Byte>): (c: seq<bool>)
    requires ValidSize(|e|)
    ensures |c| == |e| / 4
  {
    Bits(sha(e) as nat, 8)[..|e| / 4]
  }

  function Encode(sha: seq<Byte> -> Byte, e: seq<Byte>): seq<nat>
    requires ValidSize(|e|)
  {
    Gather(Spread(ToNats(e), 8) + Checksum(sha, e), 11)
  }

  /** The entropy, unless the count or the checksum is wrong. */
  function Decode(sha: seq<Byte> -> Byte, ix: seq<nat>): Option<seq<Byte>> {
    if !ValidCount(|ix|) then None else
      SpreadLength(ix, 11);
      var bits := Spread(ix, 11);
      var bytes := |ix| / 3 * 4;
      SpreadGather(bits[..8 * bytes], 8, bytes);
      var e := ToBytes(Gather(bits[..8 * bytes], 8));
      if bits[8 * bytes..] == Checksum(sha, e) then Some(e) else None
  }

  lemma EncodeSize(sha: seq<Byte> -> Byte, e: seq<Byte>)
    requires ValidSize(|e|)
    ensures |Encode(sha, e)| == |e| / 4 * 3 && ValidCount(|Encode(sha, e)|) && Below(Encode(sha, e), 11)
    ensures Spread(Encode(sha, e), 11) == Spread(ToNats(e), 8) + Checksum(sha, e)
  {
    hide Spread, Gather, Checksum, ToNats, Below;
    SpreadLength(ToNats(e), 8);
    SpreadGather(Spread(ToNats(e), 8) + Checksum(sha, e), 11, |e| / 4 * 3);
  }

  lemma DecodeEncode(sha: seq<Byte> -> Byte, e: seq<Byte>)
    requires ValidSize(|e|)
    ensures Decode(sha, Encode(sha, e)) == Some(e)
  {
    hide Spread, Gather, Checksum, ToNats, ToBytes, Below, Encode;
    EncodeSize(sha, e);
    SpreadLength(ToNats(e), 8);
    var bits := Spread(ToNats(e), 8) + Checksum(sha, e);
    assert bits[..8 * |e|] == Spread(ToNats(e), 8) && bits[8 * |e|..] == Checksum(sha, e);
    GatherSpread(ToNats(e), 8);
    ByteTrip(e);
  }

  /** Nothing but an encoding decodes. */
  lemma EncodeDecode(sha: seq<Byte> -> Byte, ix: seq<nat>)
    requires Below(ix, 11) && Decode(sha, ix).Some?
    ensures var e := Decode(sha, ix).value; ValidSize(|e|) && |e| == |ix| / 3 * 4 && Encode(sha, e) == ix
  {
    hide Spread, Gather, Checksum, ToNats, ToBytes, Below;
    SpreadLength(ix, 11);
    var bits := Spread(ix, 11);
    var bytes := |ix| / 3 * 4;
    SpreadGather(bits[..8 * bytes], 8, bytes);
    NatTrip(Gather(bits[..8 * bytes], 8));
    assert bits == bits[..8 * bytes] + bits[8 * bytes..];
    GatherSpread(ix, 11);
  }

  // ----- word numbers and words -----

  /** 2048 different words without spaces. */
  ghost predicate IsWordList(list: seq<string>) {
    |list| == 2048 && AllSpaceless(list) && Distinct(list)
  }

  predicate Known(list: seq<string>, ws: seq<string>) {
    forall i | 0 <= i < |ws| :: ws[i] in list
  }

  function Words(list: seq<string>, ix: seq<nat>): (ws: seq<string>)
    requires forall i | 0 <= i < |ix| :: ix[i] < |list|
    ensures |ws| == |ix|
  {
    seq(|ix|, i requires 0 <= i < |ix| => list[ix[i]])
  }

  function Numbers(list: seq<string>, ws: seq<string>): (ix: seq<nat>)
    requires Known(list, ws)
    ensures |ix| == |ws| && forall i | 0 <= i < |ix| :: ix[i] < |list|
  {
    seq(|ws|, i requires 0 <= i < |ws| => IndexOf(list, ws[i]))
  }

  lemma BelowMeansListed(ix: seq<nat>)
    ensures Below(ix, 11) <==> forall i | 0 <= i < |ix| :: ix[i] < 2048
  {
    assert Pow2(11) == 2048 by { assert Pow2(7) == 128; }
  }

  lemma NumbersOfWords(list: seq<string>, ix: seq<nat>)
    requires IsWordList(list) && forall i | 0 <= i < |ix| :: ix[i] < 2048
    ensures Known(list, Words(list, ix)) && AllSpaceless(Words(list, ix))
    ensures Numbers(list, Words(list, ix)) == ix
  {
    hide Spaceless;
  }

  lemma WordsOfNumbers(list: seq<string>, ws: seq<string>)
    requires Known(list, ws)
    ensures Words(list, Numbers(list, ws)) == ws
  {
  }

  // ----- phrases -----

  /** The words of the phrase for some entropy. */
  function EntropyWords(list: seq<string>, sha: seq<Byte> -> Byte, e: seq<Byte>): (ws: seq<string>)
    requires IsWordList(list) && ValidSize(|e|)
    ensures |ws| == |e| / 4 * 3 && AllSpaceless(ws)
  {
    EncodeSize(sha, e);
    BelowMeansListed(Encode(sha, e));
    NumbersOfWords(list, Encode(sha, e));
    Words(list, Encode(sha, e))
  }

  function FromEntropy(list: seq<string>, sha: seq<Byte> -> Byte, e: seq<Byte>): Option<string>
    requires IsWordList(list)
  {
    if ValidSize(|e|) then Some(Join(EntropyWords(list, sha, e))) else None
  }

  function FromPhrase(list: seq<string>, sha: seq<Byte> -> Byte, phrase: string): Option<seq<Byte>>
  {
    var ws := Split(phrase);
    if Known(list, ws) then Decode(sha, Numbers(list, ws)) else None
  }

  lemma PhraseRoundTrip(list: seq<string>, sha: seq<Byte> -> Byte, e: seq<Byte>)
    requires IsWordList(list) && ValidSize(|e|)
    ensures FromPhrase(list, sha, Join(EntropyWords(list, sha, e))) == Some(e)
  {
    hide Decode, Encode, IsWordList, Known, Words, Numbers, AllSpaceless, Below, Join, Split;
    SplitJoin(EntropyWords(list, sha, e));
    EncodeSize(sha, e);
    BelowMeansListed(Encode(sha, e));
    NumbersOfWords(list, Encode(sha, e));
    DecodeEncode(sha, e);
  }

  lemma EntropyRoundTrip(list: seq<string>, sha: seq<Byte> -> Byte, phrase: string)
    requires IsWordList(list) && FromPhrase(list, sha, phrase).Some?
    ensures var e := FromPhrase(list, sha, phrase).value;
            ValidSize(|e|) && 3 * |e| == 4 * |Split(phrase)| && EntropyWords(list, sha, e) == Split(phrase)
  {
    hide Decode, Encode, Known, Words, Numbers, AllSpaceless, Below, Join, Split;
    var ix := Numbers(list, Split(phrase));
    BelowMeansListed(ix);
    EncodeDecode(sha, ix);
    EncodeSize(sha, FromPhrase(list, sha, phrase).value);
    WordsOfNumbers(list, Split(phrase));
  }

  /** Entropy of a valid size and valid phrases correspond one to one. */
  lemma PhrasesAreEntropy(list: seq<string>, sha: seq<Byte> -> Byte, phrase: string, e: seq<Byte>)
    requires IsWordList(list)
    ensures FromPhrase(list, sha, phrase) == Some(e) <==> FromEntropy(list, sha, e) == Some(phrase)
  {
    hide FromPhrase, EntropyWords, IsWordList, Join, Split;
    if FromPhrase(list, sha, phrase) == Some(e) {
      EntropyRoundTrip(list, sha, phrase);
      JoinSplit(phrase);
    }
    if ValidSize(|e|) { PhraseRoundTrip(list, sha, e); }
  }
}
