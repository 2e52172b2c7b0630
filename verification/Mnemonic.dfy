/** BIP-39 mnemonics (wallet/wallet.py): entropy plus checksum in 11-bit words, and back. */
module Mnemonic {
  import opened Arith
  import opened Digits
  import opened Model

  /** The word list and the 256-bit hash the checksum is taken from. */
  datatype Codec = Codec(words: seq<string>, sha: seq<Byte> -> nat)

  predicate WellFormed(k: Codec)
  {
    && |k.words| == 2048
    && forall i, j :: 0 <= i < j < 2048 ==> k.words[i] != k.words[j]
  }

  /** SHA-256 yields 32 bytes. */
  ghost predicate Digests(k: Codec)
  {
    forall bytes :: k.sha(bytes) < Pow(2, 256)
  }

  /** Entropy of 16, 20, 24, 28 or 32 bytes. */
  predicate AllowedLength(n: nat) { n in {16, 20, 24, 28, 32} }

  function ChecksumBits(entropyLength: nat): nat { entropyLength / 4 }

  function WordCount(entropyLength: nat): nat { 3 * entropyLength / 4 }

  /** The first bits of the hash of the entropy. */
  function Checksum(k: Codec, entropy: seq<Byte>, bits: nat): nat
    requires bits <= 256
  {
    PowPositive(2, 256 - bits);
    k.sha(entropy) / Pow(2, 256 - bits)
  }

  /** Bitwise or. */
  function Or(a: nat, b: nat): nat
  {
    if a == 0 then b else if b == 0 then a else 2 * Or(a / 2, b / 2) + Max(a % 2, b % 2)
  }

  /** Or-ing into the low bits that a shift has cleared is adding. */
  lemma {:induction false} OrIsAdd(a: nat, b: nat, bits: nat)
    requires b < Pow(2, bits)
    ensures Or(a * Pow(2, bits), b) == a * Pow(2, bits) + b
  {
    if bits > 0 {
      var half := a * Pow(2, bits - 1);
      Doubled(a, bits);
      assert b / 2 < Pow(2, bits - 1);
      hide Or, Pow;
      OrIsAdd(a, b / 2, bits - 1);
      OrHalves(half, b);
    }
  }

  lemma Doubled(a: nat, bits: nat)
    requires bits > 0
    ensures a * Pow(2, bits) == 2 * (a * Pow(2, bits - 1))
  {
  }

  lemma OrHalves(half: nat, b: nat)
    requires Or(half, b / 2) == half + b / 2
    ensures Or(2 * half, b) == 2 * half + b
  {
    assert (2 * half) / 2 == half && (2 * half) % 2 == 0;
  }

  /** Entropy bits followed by checksum bits, as one number. */
  function Combined(k: Codec, entropy: seq<Byte>): nat
    requires AllowedLength(|entropy|)
  {
    var bits := ChecksumBits(|entropy|);
    Or(FromDigits(256, entropy) * Pow(2, bits), Checksum(k, entropy, bits))
  }

  lemma CombinedIs(k: Codec, entropy: seq<Byte>)
    requires Digests(k) && AllowedLength(|entropy|)
    ensures var bits := ChecksumBits(|entropy|);
            Combined(k, entropy) == FromDigits(256, entropy) * Pow(2, bits) + Checksum(k, entropy, bits)
  {
    hide Pow, FromDigits, Digests, Checksum;
    var bits := ChecksumBits(|entropy|);
    ChecksumFits(k, entropy, bits);
    OrIsAdd(FromDigits(256, entropy), Checksum(k, entropy, bits), bits);
  }

  function WordsOf(k: Codec, groups: seq<nat>): seq<string>
    requires WellFormed(k) && InBase(2048, groups)
  {
    seq(|groups|, i requires 0 <= i < |groups| => k.words[groups[i]])
  }

  function Encode(k: Codec, entropy: seq<Byte>): seq<string>
    requires WellFormed(k) && AllowedLength(|entropy|)
  {
    WordsOf(k, ToDigits(2048, WordCount(|entropy|), Combined(k, entropy)))
  }

  /** `generate_mnemonic`, the random entropy given; other lengths are an error. */
  method GenerateMnemonic(k: Codec, entropy: seq<Byte>) returns (r: Option<seq<string>>)
    requires WellFormed(k)
    ensures r == if AllowedLength(|entropy|) then Some(Encode(k, entropy)) else None
  {
    hide Pow, FromDigits, ToDigits, Checksum, WordsOf;
    var strength := 8 * |entropy|;
    if strength !in {128, 160, 192, 224, 256} { return None; }
    var checksumBits := strength / 32;
    var entInt := FromDigits(256, entropy);
    var csInt := Checksum(k, entropy, checksumBits);
    var combined := Or(entInt * Pow(2, checksumBits), csInt);
    var numWords := (strength + checksumBits) / 11;
    assert checksumBits == ChecksumBits(|entropy|) && numWords == WordCount(|entropy|);
    var mnemonic := Spell(k, numWords, combined);
    r := Some(mnemonic);
  }

  /** The loop over 11-bit groups, most significant first. */
  method Spell(k: Codec, numWords: nat, combined: nat) returns (mnemonic: seq<string>)
    requires WellFormed(k)
    ensures mnemonic == WordsOf(k, ToDigits(2048, numWords, combined))
  {
    hide ToDigits, Pow;
    ghost var all := WordsOf(k, ToDigits(2048, numWords, combined));
    mnemonic := [];
    var i := numWords;
    while i > 0
      invariant 0 <= i <= numWords && |mnemonic| == numWords - i
      invariant mnemonic == all[..numWords - i]
    {
      i := i - 1;
      DigitAt(2048, numWords, combined, numWords - 1 - i);
      mnemonic := mnemonic + [k.words[(combined / Pow(2048, i)) % 2048]];
    }
    assert all[..numWords] == all;
  }

  // ----- decoding -----

  function IndexOf(words: seq<string>, w: string): (i: nat)
    requires w in words
    ensures i < |words| && words[i] == w && w !in words[..i]
  {
    if words[0] == w then 0
    else
      assert words == [words[0]] + words[1..];
      1 + IndexOf(words[1..], w)
  }

  predicate Known(k: Codec, tokens: seq<string>)
  {
    forall i :: 0 <= i < |tokens| ==> tokens[i] in k.words
  }

  function Indices(k: Codec, tokens: seq<string>): (s: seq<nat>)
    requires Known(k, tokens)
    ensures |s| == |tokens| && InBase(|k.words|, s)
  {
    seq(|tokens|, i requires 0 <= i < |tokens| => IndexOf(k.words, tokens[i]))
  }

  function ChecksumBitsOf(wordCount: nat): nat { wordCount * 11 - wordCount * 11 * 32 / 33 }

  /** The entropy bytes a token list carries. */
  function Decode(k: Codec, tokens: seq<string>): (entropy: seq<Byte>)
    requires Known(k, tokens)
  {
    var bits := ChecksumBitsOf(|tokens|);
    PowPositive(2, bits);
    BytesOf((|tokens| * 11 - bits) / 8, FromDigits(2048, Indices(k, tokens)) / Pow(2, bits))
  }

  function BytesOf(n: nat, x: nat): (s: seq<Byte>)
    ensures |s| == n
  {
    ToDigits(256, n, x)
  }

  predicate AllowedWords(n: nat) { n in {12, 15, 18, 21, 24} }

  /** `validate_mnemonic`: a full word list, known words, allowed count, matching checksum. */
  predicate Valid(k: Codec, tokens: seq<string>)
  {
    && |k.words| == 2048
    && AllowedWords(|tokens|) && Known(k, tokens)
    && var bits := ChecksumBitsOf(|tokens|);
       PowPositive(2, bits);
       FromDigits(2048, Indices(k, tokens)) % Pow(2, bits) == Checksum(k, Decode(k, tokens), bits)
  }

  /** The lookup loop: an unknown word fails, known words become indices. */
  method LookUp(k: Codec, tokens: seq<string>) returns (r: Option<seq<nat>>)
    ensures r.Some? <==> Known(k, tokens)
    ensures r.Some? ==> r.value == Indices(k, tokens)
  {
    var indices: seq<nat> := [];
    for i := 0 to |tokens|
      invariant |indices| == i
      invariant forall j :: 0 <= j < i ==> tokens[j] in k.words && indices[j] == IndexOf(k.words, tokens[j])
    {
      if tokens[i] !in k.words { return None; }
      indices := indices + [IndexOf(k.words, tokens[i])];
    }
    assert indices == Indices(k, tokens);
    r := Some(indices);
  }

  /** `combined = (combined << 11) | idx` over all indices. */
  method Fold(indices: seq<nat>) returns (combined: nat)
    requires InBase(2048, indices)
    ensures combined == FromDigits(2048, indices)
  {
    Radices();
    combined := 0;
    for i := 0 to |indices|
      invariant combined == FromDigits(2048, indices[..i])
    {
      FromDigitsSnoc(2048, indices[..i], indices[i]);
      assert indices[..i + 1] == indices[..i] + [indices[i]];
      OrIsAdd(combined, indices[i], 11);
      combined := Or(combined * 2048, indices[i]);
    }
    assert indices[..|indices|] == indices;
  }

  lemma ValidIs(k: Codec, tokens: seq<string>, x: nat)
    requires |k.words| == 2048 && AllowedWords(|tokens|) && Known(k, tokens)
    requires x == FromDigits(2048, Indices(k, tokens))
    ensures var bits := ChecksumBitsOf(|tokens|);
            && bits <= 8 && Pow(2, bits) > 0 && Pow(2, 256 - bits) > 0 && |tokens| * 11 >= bits
            && (Valid(k, tokens) <==>
                x % Pow(2, bits) == k.sha(BytesOf((|tokens| * 11 - bits) / 8, x / Pow(2, bits))) / Pow(2, 256 - bits))
  {
    PowPositive(2, ChecksumBitsOf(|tokens|));
    PowPositive(2, 256 - ChecksumBitsOf(|tokens|));
    hide FromDigits, ToDigits, Pow, Known, Indices, BytesOf;
  }

  /** Split off the checksum and compare it with that of the entropy. */
  method CheckNumber(k: Codec, tokens: seq<string>, combined: nat) returns (ok: bool)
    requires |k.words| == 2048 && AllowedWords(|tokens|) && Known(k, tokens)
    requires combined == FromDigits(2048, Indices(k, tokens))
    ensures ok == Valid(k, tokens)
  {
    hide *;
    ValidIs(k, tokens, combined);
    var csBits := ChecksumBitsOf(|tokens|);
    var cs := combined % Pow(2, csBits);
    var ent := BytesOf((|tokens| * 11 - csBits) / 8, combined / Pow(2, csBits));
    ok := cs == k.sha(ent) / Pow(2, 256 - csBits);
  }

  /** `validate_mnemonic` as written: collect the indices, fold them into one number, split it. */
  method ValidateMnemonic(k: Codec, tokens: seq<string>) returns (ok: bool)
    ensures ok == Valid(k, tokens)
  {
    hide Indices, FromDigits, Decode, Checksum, Pow, Known;
    if |k.words| != 2048 { return false; }
    if |tokens| !in {12, 15, 18, 21, 24} { return false; }
    var indices := LookUp(k, tokens);
    if indices.None? { return false; }
    var combined := Fold(indices.value);
    ok := CheckNumber(k, tokens, combined);
  }

  // ----- sizes -----

  /** 33 bits in every 32 are entropy and one is checksum, on both sides of the codec. */
  lemma Sizes(n: nat)
    requires AllowedLength(n)
    ensures AllowedWords(WordCount(n)) && ChecksumBitsOf(WordCount(n)) == ChecksumBits(n) <= 8
    ensures (WordCount(n) * 11 - ChecksumBits(n)) / 8 == n
    ensures 8 * n + ChecksumBits(n) == 11 * WordCount(n)
  {
  }

  lemma SizesBack(w: nat)
    requires AllowedWords(w)
    ensures exists n :: AllowedLength(n) && WordCount(n) == w
    ensures (w * 11 - ChecksumBitsOf(w)) / 8 == 4 * w / 3 && AllowedLength(4 * w / 3) && WordCount(4 * w / 3) == w
  {
    assert AllowedLength(4 * w / 3) && WordCount(4 * w / 3) == w;
  }

  lemma {:induction false} PowPow(b: nat, m: nat, n: nat)
    ensures Pow(Pow(b, m), n) == Pow(b, m * n)
  {
    if n > 0 {
      PowPow(b, m, n - 1);
      PowAdd(b, m, m * (n - 1));
      assert m + m * (n - 1) == m * n;
    }
  }

  lemma Radices()
    ensures Pow(2, 8) == 256 && Pow(2, 11) == 2048
  {
    assert Pow(2, 4) == 16;
    PowAdd(2, 4, 4);
    assert Pow(2, 3) == 8;
    PowAdd(2, 8, 3);
  }

  /** Entropy and checksum fill the words exactly. */
  lemma SpaceFits(n: nat)
    requires AllowedLength(n)
    ensures Pow(256, n) * Pow(2, ChecksumBits(n)) == Pow(2048, WordCount(n))
  {
    Radices();
    Sizes(n);
    PowPow(2, 8, n);
    PowPow(2, 11, WordCount(n));
    PowAdd(2, 8 * n, ChecksumBits(n));
  }

  lemma ChecksumFits(k: Codec, entropy: seq<Byte>, bits: nat)
    requires Digests(k) && bits <= 256
    ensures Checksum(k, entropy, bits) < Pow(2, bits)
  {
    PowAdd(2, bits, 256 - bits);
    PowPositive(2, 256 - bits);
    DivBelow(k.sha(entropy), Pow(2, 256 - bits), Pow(2, bits));
  }

  lemma EntropyFits(entropy: seq<Byte>)
    ensures FromDigits(256, entropy) < Pow(256, |entropy|)
  {
    FromDigitsBound(256, entropy);
  }

  lemma CombinedFits(k: Codec, entropy: seq<Byte>)
    requires Digests(k) && AllowedLength(|entropy|)
    ensures Combined(k, entropy) < Pow(2048, WordCount(|entropy|))
  {
    hide Pow, FromDigits, Digests, Checksum, WordCount;
    var n := |entropy|;
    var p := Pow(2, ChecksumBits(n));
    ChecksumFits(k, entropy, ChecksumBits(n));
    EntropyFits(entropy);
    SpaceFits(n);
    CombinedIs(k, entropy);
    AppendBound(FromDigits(256, entropy), Checksum(k, entropy, ChecksumBits(n)), p, Pow(256, n));
  }

  // ----- the codec laws -----

  lemma IndexUnique(k: Codec, i: nat)
    requires WellFormed(k) && i < 2048
    ensures k.words[i] in k.words && IndexOf(k.words, k.words[i]) == i
  {
  }

  lemma EncodedIndices(k: Codec, entropy: seq<Byte>)
    requires WellFormed(k) && AllowedLength(|entropy|)
    ensures var tokens := Encode(k, entropy);
            && |tokens| == WordCount(|entropy|) && Known(k, tokens)
            && Indices(k, tokens) == ToDigits(2048, WordCount(|entropy|), Combined(k, entropy))
  {
    var groups := ToDigits(2048, WordCount(|entropy|), Combined(k, entropy));
    forall i | 0 <= i < |groups| ensures groups[i] < 2048 && IndexOf(k.words, k.words[groups[i]]) == groups[i] {
      IndexUnique(k, groups[i]);
    }
  }

  /** The combined number splits back into entropy and checksum. */
  lemma CombinedSplits(k: Codec, entropy: seq<Byte>)
    requires Digests(k) && AllowedLength(|entropy|)
    ensures var bits := ChecksumBits(|entropy|);
            && bits <= 8 && Pow(2, bits) > 0
            && Combined(k, entropy) / Pow(2, bits) == FromDigits(256, entropy)
            && Combined(k, entropy) % Pow(2, bits) == Checksum(k, entropy, bits)
  {
    var bits := ChecksumBits(|entropy|);
    ChecksumFits(k, entropy, bits);
    PowPositive(2, bits);
    hide Pow, FromDigits, Digests, Checksum;
    CombinedIs(k, entropy);
    DivModUnique(Combined(k, entropy), Pow(2, bits), FromDigits(256, entropy), Checksum(k, entropy, bits));
  }

  lemma EncodeDecodes(k: Codec, entropy: seq<Byte>)
    requires WellFormed(k) && Digests(k) && AllowedLength(|entropy|)
    ensures Known(k, Encode(k, entropy)) && Decode(k, Encode(k, entropy)) == entropy
    ensures FromDigits(2048, Indices(k, Encode(k, entropy))) == Combined(k, entropy)
    ensures AllowedWords(|Encode(k, entropy)|)
    ensures ChecksumBitsOf(|Encode(k, entropy)|) == ChecksumBits(|entropy|)
  {
    var n := |entropy|;
    EncodedIndices(k, entropy);
    CombinedFits(k, entropy);
    CombinedSplits(k, entropy);
    DigitsRoundTrip(2048, WordCount(n), Combined(k, entropy));
    Sizes(n);
    NumberRoundTrip(256, entropy);
    hide AllowedWords, Pow, FromDigits, ToDigits, Digests, Checksum, Combined, Encode, Indices, WellFormed, Known,
         WordCount, ChecksumBits, ChecksumBitsOf;
  }

  /** Every allowed entropy encodes to a valid mnemonic that decodes back to it. */
  lemma EncodeValidates(k: Codec, entropy: seq<Byte>)
    requires WellFormed(k) && Digests(k) && AllowedLength(|entropy|)
    ensures Valid(k, Encode(k, entropy)) && Decode(k, Encode(k, entropy)) == entropy
  {
    EncodeDecodes(k, entropy);
    CombinedSplits(k, entropy);
    hide Pow, FromDigits, ToDigits, Digests, Checksum, Combined, Encode, Indices, WellFormed, Known, ChecksumBits,
         ChecksumBitsOf, Decode;
  }

  /** Word i is the i-th group of 11 bits of entropy and checksum, from the most significant down. */
  lemma WordAt(k: Codec, entropy: seq<Byte>, i: nat)
    requires WellFormed(k) && AllowedLength(|entropy|) && i < 3 * |entropy| / 4
    ensures var n := 3 * |entropy| / 4;
            && |Encode(k, entropy)| == n && Pow(2, 11 * (n - 1 - i)) > 0
            && Encode(k, entropy)[i] == k.words[Combined(k, entropy) / Pow(2, 11 * (n - 1 - i)) % 2048]
  {
    var n := WordCount(|entropy|);
    hide ToDigits, Pow, Combined;
    DigitAt(2048, n, Combined(k, entropy), i);
    Radices();
    PowPow(2, 11, n - 1 - i);
  }

  /** The checksum is the leading bits of the hash of the entropy. */
  lemma ChecksumLeads(k: Codec, entropy: seq<Byte>, bits: nat)
    requires bits <= 256
    ensures Checksum(k, entropy, bits) * Pow(2, 256 - bits) <= k.sha(entropy)
    ensures k.sha(entropy) < (Checksum(k, entropy, bits) + 1) * Pow(2, 256 - bits)
  {
    PowPositive(2, 256 - bits);
    hide Pow;
    DivBounds(k.sha(entropy), Pow(2, 256 - bits));
  }

  lemma DecodedLength(k: Codec, tokens: seq<string>)
    requires AllowedWords(|tokens|) && Known(k, tokens)
    ensures var n := |Decode(k, tokens)|;
            AllowedLength(n) && WordCount(n) == |tokens| && ChecksumBitsOf(|tokens|) == ChecksumBits(n)
  {
    hide Pow, FromDigits, Indices, Known, ToDigits;
    SizesBack(|tokens|);
    Sizes(|Decode(k, tokens)|);
  }

  lemma BytesRoundTrip(n: nat, x: nat)
    requires x < Pow(256, n)
    ensures FromDigits(256, BytesOf(n, x)) == x
  {
    DigitsRoundTrip(256, n, x);
  }

  /** The number spelled by the words, less its checksum bits, fits the entropy bytes. */
  lemma SpelledFits(s: seq<nat>)
    requires AllowedWords(|s|) && InBase(2048, s)
    ensures var bits := ChecksumBitsOf(|s|);
            && Pow(2, bits) > 0 && |s| * 11 >= bits
            && FromDigits(2048, s) / Pow(2, bits) < Pow(256, (|s| * 11 - bits) / 8)
  {
    SizesBack(|s|);
    var n := 4 * |s| / 3;
    Sizes(n);
    SpaceFits(n);
    FromDigitsBound(2048, s);
    PowPositive(2, ChecksumBits(n));
    hide Pow, FromDigits, InBase;
    DivBelow(FromDigits(2048, s), Pow(2, ChecksumBits(n)), Pow(256, n));
  }

  /** The decoded bytes denote all but the checksum bits of the number the tokens spell. */
  lemma DecodedBytes(k: Codec, tokens: seq<string>)
    requires WellFormed(k) && AllowedWords(|tokens|) && Known(k, tokens)
    ensures Pow(2, ChecksumBitsOf(|tokens|)) > 0
    ensures FromDigits(256, Decode(k, tokens)) ==
            FromDigits(2048, Indices(k, tokens)) / Pow(2, ChecksumBitsOf(|tokens|))
  {
    hide Pow, FromDigits, Indices, Known, AllowedWords, ChecksumBitsOf, BytesOf;
    SpelledFits(Indices(k, tokens));
    var bits := ChecksumBitsOf(|tokens|);
    BytesRoundTrip((|tokens| * 11 - bits) / 8, FromDigits(2048, Indices(k, tokens)) / Pow(2, bits));
  }

  /** The decoded entropy, encoded again as a number, is the number the tokens spell. */
  lemma DecodedNumber(k: Codec, tokens: seq<string>)
    requires WellFormed(k) && Digests(k) && Valid(k, tokens)
    ensures var e := Decode(k, tokens);
            && AllowedLength(|e|) && WordCount(|e|) == |tokens|
            && Combined(k, e) == FromDigits(2048, Indices(k, tokens))
  {
    DecodedLength(k, tokens);
    DecodedBytes(k, tokens);
    CombinedIs(k, Decode(k, tokens));
    hide Pow, FromDigits, ToDigits, Checksum, Indices, Known, Decode, ChecksumBits, ChecksumBitsOf, Combined, Or;
    DivMod(FromDigits(2048, Indices(k, tokens)), Pow(2, ChecksumBitsOf(|tokens|)));
  }

  /** Every valid mnemonic is the encoding of the entropy it decodes to. */
  lemma ValidIsEncoded(k: Codec, tokens: seq<string>)
    requires WellFormed(k) && Digests(k) && Valid(k, tokens)
    ensures AllowedLength(|Decode(k, tokens)|) && Encode(k, Decode(k, tokens)) == tokens
  {
    DecodedNumber(k, tokens);
    NumberRoundTrip(2048, Indices(k, tokens));
    hide Pow, FromDigits, ToDigits, Digests, Valid, Combined, Decode;
    forall i | 0 <= i < |tokens| ensures Encode(k, Decode(k, tokens))[i] == tokens[i] {
      assert Indices(k, tokens)[i] == IndexOf(k.words, tokens[i]);
    }
  }

  /** Valid mnemonics and allowed entropies correspond one to one. */
  lemma MnemonicsAreEntropies(k: Codec, tokens: seq<string>, entropy: seq<Byte>)
    requires WellFormed(k) && Digests(k) && AllowedLength(|entropy|)
    ensures Encode(k, entropy) == tokens <==> Valid(k, tokens) && Decode(k, tokens) == entropy
  {
    EncodeValidates(k, entropy);
    if Valid(k, tokens) { ValidIsEncoded(k, tokens); }
  }
}
