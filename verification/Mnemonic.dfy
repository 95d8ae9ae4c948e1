/** Packing 32 bytes of entropy and a checksum byte into 24 words of 11 bits,
    as in "Generating the mnemonic" of BIP-39. */
module Mnemonic {
  import opened Prelude
  import opened Bytes
  import opened Text

  // ---- Bits of a byte string ----------------------------------------------

  /** Bit `j` of `data`, the most significant bit of the first byte being 0. */
  function BitAt(data: seq<byte>, j: nat): nat
    requires j < 8 * |data|
  {
    data[j / 8] / Pow(2, 7 - j % 8) % 2
  }

  /** The number spelled by `numBits` bits starting at `offset`. */
  function Window(data: seq<byte>, offset: nat, numBits: nat): nat
    requires offset + numBits <= 8 * |data|
  {
    BytesToNat(data) / Pow(2, 8 * |data| - offset - numBits) % Pow(2, numBits)
  }

  lemma {:induction false} PowPow(base: nat, j: nat, k: nat)
    ensures Pow(Pow(base, j), k) == Pow(base, j * k)
  {
    if k > 0 {
      PowPow(base, j, k - 1);
      PowAdd(base, j, j * (k - 1));
      assert j + j * (k - 1) == j * k;
    }
  }

  /** Dropping low bytes of a number drops the last bytes of its encoding. */
  lemma HighBytes(data: seq<byte>, k: nat)
    requires k <= |data|
    ensures BytesToNat(data) / Pow(256, |data| - k) == BytesToNat(data[..k])
  {
    assert data == data[..k] + data[k..];
    FromDigitsConcat(data[..k], data[k..], 256);
    FromDigitsBound(data[k..], 256);
    QuotientUnique(BytesToNat(data), Pow(256, |data| - k), BytesToNat(data[..k]), BytesToNat(data[k..]));
  }

  lemma {:induction false} BitOfSum(high: nat, low: nat, k: nat, t: nat)
    requires t < k
    ensures (high * Pow(2, k) + low) / Pow(2, t) % 2 == low / Pow(2, t) % 2
  {
    var v, rest := high * Pow(2, k) + low, high * Pow(2, k - 1);
    assert v == 2 * rest + low;
    if t > 0 {
      var below := Pow(2, t - 1);
      BitOfSum(high, low / 2, k - 1, t - 1);
      DivDiv(v, 2, below);
      DivDiv(low, 2, below);
      assert v / 2 == rest + low / 2;
      assert v / Pow(2, t) == (rest + low / 2) / below;
      assert low / Pow(2, t) == (low / 2) / below;
    }
  }

  /** A bit of the bytes is a bit of the big-endian number they encode. */
  lemma BitMeaning(data: seq<byte>, j: nat)
    requires j < 8 * |data|
    ensures BitAt(data, j) == BytesToNat(data) / Pow(2, 8 * |data| - 1 - j) % 2
  {
    var k, t := j / 8, 7 - j % 8;
    var m := |data| - 1 - k;
    HighBytes(data, k + 1);
    assert data[..k + 1] == data[..k] + [data[k]];
    FromDigitsSnoc(data[..k], data[k], 256);
    BitOfSum(BytesToNat(data[..k]), data[k], 8, t);
    assert Pow(2, 8) == 256;
    PowPow(2, 8, m);
    PowAdd(2, 8 * m, t);
    DivDiv(BytesToNat(data), Pow(256, m), Pow(2, t));
  }

  lemma WindowSnoc(data: seq<byte>, offset: nat, n: nat)
    requires offset + n < 8 * |data|
    ensures Window(data, offset, n + 1) == 2 * Window(data, offset, n) + BitAt(data, offset + n)
  {
    var below := Pow(2, 8 * |data| - offset - n - 1);
    BitMeaning(data, offset + n);
    DivDiv(BytesToNat(data), below, 2);
    DivDiv(BytesToNat(data) / below, 2, Pow(2, n));
  }

  lemma SetBit(window: nat, bit: nat, place: nat)
    ensures (2 * window + bit) * place == window * (2 * place) + bit * place
  {
  }

  lemma WindowNone(data: seq<byte>, offset: nat)
    requires offset <= 8 * |data|
    ensures Window(data, offset, 0) == 0
  {
  }

  /** Or-ing the next bit into its place extends the window by it. */
  lemma WindowSet(data: seq<byte>, offset: nat, n: nat, i: nat)
    requires i < n && offset + i < 8 * |data|
    ensures var value, place := Window(data, offset, i) * Pow(2, n - i), Pow(2, n - 1 - i);
      Window(data, offset, i + 1) * place == if BitAt(data, offset + i) == 0 then value else Or(value, place)
  {
    var window, place := Window(data, offset, i), Pow(2, n - 1 - i);
    WindowSnoc(data, offset, i);
    OrIsAdd(window, place, n - i);
    SetBit(window, BitAt(data, offset + i), place);
  }

  /** Reads at most 31 bits, so the shifted one stays a positive 32-bit
      integer. */
  method ExtractBits(data: array<byte>, bitOffset: nat, numBits: nat) returns (r: Result<nat, nat>)
    requires numBits <= 31
    ensures r.Ok? <==> numBits == 0 || bitOffset + numBits <= 8 * data.Length
    ensures r.Ok? && numBits > 0 ==> r.value == Window(data[..], bitOffset, numBits)
    ensures r.Ok? && numBits == 0 ==> r.value == 0
    ensures r.Err? ==> r.error == if bitOffset / 8 >= data.Length then bitOffset / 8 else data.Length
  {
    var value: nat := 0;
    for i := 0 to numBits
      invariant i > 0 ==> bitOffset + i <= 8 * data.Length
      invariant if i == 0 then value == 0 else value == Window(data[..], bitOffset, i) * Pow(2, numBits - i)
    {
      var byteIndex := (bitOffset + i) / 8;
      var bitIndex := 7 - (bitOffset + i) % 8;
      if byteIndex >= data.Length {
        return Err(byteIndex);
      }
      var bit := data[byteIndex] / Pow(2, bitIndex) % 2;
      WindowNone(data[..], bitOffset);
      WindowSet(data[..], bitOffset, numBits, i);
      if bit != 0 {
        value := Or(value, Pow(2, numBits - 1 - i));
      }
    }
    r := Ok(value);
  }

  // ---- Words --------------------------------------------------------------

  const WORDS: nat := 2048

  function AllBytes(entropy: seq<byte>, checksum: Option<byte>): seq<byte> {
    entropy + [if checksum.Some? then checksum.value else 0]
  }

  /** The word indices are the base-2048 digits of the 264-bit number. */
  function Indices(bytes: seq<byte>): (r: seq<nat>)
    ensures |r| == 24 && forall i :: 0 <= i < 24 ==> r[i] < WORDS
  {
    Digits(BytesToNat(bytes), WORDS, 24)
  }

  lemma IndexIsWindow(bytes: seq<byte>, i: nat)
    requires |bytes| == 33 && i < 24
    ensures Indices(bytes)[i] == Window(bytes, 11 * i, 11)
  {
    DigitAt(BytesToNat(bytes), WORDS, 24, i);
    assert Pow(2, 11) == WORDS;
    PowPow(2, 11, 23 - i);
  }

  /** Read in base 2048, the indices are the 264-bit number. */
  lemma IndicesSpell(bytes: seq<byte>)
    requires |bytes| == 33
    ensures FromDigits(Indices(bytes), WORDS) == BytesToNat(bytes)
  {
    assert Pow(2, 11) == WORDS;
    assert Pow(2, 8) == 256;
    PowPow(2, 11, 24);
    PowPow(2, 8, 33);
    BytesRoundTrip(bytes);
    FromDigitsOfDigits(BytesToNat(bytes), WORDS, 24);
    QuotientUnique(BytesToNat(bytes), Pow(WORDS, 24), 0, BytesToNat(bytes));
  }

  /** Regrouping the indices gives back the 33 bytes. */
  lemma IndicesRegroup(bytes: seq<byte>)
    requires |bytes| == 33
    ensures NatToBytes(FromDigits(Indices(bytes), WORDS), 33) == bytes
  {
    IndicesSpell(bytes);
    BytesRoundTrip(bytes);
  }

  /** The indices spell the entropy with the checksum behind it: the last eight
      of the 264 bits, and so the last eight of the last word, are the checksum. */
  lemma ChecksumComesLast(entropy: seq<byte>, checksum: Option<byte>)
    requires |entropy| == 32
    ensures var sum, indices := (if checksum.Some? then checksum.value else 0), Indices(AllBytes(entropy, checksum));
      && FromDigits(indices, WORDS) == BytesToNat(entropy) * 256 + sum
      && indices[23] % 256 == sum
  {
    var sum, bytes := (if checksum.Some? then checksum.value else 0), AllBytes(entropy, checksum);
    IndicesSpell(bytes);
    FromDigitsSnoc(entropy, sum, 256);
    LastDigit(BytesToNat(entropy), sum);
    assert Digits(BytesToNat(bytes), WORDS, 24) == Digits(BytesToNat(bytes) / WORDS, WORDS, 23) + [BytesToNat(bytes) % WORDS];
  }

  lemma LastDigit(high: nat, low: nat)
    requires low < 256
    ensures (high * 256 + low) % WORDS % 256 == low
  {
    var v := high * 256 + low;
    DivMod(v, WORDS);
    assert v % WORDS == (high - v / WORDS * 8) * 256 + low;
    QuotientUnique(v % WORDS, 256, high - v / WORDS * 8, low);
  }

  /** Distinct entropies have distinct index lists. */
  lemma IndicesInjective(a: seq<byte>, b: seq<byte>)
    requires |a| == |b| == 33
    ensures Indices(a) == Indices(b) <==> a == b
  {
    IndicesRegroup(a);
    IndicesRegroup(b);
  }

  function Lookup(indices: seq<nat>, wordlist: seq<string>): (r: seq<string>)
    requires forall i :: 0 <= i < |indices| ==> indices[i] < |wordlist|
    ensures |r| == |indices| && forall i :: 0 <= i < |indices| ==> r[i] == wordlist[indices[i]]
  {
    seq(|indices|, i requires 0 <= i < |indices| => wordlist[indices[i]])
  }

  /** `entropy` and the first byte of its hash come from outside. */
  method GenerateMnemonic(entropy: seq<byte>, checksum: Option<byte>, wordlist: seq<string>) returns (r: Result<string, nat>)
    requires |entropy| == 32
    ensures var indices := Indices(AllBytes(entropy, checksum));
      && (r.Ok? <==> forall i :: 0 <= i < 24 ==> indices[i] < |wordlist|)
      && (r.Ok? ==> r.value == Join(Lookup(indices, wordlist), ' '))
      && (r.Err? ==> r.error in indices && r.error >= |wordlist|)
  {
    var words: seq<string> := [];
    var bytes := AllBytes(entropy, checksum);
    var allBytes := new byte[33](i requires 0 <= i < 33 => bytes[i]);
    assert allBytes[..] == bytes;
    ghost var indices := Indices(bytes);
    for i := 0 to 24
      invariant |words| == i && allBytes[..] == bytes
      invariant forall j :: 0 <= j < i ==> indices[j] < |wordlist| && words[j] == wordlist[indices[j]]
    {
      IndexIsWindow(bytes, i);
      var index := ExtractBits(allBytes, i * 11, 11);
      assert index == Ok(indices[i]);
      if index.value >= |wordlist| {
        return Err(index.value);
      }
      words := words + [wordlist[index.value]];
    }
    assert words == Lookup(indices, wordlist);
    r := Ok(Join(words, ' '));
  }

  predicate GoodWordlist(wordlist: seq<string>) {
    |wordlist| == WORDS && Distinct(wordlist) && forall i :: 0 <= i < |wordlist| ==> ' ' !in wordlist[i]
  }

  function MnemonicOf(entropy: seq<byte>, checksum: Option<byte>, wordlist: seq<string>): string
    requires GoodWordlist(wordlist)
  {
    Join(Lookup(Indices(AllBytes(entropy, checksum)), wordlist), ' ')
  }

  /** The phrase has 24 words, and no other entropy has the same phrase. */
  lemma MnemonicInjective(e1: seq<byte>, c1: Option<byte>, e2: seq<byte>, c2: Option<byte>, wordlist: seq<string>)
    requires |e1| == |e2| == 32 && GoodWordlist(wordlist)
    ensures |Split(MnemonicOf(e1, c1, wordlist), ' ')| == 24
    ensures MnemonicOf(e1, c1, wordlist) == MnemonicOf(e2, c2, wordlist) <==> AllBytes(e1, c1) == AllBytes(e2, c2)
    ensures AllBytes(e1, c1) == AllBytes(e2, c2) ==> e1 == e2
  {
    var b1, b2 := AllBytes(e1, c1), AllBytes(e2, c2);
    var w1, w2 := Lookup(Indices(b1), wordlist), Lookup(Indices(b2), wordlist);
    SplitJoin(w1, ' ');
    SplitJoin(w2, ' ');
    IndicesInjective(b1, b2);
    assert e1 == b1[..32] && e2 == b2[..32];
    if w1 == w2 {
      assert forall i :: 0 <= i < 24 ==> w1[i] == w2[i] && Indices(b1)[i] == Indices(b2)[i];
      assert Indices(b1) == Indices(b2);
    }
  }
}
