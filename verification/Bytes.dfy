/** Positional numerals, and the big-endian codec between byte arrays and
    unbounded integers that is built on them. */
module Bytes {

  type byte = x: int | 0 <= x < 256

  // ---- Powers and division ------------------------------------------------

  function Pow(base: nat, k: nat): (r: nat)
    ensures base > 0 ==> r > 0
  {
    if k == 0 then 1 else base * Pow(base, k - 1)
  }

  lemma {:induction false} PowAdd(base: nat, j: nat, k: nat)
    ensures Pow(base, j + k) == Pow(base, j) * Pow(base, k)
  {
    if j > 0 {
      PowAdd(base, j - 1, k);
      TimesAssociates(base, Pow(base, j - 1), Pow(base, k));
    }
  }

  lemma TimesAssociates(a: int, b: int, c: int)
    ensures (a * b) * c == a * (b * c)
  {
  }

  lemma TimesMonotonic(a: int, b: int, c: int)
    requires a <= b && 0 <= c
    ensures a * c <= b * c
  {
  }

  lemma OnlyZeroMultiple(d: int, b: int)
    requires -b < d * b < b
    ensures d == 0
  {
    if d >= 1 {
      TimesMonotonic(1, d, b);
    } else if d <= -1 {
      TimesMonotonic(d, -1, b);
    }
  }

  lemma DivMod(a: int, b: int)
    requires b > 0
    ensures a == a / b * b + a % b && 0 <= a % b < b
  {
  }

  /** The quotient is the only number with its remainder below the divisor. */
  lemma QuotientUnique(a: int, b: int, q: int, r: int)
    requires a == q * b + r && 0 <= r < b
    ensures a / b == q && a % b == r
  {
    DivMod(a, b);
    Distribute(a / b, -q, b);
    OnlyZeroMultiple(a / b - q, b);
  }

  lemma Distribute(x: int, y: int, z: int)
    ensures (x + y) * z == x * z + y * z
  {
  }

  /** Dividing in two steps, with the remainder of both. */
  lemma DivDiv(a: int, b: int, c: int)
    requires b > 0 && c > 0
    ensures b * c > 0 && a / (b * c) == (a / b) / c && a % (b * c) == (a / b) % c * b + a % b
  {
    var q, r := a / b, a % b;
    var q', r' := q / c, q % c;
    DivMod(a, b);
    DivMod(q, c);
    Distribute(q' * c, r', b);
    TimesAssociates(q', c, b);
    TimesMonotonic(r', c - 1, b);
    Distribute(c, -1, b);
    TimesMonotonic(1, c, b);
    QuotientUnique(a, b * c, q', r' * b + r);
  }

  // ---- Numerals -----------------------------------------------------------

  /** The last `len` digits of `v`, most significant first. Division rounds
      down, as a bigint shift does, so a negative `v` is read in two's
      complement. */
  function Digits(v: int, base: nat, len: nat): (r: seq<nat>)
    requires base > 0
    ensures |r| == len && forall i :: 0 <= i < len ==> r[i] < base
    decreases len, v
  {
    if len == 0 then [] else
      DivMod(v, base);
      Digits(v / base, base, len - 1) + [v % base]
  }

  function FromDigits(ds: seq<nat>, base: nat): nat {
    if ds == [] then 0 else FromDigits(ds[..|ds| - 1], base) * base + ds[|ds| - 1]
  }

  predicate AreDigits(ds: seq<nat>, base: nat) {
    forall i :: 0 <= i < |ds| ==> ds[i] < base
  }

  lemma FromDigitsSnoc(ds: seq<nat>, d: nat, base: nat)
    ensures FromDigits(ds + [d], base) == FromDigits(ds, base) * base + d
  {
    assert (ds + [d])[..|ds|] == ds;
  }

  lemma {:induction false} FromDigitsConcat(a: seq<nat>, b: seq<nat>, base: nat)
    ensures FromDigits(a + b, base) == FromDigits(a, base) * Pow(base, |b|) + FromDigits(b, base)
  {
    if b == [] {
      assert a + b == a;
    } else {
      var init, last := b[..|b| - 1], b[|b| - 1];
      assert a + b == (a + init) + [last];
      FromDigitsSnoc(a + init, last, base);
      FromDigitsConcat(a, init, base);
      var x, p, y := FromDigits(a, base), Pow(base, |init|), FromDigits(init, base);
      assert Pow(base, |b|) == base * p;
      Distribute(x * p, y, base);
      TimesAssociates(x, p, base);
    }
  }

  lemma {:induction false} FromDigitsBound(ds: seq<nat>, base: nat)
    requires base > 0 && AreDigits(ds, base)
    ensures FromDigits(ds, base) < Pow(base, |ds|)
  {
    if ds != [] {
      var init := ds[..|ds| - 1];
      FromDigitsBound(init, base);
      TimesMonotonic(FromDigits(init, base) + 1, Pow(base, |init|), base);
      Distribute(FromDigits(init, base), 1, base);
    }
  }

  /** Reading back the digits of a number gives the number modulo base^len. */
  lemma {:induction false} FromDigitsOfDigits(v: int, base: nat, len: nat)
    requires base > 0
    ensures FromDigits(Digits(v, base, len), base) == v % Pow(base, len)
    decreases len
  {
    if len > 0 {
      DivMod(v, base);
      FromDigitsOfDigits(v / base, base, len - 1);
      FromDigitsSnoc(Digits(v / base, base, len - 1), v % base, base);
      DivDiv(v, base, Pow(base, len - 1));
    }
  }

  /** The digits of a number are the digits it was read from. */
  lemma {:induction false} DigitsOfFromDigits(ds: seq<nat>, base: nat)
    requires base > 0 && AreDigits(ds, base)
    ensures Digits(FromDigits(ds, base), base, |ds|) == ds
  {
    if ds != [] {
      var init, last := ds[..|ds| - 1], ds[|ds| - 1];
      QuotientUnique(FromDigits(ds, base), base, FromDigits(init, base), last);
      DigitsOfFromDigits(init, base);
      assert ds == init + [last];
    }
  }

  /** Digit `i` from the front, by its place value. */
  lemma {:induction false} DigitAt(v: int, base: nat, len: nat, i: nat)
    requires base > 0 && i < len
    ensures Digits(v, base, len)[i] == v / Pow(base, len - 1 - i) % base
    decreases len
  {
    if i < len - 1 {
      DigitAt(v / base, base, len - 1, i);
      DivDiv(v, base, Pow(base, len - 2 - i));
    }
  }

  // ---- Bytes as numbers ---------------------------------------------------

  function BytesToNat(bytes: seq<byte>): nat { FromDigits(bytes, 256) }

  function NatToBytes(v: int, len: nat): (r: seq<byte>)
    ensures |r| == len
  {
    Digits(v, 256, len)
  }

  /** Encoding then decoding keeps the value modulo 256^len: all of it exactly
      when it is neither negative nor too wide. */
  lemma NatRoundTrip(v: int, len: nat)
    ensures BytesToNat(NatToBytes(v, len)) == v % Pow(256, len)
    ensures BytesToNat(NatToBytes(v, len)) == v <==> 0 <= v < Pow(256, len)
  {
    FromDigitsOfDigits(v, 256, len);
    if 0 <= v < Pow(256, len) {
      QuotientUnique(v, Pow(256, len), 0, v);
    }
  }

  lemma BytesRoundTrip(bytes: seq<byte>)
    ensures NatToBytes(BytesToNat(bytes), |bytes|) == bytes
    ensures BytesToNat(bytes) < Pow(256, |bytes|)
  {
    DigitsOfFromDigits(bytes, 256);
    FromDigitsBound(bytes, 256);
  }

  /** Byte strings of one length are told apart by their numbers. */
  lemma BytesToNatInjective(a: seq<byte>, b: seq<byte>)
    requires |a| == |b|
    ensures BytesToNat(a) == BytesToNat(b) <==> a == b
  {
    BytesRoundTrip(a);
    BytesRoundTrip(b);
  }

  // ---- Bitwise or ---------------------------------------------------------

  function Or(a: nat, b: nat): nat {
    if a == 0 && b == 0 then 0
    else 2 * Or(a / 2, b / 2) + (if a % 2 == 1 || b % 2 == 1 then 1 else 0)
  }

  /** Or-ing bits into positions that are clear adds them. */
  lemma {:induction false} OrIsAdd(hi: nat, lo: nat, k: nat)
    requires lo < Pow(2, k)
    ensures Or(hi * Pow(2, k), lo) == hi * Pow(2, k) + lo
  {
    if k == 0 {
      OrZero(hi);
    } else {
      var p := Pow(2, k - 1);
      assert hi * Pow(2, k) == 2 * (hi * p);
      assert lo / 2 < p;
      OrIsAdd(hi, lo / 2, k - 1);
    }
  }

  lemma {:induction false} OrZero(a: nat)
    ensures Or(a, 0) == a
  {
    if a > 0 {
      OrZero(a / 2);
    }
  }

  // ---- The loops ----------------------------------------------------------

  /** Big-endian bytes to bigint. */
  method BytesToBigInt(bytes: array<byte>) returns (result: nat)
    ensures result == BytesToNat(bytes[..])
  {
    result := 0;
    for i := 0 to bytes.Length
      invariant result == BytesToNat(bytes[..i])
    {
      OrIsAdd(result, bytes[i], 8);
      assert Pow(2, 8) == 256;
      FromDigitsSnoc(bytes[..i], bytes[i], 256);
      assert bytes[..i + 1] == bytes[..i] + [bytes[i]];
      result := Or(result * 256, bytes[i]);
    }
    assert bytes[..] == bytes[..bytes.Length];
  }

  /** Bigint to big-endian bytes of a fixed width; higher bytes are lost. */
  method BigIntToBytes(value: int, length: nat) returns (result: array<byte>)
    ensures fresh(result) && result[..] == NatToBytes(value, length)
  {
    result := new byte[length](_ => 0);
    var remaining := value;
    var i := length;
    while i > 0
      invariant 0 <= i <= length
      invariant Digits(value, 256, length) == Digits(remaining, 256, i) + result[i..]
    {
      i := i - 1;
      ghost var tail := result[i + 1..];
      result[i] := remaining % 256;
      assert result[i..] == [remaining % 256] + tail;
      remaining := remaining / 256;
    }
    assert result[0..] == result[..];
  }
}
