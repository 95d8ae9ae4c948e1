/** Splitting and joining text, and decimal numerals. */
module Text {

  /** String.prototype.split on one character: never empty. */
  function Split(s: string, sep: char): (r: seq<string>)
    ensures |r| >= 1
    ensures forall i :: 0 <= i < |r| ==> sep !in r[i]
  {
    if s == "" then [""]
    else
      var rest := Split(s[1..], sep);
      if s[0] == sep then [""] + rest else [[s[0]] + rest[0]] + rest[1..]
  }

  function Join(parts: seq<string>, sep: char): string {
    if parts == [] then ""
    else if |parts| == 1 then parts[0]
    else parts[0] + [sep] + Join(parts[1..], sep)
  }

  lemma {:induction false} SplitWhole(p: string, sep: char)
    requires sep !in p
    ensures Split(p, sep) == [p]
  {
    if p != "" {
      SplitWhole(p[1..], sep);
      assert p == [p[0]] + p[1..];
    }
  }

  lemma {:induction false} SplitFirst(p: string, sep: char, rest: string)
    requires sep !in p
    ensures Split(p + [sep] + rest, sep) == [p] + Split(rest, sep)
  {
    var s := p + [sep] + rest;
    if p == "" {
      assert s[1..] == rest;
    } else {
      SplitFirst(p[1..], sep, rest);
      assert s[1..] == p[1..] + [sep] + rest;
      assert p == [p[0]] + p[1..];
    }
  }

  /** Parts without the separator are recovered from their join. */
  lemma {:induction false} SplitJoin(parts: seq<string>, sep: char)
    requires parts != [] && forall i :: 0 <= i < |parts| ==> sep !in parts[i]
    ensures Split(Join(parts, sep), sep) == parts
  {
    if |parts| == 1 {
      SplitWhole(parts[0], sep);
    } else {
      SplitFirst(parts[0], sep, Join(parts[1..], sep));
      SplitJoin(parts[1..], sep);
    }
  }

  lemma {:induction false} JoinSplit(s: string, sep: char)
    ensures Join(Split(s, sep), sep) == s
  {
    if s != "" {
      var rest := Split(s[1..], sep);
      JoinSplit(s[1..], sep);
      if s[0] == sep {
        assert ([""] + rest)[1..] == rest;
      } else if |rest| > 1 {
        assert ([[s[0]] + rest[0]] + rest[1..])[1..] == rest[1..];
      }
    }
  }

  lemma {:induction false} JoinSnoc(parts: seq<string>, sep: char, last: string)
    requires parts != []
    ensures Join(parts + [last], sep) == Join(parts, sep) + [sep] + last
  {
    if |parts| == 1 {
      assert (parts + [last])[1..] == [last];
    } else {
      assert (parts + [last])[1..] == parts[1..] + [last];
      JoinSnoc(parts[1..], sep, last);
    }
  }

  // ---- Decimal numerals ---------------------------------------------------

  predicate IsDigit(c: char) { '0' <= c <= '9' }

  predicate AllDigits(s: string) { forall i :: 0 <= i < |s| ==> IsDigit(s[i]) }

  function DigitChar(d: nat): char
    requires d < 10
  {
    ('0' as int + d) as char
  }

  /** Decimal text of a number, without leading zeros. */
  function PrintNat(n: nat): (r: string)
    ensures r != "" && AllDigits(r)
  {
    if n < 10 then [DigitChar(n)] else PrintNat(n / 10) + [DigitChar(n % 10)]
  }

  /** Value of a digit string. */
  function ParseNat(s: string): nat
    requires AllDigits(s)
  {
    if s == "" then 0 else 10 * ParseNat(s[..|s| - 1]) + (s[|s| - 1] as int - '0' as int)
  }

  function Zeros(k: nat): (r: string)
    ensures AllDigits(r)
  {
    if k == 0 then "" else Zeros(k - 1) + "0"
  }

  lemma ParseSnoc(s: string, c: char)
    requires AllDigits(s) && IsDigit(c)
    ensures AllDigits(s + [c]) && ParseNat(s + [c]) == 10 * ParseNat(s) + (c as int - '0' as int)
  {
    assert (s + [c])[..|s|] == s;
  }

  /** Leading zeros do not change the value. */
  lemma {:induction false} ParsePadded(k: nat, n: nat)
    ensures ParseNat(Zeros(k) + PrintNat(n)) == n
  {
    if n >= 10 {
      ParsePadded(k, n / 10);
      ParseSnoc(Zeros(k) + PrintNat(n / 10), DigitChar(n % 10));
      assert Zeros(k) + PrintNat(n) == (Zeros(k) + PrintNat(n / 10)) + [DigitChar(n % 10)];
    } else {
      ParseZeros(k);
      ParseSnoc(Zeros(k), DigitChar(n));
    }
  }

  lemma {:induction false} ParseZeros(k: nat)
    ensures ParseNat(Zeros(k)) == 0
  {
    if k > 0 {
      ParseZeros(k - 1);
      ParseSnoc(Zeros(k - 1), '0');
    }
  }

  /** Every digit string is its value's decimal text behind some zeros. */
  lemma {:induction false} PaddingOf(s: string) returns (k: nat)
    requires s != "" && AllDigits(s)
    ensures s == Zeros(k) + PrintNat(ParseNat(s))
  {
    var init, c := s[..|s| - 1], s[|s| - 1];
    assert s == init + [c];
    var d := c as int - '0' as int;
    assert DigitChar(d) == c;
    if init == "" {
      k := 0;
    } else {
      var j := PaddingOf(init);
      k := PaddingSnoc(init, j, ParseNat(init), d);
    }
  }

  /** One more digit behind a padded number. */
  lemma PaddingSnoc(init: string, j: nat, n: nat, d: nat) returns (k: nat)
    requires d < 10 && init == Zeros(j) + PrintNat(n)
    ensures init + [DigitChar(d)] == Zeros(k) + PrintNat(10 * n + d)
  {
    if n == 0 {
      k := j + 1;
      assert init == Zeros(k);
    } else {
      k := j;
      assert PrintNat(10 * n + d) == PrintNat(n) + [DigitChar(d)];
    }
  }
}
