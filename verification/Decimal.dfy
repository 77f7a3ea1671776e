/** Decimal text of unsigned integers: what `{}` and `{:02}` print and what `str::parse` reads back. */
module Decimal {
  import opened Wrappers

  const U16_MAX: nat := 65_535
  const U32_MAX: nat := 4_294_967_295

  predicate IsDigit(c: char) {
    '0' <= c <= '9'
  }

  predicate AllDigits(s: string) {
    forall i | 0 <= i < |s| :: IsDigit(s[i])
  }

  function DigitChar(d: nat): char
    requires d < 10
  {
    ('0' as int + d) as char
  }

  function DigitValue(c: char): nat
    requires IsDigit(c)
  {
    c as int - '0' as int
  }

  /** The number a string of digits denotes; the empty string denotes 0. */
  function Value(s: string): nat
    requires AllDigits(s)
  {
    if s == [] then 0 else 10 * Value(s[..|s| - 1]) + DigitValue(s[|s| - 1])
  }

  /** Decimal text without padding. */
  function Digits(n: nat): string {
    if n < 10 then [DigitChar(n)] else Digits(n / 10) + [DigitChar(n % 10)]
  }

  /** Decimal text padded with zeros to two characters. */
  function TwoDigits(n: nat): string {
    if n < 10 then ['0', DigitChar(n)] else Digits(n)
  }

  /**
   * `str::parse` for an unsigned type with largest value `max`: one leading `+` is allowed
   * before digits, nothing else is, and a value above `max` is an error.
   */
  function ParseUint(s: string, max: nat): Option<nat> {
    var body := if |s| > 1 && s[0] == '+' then s[1..] else s;
    if body == [] || !AllDigits(body) || Value(body) > max then None else Some(Value(body))
  }

  lemma {:induction false} DigitsDenote(n: nat)
    ensures Digits(n) != [] && AllDigits(Digits(n)) && Value(Digits(n)) == n
    decreases n
  {
    if n >= 10 {
      DigitsDenote(n / 10);
      assert Digits(n)[..|Digits(n)| - 1] == Digits(n / 10);
    } else {
      assert Digits(n)[..0] == [];
    }
  }

  lemma TwoDigitsDenote(n: nat)
    requires n < 100
    ensures |TwoDigits(n)| == 2 && AllDigits(TwoDigits(n)) && Value(TwoDigits(n)) == n
  {
    if n < 10 {
      assert TwoDigits(n)[..1] == ['0'] && ['0'][..0] == [];
      assert Value(['0']) == 0;
    } else {
      DigitsDenote(n);
      assert |Digits(n / 10)| == 1;
    }
  }

  /** Reading printed text gives the number back exactly when it fits the type. */
  lemma ParsePrinted(n: nat, max: nat)
    ensures ParseUint(Digits(n), max) == if n <= max then Some(n) else None
  {
    DigitsDenote(n);
    assert IsDigit(Digits(n)[0]);
  }

  predicate AllZeros(s: string) {
    forall i | 0 <= i < |s| :: s[i] == '0'
  }

  /** Digits are zeros followed by the text of their value. */
  lemma {:induction false} DigitsPadded(s: string) returns (zeros: string)
    requires s != [] && AllDigits(s)
    ensures AllZeros(zeros) && s == zeros + Digits(Value(s))
  {
    var n := |s| - 1;
    var d := DigitValue(s[n]);
    if n == 0 {
      assert s[..0] == [];
      zeros := [];
    } else {
      var before := s[..n];
      zeros := DigitsPadded(before);
      assert s == zeros + Digits(Value(before)) + [s[n]];
      if Value(before) == 0 {
        zeros := zeros + ['0'];
      } else {
        assert Value(s) / 10 == Value(before) && Value(s) % 10 == d;
      }
    }
  }

  lemma PaddedDenotes(zeros: string, n: nat)
    requires AllZeros(zeros)
    ensures AllDigits(zeros + Digits(n)) && Value(zeros + Digits(n)) == n
  {
    DigitsDenote(n);
    PaddedValue(zeros, Digits(n));
  }

  lemma {:induction false} PaddedValue(zeros: string, s: string)
    requires AllZeros(zeros) && AllDigits(s)
    ensures AllDigits(zeros + s) && Value(zeros + s) == Value(s)
    decreases |s|, |zeros|
  {
    if s != [] {
      assert (zeros + s)[..|zeros + s| - 1] == zeros + s[..|s| - 1];
      PaddedValue(zeros, s[..|s| - 1]);
    } else if zeros != [] {
      assert (zeros + s)[..|zeros + s| - 1] == zeros[..|zeros| - 1] + s;
      PaddedValue(zeros[..|zeros| - 1], s);
    }
  }

  /** `s` is the decimal text of `n`, with zeros and one plus sign allowed before it, and `n` is at most `max`. */
  ghost predicate Denotes(s: string, n: nat, max: nat) {
    n <= max && exists sign: string, zeros: string ::
      sign in {"", "+"} && AllZeros(zeros) && s == sign + (zeros + Digits(n))
  }

  /** A number is read from exactly the texts that denote it. */
  lemma ParseUintMeans(s: string, max: nat, n: nat)
    ensures ParseUint(s, max) == Some(n) <==> Denotes(s, n, max)
  {
    if ParseUint(s, max) == Some(n) {
      var sign := if |s| > 1 && s[0] == '+' then "+" else "";
      var zeros := DigitsPadded(s[|sign|..]);
      assert s == sign + s[|sign|..];
    }
    if n <= max {
      forall sign: string, zeros: string | sign in {"", "+"} && AllZeros(zeros) && s == sign + (zeros + Digits(n))
        ensures ParseUint(s, max) == Some(n)
      {
        var body := zeros + Digits(n);
        PaddedDenotes(zeros, n);
        DigitsDenote(n);
        assert IsDigit(body[0]);
        assert s[|sign|..] == body;
      }
    }
  }
}
