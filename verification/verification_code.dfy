/** `generateNumericCode`: a random integer below 10^len written in decimal
    and left-padded with zeros to `len` characters. The random draw is the
    parameter `n`. */
module VerificationCode {
  import opened Core

  /** Length of the codes mailed to users. */
  const DefaultCodeLength: nat := 6

  /** Node's `crypto.randomInt(min, max)` throws a range error unless
      `max - min` is below 2^48. */
  const RandomRangeLimit: nat := 0x1_0000_0000_0000

  /** The range error `crypto.randomInt` raises for a range that is too wide. */
  datatype CodeError = RangeTooWide

  function Pow10(n: nat): (p: nat)
    ensures p >= 1
  {
    if n == 0 then 1 else 10 * Pow10(n - 1)
  }

  predicate IsDigit(ch: char) {
    '0' <= ch <= '9'
  }

  predicate AllDigits(s: string) {
    forall i :: 0 <= i < |s| ==> IsDigit(s[i])
  }

  function DigitChar(d: nat): (ch: char)
    requires d < 10
    ensures IsDigit(ch)
  {
    ('0' as int + d) as char
  }

  function DigitValue(ch: char): (d: nat)
    requires IsDigit(ch)
    ensures d < 10
  {
    ch as int - '0' as int
  }

  /** `n.toString()`: the shortest decimal numeral of `n`. */
  function ToDecimal(n: nat): (s: string)
    ensures |s| >= 1 && AllDigits(s)
    ensures |s| > 1 ==> s[0] != '0'
  {
    if n < 10 then [DigitChar(n)] else ToDecimal(n / 10) + [DigitChar(n % 10)]
  }

  /** `s.padStart(len, fill)`: `s` itself when it is long enough, otherwise
      `s` preceded by as many `fill` characters as it lacks. */
  function PadStart(s: string, len: nat, fill: char): (r: string)
    ensures |r| == if |s| >= len then |s| else len
    ensures r[|r| - |s|..] == s
    ensures forall i :: 0 <= i < |r| - |s| ==> r[i] == fill
  {
    if |s| >= len then s else seq(len - |s|, _ => fill) + s
  }

  /** Reading a string of decimal digits as a number. */
  function ParseDecimal(s: string): nat
    requires AllDigits(s)
  {
    if |s| == 0 then 0 else 10 * ParseDecimal(s[..|s| - 1]) + DigitValue(s[|s| - 1])
  }

  lemma {:induction false} ParseToDecimal(n: nat)
    ensures ParseDecimal(ToDecimal(n)) == n
  {
    if n >= 10 {
      var s := ToDecimal(n / 10);
      ParseToDecimal(n / 10);
      assert (s + [DigitChar(n % 10)])[..|s|] == s;
    }
  }

  /** A number below 10^len has at most len digits (and always one). */
  lemma {:induction false} DecimalLength(n: nat, len: nat)
    requires n < Pow10(len)
    ensures |ToDecimal(n)| <= if len == 0 then 1 else len
  {
    if n >= 10 {
      assert Pow10(1) == 10;
      if len >= 2 {
        assert n / 10 < Pow10(len - 1);
        DecimalLength(n / 10, len - 1);
      }
    }
  }

  /** Leading zeros do not change the value of a numeral. */
  lemma {:induction false} ParseIgnoresLeadingZeros(k: nat, s: string)
    requires AllDigits(s)
    ensures AllDigits(seq(k, _ => '0') + s)
    ensures ParseDecimal(seq(k, _ => '0') + s) == ParseDecimal(s)
  {
    var z := seq(k, _ => '0');
    if |s| == 0 {
      assert z + s == z;
      ZerosParseToZero(k);
    } else {
      var init := s[..|s| - 1];
      assert (z + s)[..|z + s| - 1] == z + init;
      ParseIgnoresLeadingZeros(k, init);
    }
  }

  lemma {:induction false} ZerosParseToZero(k: nat)
    ensures AllDigits(seq(k, _ => '0'))
    ensures ParseDecimal(seq(k, _ => '0')) == 0
  {
    if k > 0 {
      assert seq(k, _ => '0')[..k - 1] == seq(k - 1, _ => '0');
      ZerosParseToZero(k - 1);
    }
  }

  /** Zero-padding the numeral of `n < 10^len` to `len` characters gives a
      string of digits of exactly that length (at least one) that reads
      back as `n`. */
  lemma {:induction false} PaddedNumeral(n: nat, len: nat)
    requires n < Pow10(len)
    ensures var code := PadStart(ToDecimal(n), len, '0');
            && |code| == (if len == 0 then 1 else len)
            && AllDigits(code)
            && ParseDecimal(code) == n
  {
    var s := ToDecimal(n);
    DecimalLength(n, len);
    ParseToDecimal(n);
    if |s| < len {
      ParseIgnoresLeadingZeros(len - |s|, s);
    }
  }

  /** The code for the drawn value `n` (0 <= n < 10^len): exactly `len`
      decimal digits (one digit, "0", when len is 0) whose value is `n`, so
      distinct draws give distinct codes; a range error when 10^len is too
      wide for the random source. */
  function GenerateNumericCode(n: nat, len: nat): (r: Result<string, CodeError>)
    requires n < Pow10(len)
    ensures r.Err? <==> Pow10(len) >= RandomRangeLimit
    ensures r.Ok? ==>
              && |r.value| == (if len == 0 then 1 else len)
              && AllDigits(r.value)
              && ParseDecimal(r.value) == n
  {
    if Pow10(len) >= RandomRangeLimit then Err(RangeTooWide)
    else
      PaddedNumeral(n, len);
      Ok(PadStart(ToDecimal(n), len, '0'))
  }

  lemma {:induction false} Pow10Monotone(a: nat, b: nat)
    requires a <= b
    ensures Pow10(a) <= Pow10(b)
  {
    if a < b {
      Pow10Monotone(a, b - 1);
    }
  }

  /** Codes of up to 14 digits can be drawn; from 15 digits on the random
      source refuses the range. */
  lemma LongestCode(len: nat)
    ensures Pow10(len) < RandomRangeLimit <==> len <= 14
  {
    assert Pow10(14) == 100_000_000_000_000;
    assert Pow10(15) == 1_000_000_000_000_000;
    if len <= 14 {
      Pow10Monotone(len, 14);
    } else {
      Pow10Monotone(15, len);
    }
  }

  /** With the default length the code always has six digits. */
  lemma DefaultCodeHasSixDigits(n: nat)
    requires n < 1_000_000
    ensures Pow10(DefaultCodeLength) == 1_000_000
    ensures GenerateNumericCode(n, DefaultCodeLength).Ok?
    ensures |GenerateNumericCode(n, DefaultCodeLength).value| == 6
  {
    assert Pow10(6) == 1_000_000;
  }
}
