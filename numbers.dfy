/**
  The two number conversions the dispatcher uses: Rust's `u16::from_str`
  (`parts[1].parse::<u16>()`) and the `{:03}` formatting of a `u16`.
 */
module Numbers {
  import opened Optional

  /** Rust's `u16`. */
  type U16 = x: nat | x < 0x1_0000

  predicate IsDigit(c: char)
  {
    '0' <= c <= '9'
  }

  predicate AllDigits(s: string)
  {
    forall i :: 0 <= i < |s| ==> IsDigit(s[i])
  }

  function DigitValue(c: char): nat
    requires IsDigit(c)
  {
    c as int - '0' as int
  }

  function DigitChar(d: nat): (c: char)
    requires d < 10
    ensures IsDigit(c) && DigitValue(c) == d
  {
    ('0' as int + d) as char
  }

  /** The value of a string of decimal digits, most significant first. */
  function Value(s: string): nat
    requires AllDigits(s)
  {
    if |s| == 0 then 0
    else 10 * Value(s[..|s| - 1]) + DigitValue(s[|s| - 1])
  }

  /** `k` zero characters. */
  function Zeros(k: nat): (z: string)
    ensures |z| == k && AllDigits(z)
  {
    seq(k, _ => '0')
  }

  /**
    `s.parse::<u16>()`: an optional leading `+`, then one or more ASCII digits
    (leading zeros allowed) whose value fits in 16 bits; anything else is an
    error, here `None`.
   */
  function ParseU16(s: string): Option<U16>
  {
    var digits := if |s| > 0 && s[0] == '+' then s[1..] else s;
    if |digits| == 0 || !AllDigits(digits) then None
    else if Value(digits) < 0x1_0000 then Some(Value(digits))
    else None
  }

  /** `format!("{}", n)`: decimal digits without leading zeros. */
  function Decimal(n: nat): (s: string)
    ensures |s| >= 1 && AllDigits(s)
    ensures s[0] == '0' <==> n == 0
    ensures |s| == 1 <==> n < 10
    ensures n < 10 ==> s == [DigitChar(n)]
  {
    if n < 10 then [DigitChar(n)]
    else Decimal(n / 10) + [DigitChar(n % 10)]
  }

  /** `format!("{:03}", n)`: at least three digits, padded on the left with zeros. */
  function Pad3(n: nat): string
  {
    var d := Decimal(n);
    if |d| >= 3 then d else Zeros(3 - |d|) + d
  }

  /** The digits `Decimal` writes are read back as the same number. */
  lemma {:induction false} ValueDecimal(n: nat)
    ensures Value(Decimal(n)) == n
  {
    if n >= 10 {
      var d := Decimal(n);
      ValueDecimal(n / 10);
      assert d[..|d| - 1] == Decimal(n / 10);
      assert DigitValue(d[|d| - 1]) == n % 10;
    }
  }

  lemma {:induction false} ValueZeros(k: nat)
    ensures Value(Zeros(k)) == 0
  {
    if k > 0 {
      ValueZeros(k - 1);
      assert Zeros(k)[..k - 1] == Zeros(k - 1);
    }
  }

  /** Leading zeros do not change the value of a digit string. */
  lemma {:induction false} ValueLeadingZeros(k: nat, s: string)
    requires AllDigits(s)
    ensures AllDigits(Zeros(k) + s) && Value(Zeros(k) + s) == Value(s)
  {
    var z := Zeros(k) + s;
    assert AllDigits(z) by {
      forall i | 0 <= i < |z| ensures IsDigit(z[i]) {
        if i < k { assert z[i] == Zeros(k)[i]; } else { assert z[i] == s[i - k]; }
      }
    }
    if |s| == 0 {
      assert z == Zeros(k);
      ValueZeros(k);
    } else {
      ValueLeadingZeros(k, s[..|s| - 1]);
      assert z[..|z| - 1] == Zeros(k) + s[..|s| - 1];
      assert z[|z| - 1] == s[|s| - 1];
    }
  }

  /**
    Every spelling of `n` that `u16::from_str` accepts: an optional `+`, any
    number of leading zeros, then the decimal digits of `n`; so `1`, `01`,
    `001`, `0001` and `+1` are all the number 1.
   */
  lemma ParseSpellings(k: nat, n: U16)
    ensures ParseU16(Zeros(k) + Decimal(n)) == Some(n)
    ensures ParseU16("+" + (Zeros(k) + Decimal(n))) == Some(n)
  {
    var digits := Zeros(k) + Decimal(n);
    assert |digits| > 0 && AllDigits(digits) && Value(digits) == n by {
      ValueLeadingZeros(k, Decimal(n));
      ValueDecimal(n);
    }
    ParseDigits(digits);
  }

  /** A non-empty digit string, with or without a leading `+`, parses to its value when that fits. */
  lemma ParseDigits(digits: string)
    requires |digits| > 0 && AllDigits(digits) && Value(digits) < 0x1_0000
    ensures ParseU16(digits) == Some(Value(digits))
    ensures ParseU16("+" + digits) == Some(Value(digits))
  {
    assert digits[0] != '+' by { assert IsDigit(digits[0]); }
    assert ("+" + digits)[1..] == digits;
  }

  /** A number that does not fit in 16 bits overflows: `u16::from_str` rejects it. */
  lemma ParseOverflow(k: nat, n: nat)
    requires n >= 0x1_0000
    ensures ParseU16(Zeros(k) + Decimal(n)) == None
    ensures ParseU16("+" + (Zeros(k) + Decimal(n))) == None
  {
    var digits := Zeros(k) + Decimal(n);
    ValueLeadingZeros(k, Decimal(n));
    ValueDecimal(n);
    assert IsDigit(digits[0]);
    assert ("+" + digits)[1..] == digits;
  }

  /** `{:03}` gives "001" exactly for the number 1: the welcome numeric. */
  lemma Pad3IsWelcome(n: nat)
    ensures Pad3(n) == "001" <==> n == 1
  {
    var d := Decimal(n);
    if n == 1 {
      assert d == "1";
      assert Zeros(2) == "00";
    } else if |d| == 2 {
      assert Pad3(n)[1..] == d;
    } else if |d| == 1 {
      assert Pad3(n)[2..] == d;
    }
  }
}
