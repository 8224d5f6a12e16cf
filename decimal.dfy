/** Decimal numerals: the digits a token carries and the age field of the signup form. */
module Decimal {
  import opened Wrappers

  predicate IsDigit(c: char) { '0' <= c <= '9' }

  predicate AllDigits(s: string) { forall i :: 0 <= i < |s| ==> IsDigit(s[i]) }

  function DigitChar(d: nat): (c: char)
    requires d < 10
    ensures IsDigit(c) && c as int - '0' as int == d
  {
    ('0' as int + d) as char
  }

  /** The canonical numeral of `n`: no sign and no leading zero. */
  function Digits(n: nat): (s: string)
    ensures s != [] && AllDigits(s)
    ensures |s| > 1 ==> s[0] != '0'
  {
    if n < 10 then [DigitChar(n)] else Digits(n / 10) + [DigitChar(n % 10)]
  }

  /** The value of a string of digits; leading zeros are allowed and ignored. */
  function Value(s: string): nat
    requires AllDigits(s)
  {
    if s == [] then 0 else 10 * Value(s[..|s| - 1]) + (s[|s| - 1] as int - '0' as int)
  }

  lemma {:induction false} ValueOfDigits(n: nat)
    ensures Value(Digits(n)) == n
  {
    if n >= 10 {
      var s := Digits(n);
      assert s[..|s| - 1] == Digits(n / 10);
      ValueOfDigits(n / 10);
    }
  }

  /**
   * The integers express-validator's `isInt` accepts with its default options:
   * an optional `+` or `-`, then one or more digits, leading zeros allowed;
   * the result is the number the string denotes.
   */
  function ParseInt(s: string): (r: Option<int>)
    ensures r.Some? ==> s != [] && s[|s| - 1] in "0123456789"
  {
    if s != [] && (s[0] == '+' || s[0] == '-') then
      if |s| > 1 && AllDigits(s[1..]) then
        assert s[|s| - 1] == s[1..][|s| - 2];
        var v: int := Value(s[1..]);
        Some(if s[0] == '-' then -v else v)
      else None
    else if s != [] && AllDigits(s) then Some(Value(s))
    else None
  }

  /** Every numeral, signed or not, parses back to its number. */
  lemma ParseIntNumerals(n: nat)
    ensures ParseInt(Digits(n)) == Some(n)
    ensures ParseInt("+" + Digits(n)) == Some(n)
    ensures ParseInt("-" + Digits(n)) == Some(-(n as int))
  {
    ValueOfDigits(n);
    ParseIntSigned(Unsigned, Digits(n));
    ParseIntSigned(Plus, Digits(n));
    ParseIntSigned(Minus, Digits(n));
  }

  /** The optional sign in front of an integer numeral. */
  datatype Sign = Unsigned | Plus | Minus

  function SignText(sg: Sign): string {
    match sg
    case Unsigned => ""
    case Plus => "+"
    case Minus => "-"
  }

  function Signed(sg: Sign, n: nat): int {
    if sg == Minus then -(n as int) else n
  }

  function Zeros(k: nat): (z: string)
    ensures |z| == k && AllDigits(z)
  {
    seq(k, _ => '0')
  }

  /** Leading zeros do not change the value of a numeral. */
  lemma {:induction false} ValueAfterZeros(k: nat, d: string)
    requires AllDigits(d)
    ensures AllDigits(Zeros(k) + d) && Value(Zeros(k) + d) == Value(d)
  {
    var s := Zeros(k) + d;
    if d == [] {
      assert s == Zeros(k);
      if k > 0 {
        assert Zeros(k)[..k - 1] == Zeros(k - 1) + [];
        ValueAfterZeros(k - 1, []);
      }
    } else {
      assert s[..|s| - 1] == Zeros(k) + d[..|d| - 1];
      ValueAfterZeros(k, d[..|d| - 1]);
    }
  }

  lemma {:induction false} LeadingDigitPositive(c: string)
    requires c != [] && AllDigits(c) && c[0] != '0'
    ensures Value(c) >= 1
  {
    if |c| > 1 {
      LeadingDigitPositive(c[..|c| - 1]);
    }
  }

  /** A numeral without leading zeros is the canonical numeral of its value. */
  lemma {:induction false} DigitsOfValue(c: string)
    requires c != [] && AllDigits(c) && (|c| > 1 ==> c[0] != '0')
    ensures Digits(Value(c)) == c
  {
    if |c| > 1 {
      var p := c[..|c| - 1];
      var x := c[|c| - 1] as int - '0' as int;
      LeadingDigitPositive(p);
      DigitsOfValue(p);
      assert Value(c) == 10 * Value(p) + x && 0 <= x < 10;
      assert Value(c) / 10 == Value(p) && Value(c) % 10 == x;
      assert DigitChar(x) as int == c[|c| - 1] as int;
      assert c == p + [c[|c| - 1]];
    } else {
      assert c[..0] == [];
      assert Value(c) == c[0] as int - '0' as int;
    }
  }

  /** Every non-empty string of digits is some leading zeros followed by the canonical numeral of its value. */
  lemma {:induction false} ZerosThenDigits(d: string) returns (k: nat)
    requires d != [] && AllDigits(d)
    ensures d == Zeros(k) + Digits(Value(d))
  {
    if |d| == 1 || d[0] != '0' {
      DigitsOfValue(d);
      k := 0;
      assert d == Zeros(0) + Digits(Value(d));
    } else {
      var k' := ZerosThenDigits(d[1..]);
      assert d == Zeros(1) + d[1..];
      ValueAfterZeros(1, d[1..]);
      assert Zeros(1) + Zeros(k') == Zeros(k' + 1);
      k := k' + 1;
    }
  }

  /** A non-empty string of digits parses to its value, after any sign. */
  lemma ParseIntSigned(sg: Sign, d: string)
    requires d != [] && AllDigits(d)
    ensures ParseInt(SignText(sg) + d) == Some(Signed(sg, Value(d)))
  {
    var s := SignText(sg) + d;
    if sg == Unsigned {
      assert s == d && IsDigit(d[0]);
    } else {
      assert s[1..] == d;
    }
  }

  /** A sign, leading zeros and a numeral parse to the numeral's number with the sign applied. */
  lemma ParseIntOfParts(sg: Sign, k: nat, n: nat)
    ensures ParseInt(SignText(sg) + Zeros(k) + Digits(n)) == Some(Signed(sg, n))
  {
    var d := Zeros(k) + Digits(n);
    ValueAfterZeros(k, Digits(n));
    ValueOfDigits(n);
    ParseIntSigned(sg, d);
    assert SignText(sg) + Zeros(k) + Digits(n) == SignText(sg) + d;
  }

  /** Whatever `ParseInt` accepts is a sign, leading zeros and a numeral. */
  lemma ParseIntParts(s: string)
    requires ParseInt(s).Some?
    ensures exists sg: Sign, k: nat, n: nat :: s == SignText(sg) + Zeros(k) + Digits(n) && ParseInt(s).value == Signed(sg, n)
  {
    if s[0] == '+' || s[0] == '-' {
      var sg := if s[0] == '+' then Plus else Minus;
      var d := s[1..];
      ParseIntSigned(sg, d);
      var k := ZerosThenDigits(d);
      assert s == SignText(sg) + Zeros(k) + Digits(Value(d));
    } else {
      ParseIntSigned(Unsigned, s);
      var k := ZerosThenDigits(s);
      assert s == SignText(Unsigned) + Zeros(k) + Digits(Value(s));
    }
  }

  /**
   * `ParseInt` exactly: it yields `v` if and only if the string is an optional
   * `+` or `-`, any number of zeros and a canonical numeral of `n`, and `v` is
   * `n` with that sign.
   */
  lemma ParseIntExact(s: string, v: int)
    ensures ParseInt(s) == Some(v) <==>
      exists sg: Sign, k: nat, n: nat :: s == SignText(sg) + Zeros(k) + Digits(n) && v == Signed(sg, n)
  {
    if ParseInt(s) == Some(v) {
      ParseIntParts(s);
    }
    if exists sg: Sign, k: nat, n: nat :: s == SignText(sg) + Zeros(k) + Digits(n) && v == Signed(sg, n) {
      var sg: Sign, k: nat, n: nat :| s == SignText(sg) + Zeros(k) + Digits(n) && v == Signed(sg, n);
      ParseIntOfParts(sg, k, n);
    }
  }

  /** The age rule `isInt({ min: 1 })`: an integer numeral whose value is at least 1. */
  predicate IsPositiveInt(s: string) {
    ParseInt(s).Some? && ParseInt(s).value >= 1
  }

  /** The age rule holds of a plain numeral exactly when its number is positive, and never of a blank. */
  lemma PositiveIntNumerals(n: nat)
    ensures IsPositiveInt(Digits(n)) <==> n >= 1
    ensures !IsPositiveInt("") && !IsPositiveInt("-" + Digits(n))
  {
    ParseIntNumerals(n);
  }
}
