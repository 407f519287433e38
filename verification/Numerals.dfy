// Decimal numerals of unsigned machine integers.
module Numerals {
  import opened Wrappers

  const U32_MAX: nat := 0xFFFF_FFFF

  function Digit(d: nat): char
    requires d < 10
  {
    ('0' as int + d) as char
  }

  // `i64::to_string` of a non-negative number
  function Decimal(n: nat): string {
    if n < 10 then [Digit(n)] else Decimal(n / 10) + [Digit(n % 10)]
  }

  function DigitsValue(s: string): Option<nat> {
    if s == [] then Some(0)
    else
      var hi, c := DigitsValue(s[..|s| - 1]), s[|s| - 1];
      if hi.Some? && '0' <= c <= '9' then Some(10 * hi.value + (c as int - '0' as int)) else None
  }

  // `str::parse` to an unsigned integer, which allows a leading plus sign.
  function ParseUnsigned(s: string, max: nat): Option<nat> {
    var digits := if s != [] && s[0] == '+' then s[1..] else s;
    var n := DigitsValue(digits);
    if digits == [] || n.None? || n.value > max then None else n
  }

  function ParseU32(s: string): Option<nat> { ParseUnsigned(s, U32_MAX) }

  predicate AllDigits(s: string) { forall c | c in s :: '0' <= c <= '9' }

  lemma {:induction false} DecimalValue(n: nat)
    ensures Decimal(n) != [] && AllDigits(Decimal(n)) && DigitsValue(Decimal(n)) == Some(n)
  {
    if n < 10 {
      var s := Decimal(n);
      assert s[..0] == [];
    } else {
      DecimalValue(n / 10);
      var s := Decimal(n);
      assert s[..|s| - 1] == Decimal(n / 10);
    }
  }

  // A printed count is read back, and its text tells it from every other.
  lemma DecimalReads(n: nat)
    requires n <= U32_MAX
    ensures ParseU32(Decimal(n)) == Some(n)
  {
    DecimalValue(n);
    assert Decimal(n)[0] in Decimal(n);
  }

  lemma DecimalInjective(m: nat, n: nat)
    requires Decimal(m) == Decimal(n)
    ensures m == n
  {
    DecimalValue(m);
    DecimalValue(n);
  }

  // ----- Which texts are numerals -----

  predicate Zeros(s: string) { forall c | c in s :: c == '0' }

  // A number is printed with no zero in front, behind any of which it is still read.
  lemma {:induction false} ZerosRead(zeros: string, n: nat)
    requires Zeros(zeros)
    ensures DigitsValue(zeros + Decimal(n)) == Some(n)
    decreases n
  {
    var s := zeros + Decimal(n);
    if n < 10 {
      assert s[..|s| - 1] == zeros;
      ZerosValue(zeros);
    } else {
      ZerosRead(zeros, n / 10);
      assert s[..|s| - 1] == zeros + Decimal(n / 10);
    }
  }

  lemma {:induction false} ZerosValue(zeros: string)
    requires Zeros(zeros)
    ensures DigitsValue(zeros) == Some(0)
    decreases |zeros|
  {
    if zeros != [] {
      var init := zeros[..|zeros| - 1];
      assert zeros[|zeros| - 1] in zeros && forall c | c in init :: c in zeros;
      ZerosValue(init);
    }
  }

  lemma {:induction false} DigitsAreNumeral(s: string) returns (zeros: string)
    requires s != [] && DigitsValue(s).Some?
    ensures Zeros(zeros) && s == zeros + Decimal(DigitsValue(s).value)
    decreases |s|
  {
    var init, c := s[..|s| - 1], s[|s| - 1];
    var d: nat := c as int - '0' as int;
    assert s == init + [c] && Digit(d) == c;
    if init == [] {
      zeros := "";
      assert DigitsValue([]) == Some(0);
    } else {
      var before := DigitsAreNumeral(init);
      var v := DigitsValue(init).value;
      if v == 0 {
        zeros := before + "0";
      } else {
        zeros := before;
        assert Decimal(10 * v + d) == Decimal(v) + [c];
      }
    }
  }

  // `s` is the number printed, behind any zeros and at most one plus sign.
  ghost predicate IsNumeral(s: string, n: nat) {
    exists zeros :: Zeros(zeros) && (s == zeros + Decimal(n) || s == "+" + (zeros + Decimal(n)))
  }

  // A text is read as a number exactly when it is a numeral of it and the number fits.
  lemma ParsesExactly(s: string, max: nat, n: nat)
    ensures ParseUnsigned(s, max) == Some(n) <==> n <= max && IsNumeral(s, n)
  {
    hide Decimal, DigitsValue;
    var signed := s != [] && s[0] == '+';
    var digits := if signed then s[1..] else s;
    if ParseUnsigned(s, max) == Some(n) {
      var zeros := DigitsAreNumeral(digits);
      assert signed ==> s == "+" + digits;
    }
    if IsNumeral(s, n) {
      var zeros :| Zeros(zeros) && (s == zeros + Decimal(n) || s == "+" + (zeros + Decimal(n)));
      ZerosRead(zeros, n);
      Unsigned(zeros, n);
      assert ("+" + (zeros + Decimal(n)))[1..] == zeros + Decimal(n);
    }
  }

  lemma Unsigned(zeros: string, n: nat)
    requires Zeros(zeros)
    ensures zeros + Decimal(n) != "" && (zeros + Decimal(n))[0] != '+'
  {
    hide Decimal;
    DecimalValue(n);
    assert zeros != "" ==> zeros[0] in zeros;
    assert Decimal(n)[0] in Decimal(n);
  }
}
