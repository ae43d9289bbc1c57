/** Decimal numerals: how numbers are read and written. */
module Numerals {
  import opened ByteStrings
  import opened Scanning

  predicate IsDigit(c: char) {
    '0' <= c <= '9'
  }

  function DigitValue(c: char): nat {
    if IsDigit(c) then (c - '0') as nat else 0
  }

  /** `int(digits)`. */
  function Number(digits: string): nat {
    FromDigits(10, seq(|digits|, i requires 0 <= i < |digits| => DigitValue(digits[i])))
  }

  /** `str(n)`. */
  function Decimal(n: nat): string {
    (if n < 10 then "" else Decimal(n / 10)) + [(n % 10) as char + '0']
  }

  /** Digits without a zero in front that could be left out. */
  predicate Shortest(digits: string) {
    digits != [] && All(IsDigit, digits) && (|digits| > 1 ==> digits[0] != '0')
  }

  lemma NumberSnoc(digits: string, c: char)
    ensures Number(digits + [c]) == 10 * Number(digits) + DigitValue(c)
  {
    var all := digits + [c];
    var values := seq(|all|, i requires 0 <= i < |all| => DigitValue(all[i]));
    assert values[..|digits|] == seq(|digits|, i requires 0 <= i < |digits| => DigitValue(digits[i]));
    FromDigitsSnoc(10, values[..|digits|], DigitValue(c));
    assert values == values[..|digits|] + [DigitValue(c)];
  }

  lemma NoDigits()
    ensures Number([]) == 0
  {
  }

  /** Written numbers are as short as they can be, and read back. */
  lemma {:induction false} DecimalReads(n: nat)
    ensures Shortest(Decimal(n)) && Number(Decimal(n)) == n
    ensures n > 0 ==> Decimal(n)[0] != '0'
  {
    var c := (n % 10) as char + '0';
    var front := if n < 10 then "" else Decimal(n / 10);
    NumberSnoc(front, c);
    if n < 10 {
      NoDigits();
    } else {
      DecimalReads(n / 10);
    }
  }

  lemma {:induction false} Positive(digits: string)
    requires digits != [] && All(IsDigit, digits) && digits[0] != '0'
    ensures Number(digits) > 0
  {
    var n := |digits| - 1;
    assert digits == digits[..n] + [digits[n]];
    NumberSnoc(digits[..n], digits[n]);
    if n > 0 {
      Positive(digits[..n]);
    } else {
      NoDigits();
    }
  }

  /** Numerals as short as they can be are the written numbers. */
  lemma {:induction false} ShortestIsWritten(digits: string)
    requires Shortest(digits)
    ensures Decimal(Number(digits)) == digits
  {
    var n := |digits| - 1;
    var init, c := digits[..n], digits[n];
    assert digits == init + [c];
    NumberSnoc(init, c);
    if n == 0 {
      assert init == [];
      NoDigits();
      assert [] + [c] == [c];
    } else {
      Positive(init);
      ShortestIsWritten(init);
      hide Number;
      DecimalSnoc(Number(init), c);
    }
  }

  lemma DecimalSnoc(front: nat, c: char)
    requires front > 0 && IsDigit(c)
    ensures Decimal(10 * front + DigitValue(c)) == Decimal(front) + [c]
  {
    DivModUnique(10, front, DigitValue(c), 10 * front + DigitValue(c));
  }
}
