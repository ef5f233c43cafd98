/** Natural numbers in decimal, shared by FRU property names and device numbers. */
module Decimals {
  import opened Bytes

  predicate IsDigit(c: char) {
    '0' <= c <= '9'
  }

  function DigitValue(c: char): (d: nat)
    requires IsDigit(c)
    ensures d < 10 && (d == 0 <==> c == '0')
  {
    c as int - '0' as int
  }

  function DigitChar(d: nat): (c: char)
    requires d < 10
    ensures IsDigit(c) && DigitValue(c) == d
  {
    (d + '0' as int) as char
  }

  /** `std::to_string` on a natural number. */
  function ToDecimal(n: nat): (s: string)
    ensures s != [] && (forall i :: 0 <= i < |s| ==> IsDigit(s[i]))
    ensures s[0] == '0' ==> n == 0 && |s| == 1
  {
    if n < 10 then [DigitChar(n)] else ToDecimal(n / 10) + [DigitChar(n % 10)]
  }

  function DecimalValue(s: string): nat
    requires forall i :: 0 <= i < |s| ==> IsDigit(s[i])
  {
    if s == [] then 0 else 10 * DecimalValue(s[..|s| - 1]) + DigitValue(s[|s| - 1])
  }

  /** `std::from_chars` into an unsigned number, with nothing left over. */
  function ParseDecimal(s: string): Option<nat> {
    if s != [] && forall i :: 0 <= i < |s| ==> IsDigit(s[i]) then Some(DecimalValue(s)) else None
  }

  lemma {:induction false} DecimalRoundTrip(n: nat)
    ensures ParseDecimal(ToDecimal(n)) == Some(n)
  {
    var s := ToDecimal(n);
    if n < 10 {
      assert s == [DigitChar(n)] && s[..|s| - 1] == [];
      assert DecimalValue(s) == 10 * DecimalValue([]) + DigitValue(s[0]);
    } else {
      DecimalRoundTrip(n / 10);
      assert s[..|s| - 1] == ToDecimal(n / 10);
    }
  }

  /** Printing restores exactly the numerals without a leading zero. */
  lemma {:induction false} DecimalCanonical(s: string)
    requires ParseDecimal(s).Some?
    ensures ToDecimal(DecimalValue(s)) == s <==> (|s| == 1 || s[0] != '0')
    ensures |s| > 1 && s[0] != '0' ==> DecimalValue(s) >= 10
  {
    if |s| == 1 {
      assert s[..0] == [];
    } else if s[0] != '0' {
      var t := s[..|s| - 1];
      DecimalCanonical(t);
      assert s == t + [s[|s| - 1]];
      if |t| == 1 {
        assert t[..0] == [] && DecimalValue(t) == DigitValue(t[0]);
      }
      var d := DigitValue(s[|s| - 1]);
      assert DecimalValue(s) == 10 * DecimalValue(t) + d && DecimalValue(t) >= 1;
      assert DecimalValue(s) / 10 == DecimalValue(t) && DecimalValue(s) % 10 == d;
      assert DigitChar(d) == s[|s| - 1];
    }
  }
}
