/**
 * The command line's `day` argument: it must be a number (ASCII digits
 * here) within 1..25, and is then left-padded with '0' to two characters so
 * that it names the solver package `day_NN`. The two rejections raise
 * different argument errors in the source; here they are two outcomes.
 */
module Cli {
  import opened Parsing

  datatype DayArg = Accepted(day: string) | NotANumber | OutOfRange

  /** `str.isnumeric` on ASCII text: at least one character, all digits. */
  predicate IsNumeric(x: string)
  {
    |x| >= 1 && AllDigits(x)
  }

  /** k zero characters. */
  function Zeros(k: nat): (z: string)
    ensures |z| == k && AllDigits(z)
  {
    if k == 0 then [] else Zeros(k - 1) + ['0']
  }

  /** The format `f"{x:0>2}"`: '0' added on the left up to two characters. */
  function PadDay(x: string): (p: string)
    ensures |p| == if |x| >= 2 then |x| else 2
  {
    if |x| >= 2 then x else Zeros(2 - |x|) + x
  }

  /** The validator `day` of the argument parser. */
  function ValidateDay(x: string): (r: DayArg)
    ensures r == NotANumber <==> !IsNumeric(x)
    ensures r.Accepted? <==> IsNumeric(x) && 1 <= DigitsValue(x) <= 25
  {
    if !IsNumeric(x) then NotANumber
    else if !(1 <= DigitsValue(x) <= 25) then OutOfRange
    else Accepted(PadDay(x))
  }

  /** Leading zeros do not change a number's value. */
  lemma {:induction false} ZerosValue(k: nat, s: string)
    requires AllDigits(s)
    ensures AllDigits(Zeros(k) + s) && DigitsValue(Zeros(k) + s) == DigitsValue(s)
    decreases |s|
  {
    var t := Zeros(k) + s;
    assert AllDigits(t) by {
      forall i | 0 <= i < |t|
        ensures IsDigit(t[i])
      {
        if i < k {
          assert t[i] == Zeros(k)[i];
        } else {
          assert t[i] == s[i - k];
        }
      }
    }
    if s == [] {
      assert t == Zeros(k);
      ZerosZero(k);
    } else {
      var init := s[..|s| - 1];
      assert AllDigits(init) by {
        assert forall i :: 0 <= i < |init| ==> init[i] == s[i];
      }
      ZerosValue(k, init);
      assert t[..|t| - 1] == Zeros(k) + init;
      assert t[|t| - 1] == s[|s| - 1];
    }
  }

  lemma {:induction false} ZerosZero(k: nat)
    ensures DigitsValue(Zeros(k)) == 0
  {
    if k > 0 {
      ZerosZero(k - 1);
      assert Zeros(k)[..k - 1] == Zeros(k - 1);
    }
  }

  /** Padding keeps a digit string's digits and its value, and adds one '0' in front of a single digit. */
  lemma PadValue(x: string)
    requires |x| >= 1 && AllDigits(x)
    ensures |PadDay(x)| >= 2 && AllDigits(PadDay(x)) && DigitsValue(PadDay(x)) == DigitsValue(x)
    ensures |x| >= 2 ==> PadDay(x) == x
    ensures |x| == 1 ==> PadDay(x) == ['0', x[0]]
  {
    if |x| < 2 {
      ZerosValue(1, x);
      assert Zeros(1) == ['0'];
    }
  }

  /**
   * An accepted day is two or more digits with the argument's value; an
   * argument of two or more characters comes back unchanged, and a single
   * digit gets one '0' in front.
   */
  lemma AcceptedDay(x: string)
    requires ValidateDay(x).Accepted?
    ensures var d := ValidateDay(x).day;
      |d| >= 2 && AllDigits(d) && DigitsValue(d) == DigitsValue(x) && 1 <= DigitsValue(d) <= 25
    ensures |x| >= 2 ==> ValidateDay(x).day == x
    ensures |x| == 1 ==> ValidateDay(x).day == ['0', x[0]]
  {
    assert IsNumeric(x) && 1 <= DigitsValue(x) <= 25;
    assert ValidateDay(x).day == PadDay(x);
    PadValue(x);
  }

  /** Validating an accepted day again accepts it unchanged. */
  lemma ValidateIdempotent(x: string)
    requires ValidateDay(x).Accepted?
    ensures ValidateDay(ValidateDay(x).day) == ValidateDay(x)
  {
    AcceptedDay(x);
  }

  /** Every day 1..25 written in decimal is accepted, as the two-digit name of its package. */
  lemma DecimalDay(n: nat)
    requires 1 <= n <= 25
    ensures ValidateDay(Decimal(n)) == Accepted(if n < 10 then ['0', DigitChar(n)] else Decimal(n))
  {
    DecimalValue(n);
    AcceptedDay(Decimal(n));
    if n >= 10 {
      assert |Decimal(n)| == 2 by { assert |Decimal(n / 10)| == 1; }
    }
  }
}
