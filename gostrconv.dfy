/**
 * `strconv.Atoi` and `strconv.Itoa` as pscan.go uses them: a decimal integer
 * with an optional sign. Values are unbounded (int64 range errors are not
 * modelled).
 */
module GoStrconv {
  import opened Wrappers

  predicate IsDigit(c: char) {
    '0' <= c <= '9'
  }

  predicate AllDigits(s: string) {
    forall i | 0 <= i < |s| :: IsDigit(s[i])
  }

  /** The value of a run of decimal digits, most significant first. */
  function DigitsValue(s: string): nat
    requires AllDigits(s)
  {
    if s == [] then 0
    else DigitsValue(s[..|s| - 1]) * 10 + (s[|s| - 1] as int - '0' as int)
  }

  /** A token `strconv.Atoi` accepts: an optional `+` or `-`, then at least one digit. */
  predicate IsIntegerToken(s: string) {
    var digits := if |s| > 0 && (s[0] == '+' || s[0] == '-') then s[1..] else s;
    |digits| > 0 && AllDigits(digits)
  }

  /**
   * `strconv.Atoi(s)`: the signed value of an integer token, or None (Go's
   * error) for anything else, the empty string and a lone sign included.
   */
  function Atoi(s: string): (r: Option<int>)
    ensures r.Some? <==> IsIntegerToken(s)
    ensures r.Some? && s[0] != '-' ==> r.value >= 0
  {
    var negative := |s| > 0 && s[0] == '-';
    var digits := if |s| > 0 && (s[0] == '+' || s[0] == '-') then s[1..] else s;
    if |digits| == 0 || !AllDigits(digits) then None
    else
      var magnitude: int := DigitsValue(digits);
      Some(if negative then -magnitude else magnitude)
  }

  /** The digit character for `d`. */
  function DigitChar(d: nat): (c: char)
    requires d < 10
    ensures IsDigit(c) && c as int - '0' as int == d
  {
    (d + '0' as int) as char
  }

  /** Decimal digits of `n` without leading zeros. */
  function Digits(n: nat): (s: string)
    ensures |s| > 0 && AllDigits(s)
    ensures s[0] == '0' ==> n == 0
  {
    if n < 10 then [DigitChar(n)] else Digits(n / 10) + [DigitChar(n % 10)]
  }

  /** `strconv.Itoa(n)`, which is also how `%d` prints `n`. */
  function Itoa(n: int): (s: string)
    ensures |s| > 0
    ensures '-' in s <==> n < 0
  {
    if n < 0 then "-" + Digits(-n) else Digits(n)
  }

  /** Reading back the digits of `n` gives `n`. */
  lemma {:induction false} DigitsValueOfDigits(n: nat)
    ensures DigitsValue(Digits(n)) == n
  {
    if n >= 10 {
      DigitsValueOfDigits(n / 10);
      var s := Digits(n);
      assert s[..|s| - 1] == Digits(n / 10);
    }
  }

  /** Atoi undoes Itoa for every integer. */
  lemma {:induction false} AtoiItoa(n: int)
    ensures Atoi(Itoa(n)) == Some(n)
  {
    var s := Itoa(n);
    if n < 0 {
      DigitsValueOfDigits(-n);
      assert s[0] == '-' && s[1..] == Digits(-n);
    } else {
      DigitsValueOfDigits(n);
      assert s == Digits(n) && IsDigit(s[0]);
    }
  }

  /** Atoi also takes an explicit plus sign. */
  lemma {:induction false} AtoiPlus(n: nat)
    ensures Atoi("+" + Itoa(n)) == Some(n)
  {
    DigitsValueOfDigits(n);
    assert ("+" + Itoa(n))[1..] == Itoa(n);
  }

  /** Leading zeros do not change the value Atoi reads. */
  lemma {:induction false} AtoiLeadingZero(s: string)
    requires |s| > 0 && AllDigits(s)
    ensures Atoi("0" + s) == Atoi(s)
  {
    LeadingZeroValue(s);
  }

  lemma {:induction false} LeadingZeroValue(s: string)
    requires AllDigits(s)
    ensures AllDigits("0" + s) && DigitsValue("0" + s) == DigitsValue(s)
  {
    if s != [] {
      LeadingZeroValue(s[..|s| - 1]);
      assert ("0" + s)[..|s|] == "0" + s[..|s| - 1];
    }
  }
}
