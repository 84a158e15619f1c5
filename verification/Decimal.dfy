/** Decimal text, as strconv.FormatInt and strconv.ParseInt write and read it in base 10. */
module Decimal {
  import opened Wrappers

  const MIN_INT64: int := -0x8000_0000_0000_0000
  const MAX_INT64: int := 0x7FFF_FFFF_FFFF_FFFF

  type int64 = v: int | MIN_INT64 <= v <= MAX_INT64

  lemma Assoc(a: string, b: string, c: string)
    ensures (a + b) + c == a + (b + c)
  {}

  predicate IsDigit(c: char) { '0' <= c <= '9' }

  predicate AllDigits(s: string)
  {
    forall i :: 0 <= i < |s| ==> IsDigit(s[i])
  }

  function DigitOf(d: nat): (c: char)
    requires d < 10
    ensures IsDigit(c)
  {
    ('0' as int + d) as char
  }

  function FormatNat(n: nat): string
  {
    if n < 10 then [DigitOf(n)] else FormatNat(n / 10) + [DigitOf(n % 10)]
  }

  function FormatInt(n: int): string
  {
    if n < 0 then "-" + FormatNat(-n) else FormatNat(n)
  }

  function NatValue(s: string): nat
    requires AllDigits(s)
  {
    if s == "" then 0 else NatValue(s[..|s| - 1]) * 10 + (s[|s| - 1] as int - '0' as int)
  }

  function ParseDigits(s: string, neg: bool): Option<int64>
  {
    if s == "" || !AllDigits(s) then None
    else
      var n: int := NatValue(s);
      var v := if neg then -n else n;
      if MIN_INT64 <= v <= MAX_INT64 then Some(v) else None
  }

  /** An optional sign, at least one digit, nothing else, and the value in range. */
  function ParseInt(s: string): Option<int64>
  {
    if s != "" && s[0] == '-' then ParseDigits(s[1..], true)
    else if s != "" && s[0] == '+' then ParseDigits(s[1..], false)
    else ParseDigits(s, false)
  }

  /** What is read is a sign or none, digits, and nothing else. */
  lemma ParsesExactly(s: string)
    ensures ParseInt(s).Some? && ParseInt(s).value > 0 <==>
      exists d: string :: AllDigits(d) && d != "" && 0 < NatValue(d) <= MAX_INT64 && (s == d || s == "+" + d)
    ensures AllDigits(s) && s != "" && NatValue(s) <= MAX_INT64 ==> ParseInt(s) == Some(NatValue(s))
  {
    if d: string :| AllDigits(d) && d != "" && 0 < NatValue(d) <= MAX_INT64 && (s == d || s == "+" + d) {
      if s == d { assert IsDigit(s[0]); } else { assert s[0] == '+' && s[1..] == d; }
    }
    if ParseInt(s).Some? && ParseInt(s).value > 0 {
      if s[0] == '+' { assert s == "+" + s[1..]; }
    }
    if AllDigits(s) && s != "" { assert IsDigit(s[0]); }
  }

  /** No leading zero. */
  lemma {:induction false} NoLeadingZero(n: nat)
    ensures FormatNat(n) != "" && (n > 0 ==> FormatNat(n)[0] != '0') && (n == 0 ==> FormatNat(n) == "0")
  {
    if n >= 10 { NoLeadingZero(n / 10); }
  }

  lemma {:induction false} FormatNatReadsBack(n: nat)
    ensures AllDigits(FormatNat(n)) && FormatNat(n) != ""
    ensures NatValue(FormatNat(n)) == n
  {
    if n >= 10 {
      FormatNatReadsBack(n / 10);
      var s := FormatNat(n);
      assert s[..|s| - 1] == FormatNat(n / 10);
    } else {
      var s := FormatNat(n);
      assert s[..|s| - 1] == "";
    }
  }

  lemma DigitsReadBack(digits: string, n: int)
    requires MIN_INT64 <= n <= MAX_INT64
    requires AllDigits(digits) && digits != "" && NatValue(digits) == if n < 0 then -n else n
    ensures ParseDigits(digits, n < 0) == Some(n)
  {}

  lemma SignReadsBack(digits: string, neg: bool)
    requires AllDigits(digits) && digits != ""
    ensures ParseInt(if neg then "-" + digits else digits) == ParseDigits(digits, neg)
  {
    if neg {
      var text := "-" + digits;
      assert text[0] == '-' && text[1..] == digits;
    } else {
      assert IsDigit(digits[0]);
    }
  }

  lemma FormatIntReadsBack(n: int)
    requires MIN_INT64 <= n <= MAX_INT64
    ensures ParseInt(FormatInt(n)) == Some(n)
  {
    var magnitude: nat := if n < 0 then -n else n;
    var digits := FormatNat(magnitude);
    FormatNatReadsBack(magnitude);
    DigitsReadBack(digits, n);
    SignReadsBack(digits, n < 0);
  }
}
