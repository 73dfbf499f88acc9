/** The riddle ids of server/server.go. A path id is read with
    `strconv.ParseInt(id, 10, 8)` (lines 99 and 122) and the id of the next
    riddle is written with `strconv.FormatInt(n, 10)` (line 153). */
module Ids {
  import opened Wrappers

  const MinInt8: int := -128
  const MaxInt8: int := 127

  predicate IsDigit(c: char) {
    '0' <= c <= '9'
  }

  predicate AllDigits(s: string) {
    forall i :: 0 <= i < |s| ==> IsDigit(s[i])
  }

  function DigitChar(d: int): (c: char)
    requires 0 <= d < 10
    ensures IsDigit(c)
  {
    ('0' as int + d) as char
  }

  /** The number a string of decimal digits denotes, most significant first. */
  function DigitsValue(s: string): (n: nat)
    requires AllDigits(s)
  {
    if s == [] then 0
    else DigitsValue(s[..|s| - 1]) * 10 + (s[|s| - 1] as int - '0' as int)
  }

  /** The syntax ParseInt accepts in base 10: an optional sign, then one or more digits. */
  predicate IsDecimal(s: string) {
    if s != [] && (s[0] == '+' || s[0] == '-') then s[1..] != [] && AllDigits(s[1..])
    else s != [] && AllDigits(s)
  }

  /** `strconv.ParseInt(s, 10, 8)`: `None` stands for both the syntax error
      and the range error, which the handlers treat alike. */
  function ParseInt8(s: string): (r: Option<int>)
    ensures r.Some? ==> IsDecimal(s) && MinInt8 <= r.value <= MaxInt8
    ensures !IsDecimal(s) ==> r == None
  {
    if s == [] then None
    else
      var neg := s[0] == '-';
      var digits := if s[0] == '+' || s[0] == '-' then s[1..] else s;
      if digits == [] || !AllDigits(digits) then None
      else
        var magnitude: int := DigitsValue(digits);
        var v := if neg then -magnitude else magnitude;
        if v < MinInt8 || v > MaxInt8 then None else Some(v)
  }

  /** Decimal digits of `n`, with no leading zero. */
  function FormatNat(n: nat): (s: string)
    ensures s != [] && AllDigits(s)
    ensures |s| > 1 ==> s[0] != '0'
  {
    if n < 10 then [DigitChar(n)] else FormatNat(n / 10) + [DigitChar(n % 10)]
  }

  /** `strconv.FormatInt(v, 10)`. */
  function FormatInt(v: int): (s: string)
    ensures IsDecimal(s)
    ensures s[0] != '+'
  {
    if v < 0 then "-" + FormatNat(-v) else FormatNat(v)
  }

  lemma {:induction false} DigitsValueOfFormatNat(n: nat)
    ensures DigitsValue(FormatNat(n)) == n
  {
    var s := FormatNat(n);
    if n >= 10 {
      assert s[..|s| - 1] == FormatNat(n / 10);
      DigitsValueOfFormatNat(n / 10);
    }
  }

  /** ParseInt8 on a sign-less string of digits, or on one led by a sign: a plus sign changes nothing. */
  lemma ParseDigits(s: string, neg: bool)
    requires s != [] && AllDigits(s)
    ensures !neg ==>
      ParseInt8(s) == (if DigitsValue(s) <= MaxInt8 then Some(DigitsValue(s)) else None)
    ensures neg ==>
      ParseInt8("-" + s) == (if DigitsValue(s) <= -MinInt8 then Some(0 - DigitsValue(s)) else None)
    ensures ParseInt8("+" + s) == ParseInt8(s)
  {
    assert IsDigit(s[0]);
    assert ("-" + s)[1..] == s;
    assert ("+" + s)[1..] == s;
  }

  /** Every id FormatInt writes in the int8 range is read back as the same number. */
  lemma {:induction false} ParseFormatRoundTrip(v: int)
    requires MinInt8 <= v <= MaxInt8
    ensures ParseInt8(FormatInt(v)) == Some(v)
  {
    if v < 0 {
      DigitsValueOfFormatNat(-v);
      ParseDigits(FormatNat(-v), true);
    } else {
      DigitsValueOfFormatNat(v);
      ParseDigits(FormatNat(v), false);
    }
  }

  /** An id FormatInt writes outside the int8 range is refused by ParseInt8. */
  lemma {:induction false} ParseRefusesWideIds(v: int)
    requires v < MinInt8 || v > MaxInt8
    ensures ParseInt8(FormatInt(v)) == None
  {
    if v < 0 {
      DigitsValueOfFormatNat(-v);
      ParseDigits(FormatNat(-v), true);
    } else {
      DigitsValueOfFormatNat(v);
      ParseDigits(FormatNat(v), false);
    }
  }

  /** The canonical form is not the only one accepted: a plus sign and leading zeros are read too. */
  lemma AcceptsSignAndLeadingZeros()
    ensures ParseInt8("+007") == Some(7)
    ensures ParseInt8("-0") == Some(0)
    ensures ParseInt8("") == None && ParseInt8("-") == None && ParseInt8("1a") == None
    ensures ParseInt8("128") == None && ParseInt8("-128") == Some(-128)
  {
    assert "+007"[1..] == "007";
    assert "007"[..2] == "00" && "00"[..1] == "0" && "0"[..0] == "";
    assert "-0"[1..] == "0";
    assert "128"[..2] == "12" && "12"[..1] == "1" && "1"[..0] == "";
    assert "-128"[1..] == "128";
  }
}
