/** Decimal text for integers, as Go's `%d` verb writes it, and the reading back of
    such text. The server formats status codes and `Content-Length` values this way. */
module Decimal {
  import opened Wrappers
  import opened ByteStrings

  predicate IsDigit(b: byte) {
    '0' <= b <= '9'
  }

  predicate AllDigits(s: Bytes) {
    forall i :: 0 <= i < |s| ==> IsDigit(s[i])
  }

  function DigitChar(d: nat): (b: byte)
    requires d < 10
    ensures IsDigit(b)
  {
    (48 + d) as char
  }

  function DigitValue(b: byte): (d: nat)
    requires IsDigit(b)
    ensures d < 10 && DigitChar(d) == b
  {
    b as int - 48
  }

  /** `%d` of a non-negative integer: its shortest decimal numeral. */
  function FormatNat(n: nat): (r: Bytes)
    ensures |r| >= 1 && AllDigits(r)
    ensures r[0] == '0' ==> n == 0
    decreases n
  {
    if n < 10 then [DigitChar(n)] else FormatNat(n / 10) + [DigitChar(n % 10)]
  }

  /** The value of a numeral, most significant digit first. */
  function ParseDigits(s: Bytes): (n: nat)
    requires AllDigits(s)
  {
    if |s| == 0 then 0 else 10 * ParseDigits(s[..|s| - 1]) + DigitValue(s[|s| - 1])
  }

  /** Reading the numeral `%d` writes gives back the number. */
  lemma {:induction false} ParseFormatNat(n: nat)
    ensures ParseDigits(FormatNat(n)) == n
    decreases n
  {
    var r := FormatNat(n);
    if n >= 10 {
      ParseFormatNat(n / 10);
      assert r[..|r| - 1] == FormatNat(n / 10);
    }
  }

  /** `%d` of any integer: a minus sign before the numeral of a negative one. */
  function FormatInt(i: int): (r: Bytes)
    ensures |r| >= 1
    ensures i >= 0 ==> AllDigits(r)
    ensures i < 0 ==> r[0] == '-' && AllDigits(r[1..])
    ensures forall k :: 0 <= k < |r| ==> IsDigit(r[k]) || r[k] == '-'
    ensures i >= 0 && r[0] == '0' ==> i == 0
    ensures i < 0 ==> |r| >= 2 && r[1] != '0'
  {
    if i < 0 then "-" + FormatNat(-i) else FormatNat(i)
  }

  /** Reads an optionally negated numeral; anything else is not a number. */
  function ParseInt(s: Bytes): (r: Option<int>)
    ensures r.Some? ==> |s| >= 1
  {
    if |s| >= 2 && s[0] == '-' && AllDigits(s[1..]) then Some(-(ParseDigits(s[1..]) as int))
    else if |s| >= 1 && AllDigits(s) then Some(ParseDigits(s))
    else None
  }

  /** Reading what `%d` writes gives back the integer, negative or not. */
  lemma ParseFormatInt(i: int)
    ensures ParseInt(FormatInt(i)) == Some(i)
  {
    var r := FormatInt(i);
    if i < 0 {
      assert r[1..] == FormatNat(-i);
      ParseFormatNat(-i);
      assert !IsDigit(r[0]);
    } else {
      ParseFormatNat(i);
      assert IsDigit(r[0]);
    }
  }
}
