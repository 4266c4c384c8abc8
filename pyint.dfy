/** Python's `int(s)` on a byte string and `'{0}'.format(n)` for an integer:
    decimal text with an optional sign, surrounded by optional whitespace. */
module PyInt {
  import opened Wrappers
  import opened PyBytes

  /** The bytes Python 2 strips around a number: space, tab, LF, VT, FF, CR. */
  predicate IsSpace(c: Byte)
  {
    c == ' ' || '\t' <= c <= '\r'
  }

  predicate IsDigit(c: Byte)
  {
    '0' <= c <= '9'
  }

  predicate AllDigits(d: Bytes)
  {
    forall i :: 0 <= i < |d| ==> IsDigit(d[i])
  }

  function DigitValue(c: Byte): nat
    requires IsDigit(c)
  {
    c as int - '0' as int
  }

  function DigitChar(n: nat): (c: Byte)
    requires n < 10
    ensures IsDigit(c) && DigitValue(c) == n
  {
    ('0' as int + n) as char
  }

  /** The value of a string of decimal digits, most significant first. */
  function DigitsValue(d: Bytes): nat
    requires AllDigits(d)
  {
    if |d| == 0 then 0 else DigitsValue(d[..|d| - 1]) * 10 + DigitValue(d[|d| - 1])
  }

  function TrimLeft(s: Bytes): (r: Bytes)
    ensures |r| <= |s| && r == s[|s| - |r|..]
    ensures |r| > 0 ==> !IsSpace(r[0])
  {
    if |s| > 0 && IsSpace(s[0]) then TrimLeft(s[1..]) else s
  }

  function TrimRight(s: Bytes): (r: Bytes)
    ensures |r| <= |s| && r == s[..|r|]
    ensures |r| > 0 ==> !IsSpace(r[|r| - 1])
  {
    if |s| > 0 && IsSpace(s[|s| - 1]) then TrimRight(s[..|s| - 1]) else s
  }

  /** Python 2 `int(s)` in base 10: surrounding whitespace is ignored, then an
      optional `+` or `-`, more whitespace (the C library's `strtoul`, which
      CPython calls after taking the sign, skips it too) and at least one
      digit; anything else is a ValueError, modelled as None. */
  function ParseInt(s: Bytes): Option<int>
  {
    var t := TrimRight(TrimLeft(s));
    if |t| > 0 && (t[0] == '-' || t[0] == '+') then
      var d := TrimLeft(t[1..]);
      if |d| > 0 && AllDigits(d) then
        var v: int := DigitsValue(d);
        Some(if t[0] == '-' then -v else v)
      else None
    else if |t| > 0 && AllDigits(t) then Some(DigitsValue(t))
    else None
  }

  /** The decimal digits of `n`, without leading zeros. */
  function Digits(n: nat): (d: Bytes)
    ensures |d| > 0 && AllDigits(d)
    ensures DigitsValue(d) == n
    ensures |d| > 1 ==> d[0] != '0'
  {
    if n < 10 then [DigitChar(n)]
    else
      var d := Digits(n / 10) + [DigitChar(n % 10)];
      assert d[..|d| - 1] == Digits(n / 10);
      d
  }

  /** `'{0}'.format(n)`: a minus sign for negative numbers, then the digits. */
  function Decimal(n: int): (d: Bytes)
    ensures |d| > 0
    ensures forall i :: 0 <= i < |d| ==> IsDigit(d[i]) || d[i] == '-'
  {
    if n < 0 then "-" + Digits(-n) else Digits(n)
  }

  /** Text that neither starts nor ends with whitespace is not trimmed. */
  lemma TrimNothing(t: Bytes)
    requires |t| > 0 && !IsSpace(t[0]) && !IsSpace(t[|t| - 1])
    ensures TrimRight(TrimLeft(t)) == t
  {
  }

  lemma ParseDigits(d: Bytes)
    requires |d| > 0 && AllDigits(d)
    ensures ParseInt(d) == Some(DigitsValue(d))
  {
    TrimNothing(d);
  }

  predicate AllSpace(p: Bytes)
  {
    forall i :: 0 <= i < |p| ==> IsSpace(p[i])
  }

  /** Leading whitespace is dropped whole. */
  lemma {:induction false} TrimSpaces(p: Bytes, d: Bytes)
    requires AllSpace(p) && (|d| == 0 || !IsSpace(d[0]))
    ensures TrimLeft(p + d) == d
    decreases |p|
  {
    if |p| > 0 {
      assert (p + d)[1..] == p[1..] + d;
      TrimSpaces(p[1..], d);
    } else {
      assert p + d == d;
    }
  }

  /** Whitespace between the sign and the digits is skipped: the text
      `- 5` reads as minus five. */
  lemma ParseSpacedSign(sign: Byte, pad: Bytes, d: Bytes, t: Bytes)
    requires sign == '-' || sign == '+'
    requires AllSpace(pad) && |d| > 0 && AllDigits(d)
    requires t == [sign] + pad + d
    ensures ParseInt(t) == Some(if sign == '-' then -(DigitsValue(d) as int) else DigitsValue(d))
  {
    assert t[|t| - 1] == d[|d| - 1];
    TrimNothing(t);
    assert t[1..] == pad + d;
    TrimSpaces(pad, d);
  }

  /** Reading back the decimal text of a number gives the number. */
  lemma ParseDecimal(n: int)
    ensures ParseInt(Decimal(n)) == Some(n)
  {
    if n < 0 {
      var d := Digits(-n);
      assert Decimal(n) == ['-'] + [] + d;
      ParseSpacedSign('-', [], d, Decimal(n));
    } else {
      ParseDigits(Digits(n));
    }
  }
}
