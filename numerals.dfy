/** JavaScript's `parseInt(s)` without a radix and the decimal text of an
    integer (`${n}`), with the round trip between them. */
module Numerals {
  import opened Types

  /** StrWhiteSpaceChar: the white space and line terminators parseInt skips. */
  predicate IsWhiteSpace(c: char)
  {
    || c == '\t' || c == '\U{000B}' || c == '\U{000C}' || c == ' ' || c == '\U{00A0}' || c == '\U{FEFF}'
    || c == '\U{1680}' || ('\U{2000}' <= c <= '\U{200A}') || c == '\U{202F}' || c == '\U{205F}' || c == '\U{3000}'
    || c == '\n' || c == '\r' || c == '\U{2028}' || c == '\U{2029}'
  }

  /** `s` without its leading white space. */
  function TrimStart(s: string): (r: string)
    ensures |r| <= |s| && r == s[|s| - |r|..]
    ensures r != [] ==> !IsWhiteSpace(r[0])
    ensures forall i :: 0 <= i < |s| - |r| ==> IsWhiteSpace(s[i])
  {
    if s != [] && IsWhiteSpace(s[0]) then
      var r := TrimStart(s[1..]);
      assert forall i :: 1 <= i < |s| ==> s[1..][i - 1] == s[i];
      r
    else s
  }

  /** The value of `c` as a digit of radix 10 or 16, if it is one. */
  function DigitValue(c: char, hex: bool): Option<nat>
  {
    if '0' <= c <= '9' then Some(c as nat - '0' as nat)
    else if hex && 'a' <= c <= 'f' then Some(c as nat - 'a' as nat + 10)
    else if hex && 'A' <= c <= 'F' then Some(c as nat - 'A' as nat + 10)
    else None
  }

  /** The length of the longest prefix of `s` made of digits. */
  function DigitRun(s: string, hex: bool): (k: nat)
    ensures k <= |s|
    ensures forall i :: 0 <= i < k ==> DigitValue(s[i], hex).Some?
    ensures k < |s| ==> DigitValue(s[k], hex).None?
  {
    if s != [] && DigitValue(s[0], hex).Some? then 1 + DigitRun(s[1..], hex) else 0
  }

  /** The number the digits `ds` spell, most significant first. */
  function DigitsValue(ds: string, hex: bool): nat
    requires forall i :: 0 <= i < |ds| ==> DigitValue(ds[i], hex).Some?
  {
    if ds == [] then 0
    else
      var n := |ds|;
      var d := DigitValue(ds[n - 1], hex).value;
      var high := DigitsValue(ds[..n - 1], hex);
      if hex then high * 16 + d else high * 10 + d
  }

  /** The unsigned part of parseInt: radix 16 after a `0x` or `0X`
      prefix, else radix 10, then the longest run of digits; None (NaN)
      when that run is empty. */
  function ParseUnsigned(u: string): (r: Option<nat>)
  {
    var hex := |u| >= 2 && u[0] == '0' && (u[1] == 'x' || u[1] == 'X');
    var body := if hex then u[2..] else u;
    var k := DigitRun(body, hex);
    if k == 0 then None else Some(DigitsValue(body[..k], hex))
  }

  /** An optional sign, then the unsigned part. */
  function ParseSigned(t: string): (r: Option<int>)
  {
    var negative := t != [] && t[0] == '-';
    var u := if t != [] && (t[0] == '-' || t[0] == '+') then t[1..] else t;
    match ParseUnsigned(u)
    case None => None
    case Some(magnitude) => var v: int := magnitude; Some(if negative then -v else v)
  }

  /** parseInt(s): skip white space, take one sign, then read the
      unsigned part. */
  function ParseInt(s: string): (r: Option<int>)
  {
    ParseSigned(TrimStart(s))
  }

  function DigitChar(d: nat): (c: char)
    requires d < 10
    ensures DigitValue(c, false) == Some(d)
  {
    ['0', '1', '2', '3', '4', '5', '6', '7', '8', '9'][d]
  }

  /** The decimal digits of `n`, with no leading zero. */
  function NatToString(n: nat): (s: string)
    ensures |s| >= 1
    ensures forall i :: 0 <= i < |s| ==> DigitValue(s[i], false).Some?
    ensures s[0] == '0' ==> s == "0"
  {
    if n < 10 then [DigitChar(n)] else NatToString(n / 10) + [DigitChar(n % 10)]
  }

  /** `${n}` for an integer. */
  function IntToString(n: int): string
  {
    if n < 0 then "-" + NatToString(-n) else NatToString(n)
  }

  lemma {:induction false} NatToStringValue(n: nat)
    ensures DigitsValue(NatToString(n), false) == n
  {
    if n >= 10 {
      var s := NatToString(n);
      assert s[..|s| - 1] == NatToString(n / 10);
      NatToStringValue(n / 10);
    }
  }

  lemma DigitRunAll(s: string)
    requires forall i :: 0 <= i < |s| ==> DigitValue(s[i], false).Some?
    ensures DigitRun(s, false) == |s|
  {
  }

  lemma ParseUnsignedDigits(n: nat)
    ensures ParseUnsigned(NatToString(n)) == Some(n)
  {
    var digits := NatToString(n);
    NatToStringValue(n);
    DigitRunAll(digits);
    assert digits[..|digits|] == digits;
  }

  lemma DigitIsNotWhiteSpace(c: char)
    requires DigitValue(c, false).Some?
    ensures !IsWhiteSpace(c) && c != '-' && c != '+'
  {
  }

  /** A string that starts with anything but white space is not trimmed. */
  lemma TrimNothing(s: string)
    requires s != [] && !IsWhiteSpace(s[0])
    ensures TrimStart(s) == s
  {
  }

  /** A minus sign negates the unsigned part that follows it. */
  lemma MinusNegates(digits: string, m: nat)
    requires ParseUnsigned(digits) == Some(m)
    ensures ParseSigned("-" + digits) == Some(-(m as int))
  {
    var s := "-" + digits;
    assert s[0] == '-' && s[1..] == digits;
  }

  lemma ParseNegative(n: int)
    requires n < 0
    ensures ParseInt(IntToString(n)) == Some(n)
  {
    var m: nat := -n;
    var digits := NatToString(m);
    var s := "-" + digits;
    assert IntToString(n) == s;
    ParseUnsignedDigits(m);
    MinusNegates(digits, m);
    assert s[0] == '-';
    TrimNothing(s);
  }

  lemma ParseNonNegative(n: int)
    requires n >= 0
    ensures ParseInt(IntToString(n)) == Some(n)
  {
    var s := NatToString(n);
    ParseUnsignedDigits(n);
    DigitIsNotWhiteSpace(s[0]);
    TrimNothing(s);
    assert IntToString(n) == s;
  }

  /** parseInt reads back the decimal text of every integer. */
  lemma ParseIntToString(n: int)
    ensures ParseInt(IntToString(n)) == Some(n)
  {
    if n < 0 {
      ParseNegative(n);
    } else {
      ParseNonNegative(n);
    }
  }
}
