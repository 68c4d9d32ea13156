/**
 * The pieces of Java text and number handling the bookstore relies on: the
 * decimal spelling of an id in an item URI (String.valueOf(long) and
 * Long.parseLong over the last path segment), the quantity field's text
 * (String.valueOf(int) and Integer.valueOf / Integer.parseInt, with 32-bit
 * int arithmetic) and String.trim().
 */
module Strings {
  import opened Wrappers

  predicate IsDigit(c: char) { '0' <= c <= '9' }

  predicate IsDigits(s: string) { forall i :: 0 <= i < |s| ==> IsDigit(s[i]) }

  function DigitChar(d: nat): (c: char)
    requires d < 10
    ensures IsDigit(c) && DigitValue(c) == d
  {
    (('0' as int) + d) as char
  }

  function DigitValue(c: char): nat
    requires IsDigit(c)
  {
    (c as int) - ('0' as int)
  }

  /** String.valueOf(n) for a non-negative number: its decimal digits, without leading zeros. */
  function Decimal(n: nat): (s: string)
    ensures |s| > 0 && IsDigits(s)
    ensures |s| > 1 ==> s[0] != '0'
    decreases n
  {
    if n < 10 then [DigitChar(n)] else Decimal(n / 10) + [DigitChar(n % 10)]
  }

  /** The value of a string of decimal digits (leading zeros allowed, as Long.parseLong allows them). */
  function ParseDecimal(s: string): (n: nat)
    requires IsDigits(s)
    ensures n == 0 <==> forall i :: 0 <= i < |s| ==> s[i] == '0'
  {
    if s == [] then 0 else ParseDecimal(s[..|s| - 1]) * 10 + DigitValue(s[|s| - 1])
  }

  /** Parsing the decimal spelling of a number gives the number back. */
  lemma {:induction false} ParseDecimalOfDecimal(n: nat)
    ensures ParseDecimal(Decimal(n)) == n
    decreases n
  {
    var s := Decimal(n);
    if n < 10 {
      assert s[..|s| - 1] == [];
    } else {
      ParseDecimalOfDecimal(n / 10);
      assert s[..|s| - 1] == Decimal(n / 10);
      assert s[|s| - 1] == DigitChar(n % 10);
    }
  }

  /** Different numbers are spelled differently, so an id determines its item URI and back. */
  lemma DecimalInjective(m: nat, n: nat)
    requires Decimal(m) == Decimal(n)
    ensures m == n
  {
    ParseDecimalOfDecimal(m);
    ParseDecimalOfDecimal(n);
  }

  // ---------------------------------------------------------- 32-bit ints

  const Int32Min: int := -0x8000_0000
  const Int32Max: int := 0x7fff_ffff

  predicate IsInt32(n: int) { Int32Min <= n <= Int32Max }

  /** Java int arithmetic: the mathematical result reduced to 32 bits, two's complement. */
  function Wrap32(n: int): (r: int)
    ensures IsInt32(r)
    ensures IsInt32(n) ==> r == n
  {
    (n - Int32Min) % 0x1_0000_0000 + Int32Min
  }

  /** String.valueOf(int): an optional minus sign, then the decimal digits of the magnitude. */
  function IntText(n: int): (s: string)
    ensures |s| > 0
    ensures s[0] == '-' <==> n < 0
    ensures n < 0 ==> |s| > 1 && IsDigits(s[1..])
    ensures n >= 0 ==> IsDigits(s)
  {
    if n < 0 then "-" + Decimal(-n) else Decimal(n)
  }

  /**
   * The number an optional sign followed by decimal digits denotes, or None
   * for anything else (the empty string, a lone sign, any other character).
   */
  function ParseInt(s: string): (r: Option<int>)
    ensures s == "" || s == "-" || s == "+" ==> r == None
    ensures s != "" && IsDigits(s) ==> r == Some(ParseDecimal(s))
    ensures r.Some? && r.value < 0 ==> s[0] == '-'
  {
    if s == [] then None
    else if s[0] == '-' || s[0] == '+' then
      if |s| > 1 && IsDigits(s[1..]) then
        var m: int := ParseDecimal(s[1..]);
        Some(if s[0] == '-' then -m else m)
      else None
    else if IsDigits(s) then Some(ParseDecimal(s))
    else None
  }

  /** Any character other than a digit, or a sign anywhere but in front, makes the parse fail. */
  lemma ParseIntRejectsNonDigit(s: string, i: nat)
    requires i < |s| && !IsDigit(s[i]) && (i > 0 || (s[0] != '-' && s[0] != '+'))
    ensures ParseInt(s) == None
  {
    if i > 0 {
      assert s[1..][i - 1] == s[i];
    }
  }

  /** Integer.valueOf / Integer.parseInt: None stands for the NumberFormatException, also thrown out of int range. */
  function ParseInt32(s: string): (r: Option<int>)
    ensures r.Some? ==> IsInt32(r.value)
  {
    match ParseInt(s)
    case Some(n) => if IsInt32(n) then Some(n) else None
    case None => None
  }

  /** Reading back the text String.valueOf(int) wrote gives the same int. */
  lemma ParseIntOfIntText(n: int)
    ensures ParseInt(IntText(n)) == Some(n)
    ensures IsInt32(n) ==> ParseInt32(IntText(n)) == Some(n)
  {
    var s := IntText(n);
    if n < 0 {
      ParseDecimalOfDecimal(-n);
      assert s[1..] == Decimal(-n);
    } else {
      ParseDecimalOfDecimal(n);
    }
  }

  // ------------------------------------------------------------------ trim

  /** The characters String.trim() removes: every code point up to and including the space. */
  predicate IsTrimmable(c: char) { c <= ' ' }

  predicate AllTrimmable(s: string) { forall i :: 0 <= i < |s| ==> IsTrimmable(s[i]) }

  /** s without its leading trimmable characters. */
  function TrimStart(s: string): (r: string)
    ensures |r| <= |s| && r == s[|s| - |r|..]
    ensures r != [] ==> !IsTrimmable(r[0])
    ensures AllTrimmable(s[..|s| - |r|])
  {
    if s != [] && IsTrimmable(s[0]) then
      var r := TrimStart(s[1..]);
      assert s[1..][..|s| - 1 - |r|] == s[1..|s| - |r|];
      assert s[..|s| - |r|] == [s[0]] + s[1..|s| - |r|];
      r
    else s
  }

  /** s without its trailing trimmable characters. */
  function TrimEnd(s: string): (r: string)
    ensures |r| <= |s| && r == s[..|r|]
    ensures r != [] ==> !IsTrimmable(r[|r| - 1])
    ensures AllTrimmable(s[|r|..])
  {
    if s != [] && IsTrimmable(s[|s| - 1]) then
      var r := TrimEnd(s[..|s| - 1]);
      assert s[..|s| - 1][|r|..] == s[|r|..|s| - 1];
      assert s[|r|..] == s[|r|..|s| - 1] + [s[|s| - 1]];
      r
    else s
  }

  /** String.trim(): strip trimmable characters from both ends. */
  function Trim(s: string): (r: string)
    ensures r != [] ==> !IsTrimmable(r[0]) && !IsTrimmable(r[|r| - 1])
  {
    TrimEnd(TrimStart(s))
  }

  /** trim() yields "" exactly for strings made only of trimmable characters (the empty string among them). */
  lemma TrimEmptyIff(s: string)
    ensures Trim(s) == [] <==> AllTrimmable(s)
  {
    var t := TrimStart(s);
    if Trim(s) == [] {
      // The leading part already removed everything: TrimEnd keeps a non-trimmable first character.
      assert t == [];
      assert s[..|s|] == s;
    } else {
      assert t[0] == s[|s| - |t|];
    }
  }

  /** trim() leaves alone a string that has no trimmable character at either end. */
  lemma TrimKeepsTrimmed(s: string)
    requires s != [] ==> !IsTrimmable(s[0]) && !IsTrimmable(s[|s| - 1])
    ensures Trim(s) == s
  {
  }

  /** trim() is idempotent. */
  lemma TrimIdempotent(s: string)
    ensures Trim(Trim(s)) == Trim(s)
  {
    TrimKeepsTrimmed(Trim(s));
  }
}
