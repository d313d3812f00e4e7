/** Decimal text of an integer, as math/big writes it (`Text(10)` /
    `MarshalText`) and the part of its reader (`SetString(s, 0)` /
    `UnmarshalText`) that this model covers: an optional '-' followed by
    decimal digits without superfluous leading zeros. */
module Decimal {
  import opened Outcomes
  import opened Numeric

  predicate IsDigit(c: char) { '0' <= c <= '9' }

  predicate AllDigits(s: string) { forall k :: 0 <= k < |s| ==> IsDigit(s[k]) }

  /** A non-empty run of digits that starts with '0' only when it is "0". */
  predicate CanonicalDigits(s: string)
  {
    |s| > 0 && AllDigits(s) && (s[0] == '0' ==> |s| == 1)
  }

  /** A character that math/big's base-0 reader never accepts anywhere:
      anything but a letter, a digit, '_', '+' or '-'. */
  predicate ForeignChar(c: char)
  {
    !(IsDigit(c) || 'a' <= c <= 'z' || 'A' <= c <= 'Z' || c == '_' || c == '+' || c == '-')
  }

  function DigitValue(c: char): (d: nat)
    requires IsDigit(c)
    ensures d < 10
  {
    c as int - '0' as int
  }

  function DigitChar(d: nat): (c: char)
    requires d < 10
    ensures IsDigit(c) && DigitValue(c) == d
  {
    ('0' as int + d) as char
  }

  /** The decimal digits of `n`, most significant first. */
  function DigitsOf(n: nat): string
    decreases n
  {
    if n < 10 then [DigitChar(n)] else DigitsOf(n / 10) + [DigitChar(n % 10)]
  }

  /** The number a run of digits denotes. */
  function ValueOf(s: string): nat
    requires AllDigits(s)
  {
    if s == [] then 0 else ValueOf(s[..|s| - 1]) * 10 + DigitValue(s[|s| - 1])
  }

  /** `big.Int.String()` and `MarshalText`: the decimal text of `x`. */
  function Format(x: int): string
  {
    if x < 0 then "-" + DigitsOf(-x) else DigitsOf(x)
  }

  /** The value of text that math/big reads as a decimal integer, or None. */
  function Parse(s: string): Option<int>
  {
    if |s| > 0 && s[0] == '-' then
      if CanonicalDigits(s[1..]) then Some(0 - ValueOf(s[1..])) else None
    else if CanonicalDigits(s) then Some(ValueOf(s)) else None
  }

  lemma {:induction false} DigitsOfCanonical(n: nat)
    ensures CanonicalDigits(DigitsOf(n))
    ensures ValueOf(DigitsOf(n)) == n
    decreases n
  {
    var s := DigitsOf(n);
    if n < 10 {
      assert s[..0] == [];
    } else {
      DigitsOfCanonical(n / 10);
      var prefix := DigitsOf(n / 10);
      assert s[..|s| - 1] == prefix;
      assert s[0] == prefix[0];
    }
  }

  lemma {:induction false} ValueOfPositive(s: string)
    requires CanonicalDigits(s) && s[0] != '0'
    ensures ValueOf(s) > 0
    decreases |s|
  {
    if |s| > 1 {
      var prefix := s[..|s| - 1];
      assert prefix[0] == s[0];
      ValueOfPositive(prefix);
    } else {
      assert s[..0] == [];
    }
  }

  lemma {:induction false} DigitsOfValue(s: string)
    requires CanonicalDigits(s)
    ensures DigitsOf(ValueOf(s)) == s
    decreases |s|
  {
    var prefix := s[..|s| - 1];
    var d := DigitValue(s[|s| - 1]);
    if |s| == 1 {
      assert prefix == [];
      assert DigitChar(d) == s[0];
    } else {
      assert prefix[0] == s[0];
      ValueOfPositive(prefix);
      DigitsOfValue(prefix);
      assert DigitChar(d) == s[|s| - 1];
      assert s == prefix + [s[|s| - 1]];
    }
  }

  /** Reading back the text of any integer gives that integer. */
  lemma FormatThenParse(x: int)
    ensures Parse(Format(x)) == Some(x)
  {
    DigitsOfCanonical(Abs(x));
    if x < 0 {
      assert Format(x)[1..] == DigitsOf(-x);
    }
  }

  /** Every accepted text other than "-0" is the text of the value read. */
  lemma ParseThenFormat(s: string)
    requires Parse(s).Some? && s != "-0"
    ensures Format(Parse(s).value) == s
  {
    if |s| > 0 && s[0] == '-' {
      var digits := s[1..];
      DigitsOfValue(digits);
      ValueOfPositive(digits);
      assert s == "-" + digits;
    } else {
      DigitsOfValue(s);
    }
  }

  /** Empty text, or text with a character math/big never accepts, is malformed. */
  lemma ParseRejectsMalformed(s: string)
    requires s == [] || exists k :: 0 <= k < |s| && ForeignChar(s[k])
    ensures Parse(s) == None
  {
  }

  /** The text of an integer is made of '-' and decimal digits only. */
  lemma FormatAlphabet(x: int)
    ensures forall k :: 0 <= k < |Format(x)| ==> Format(x)[k] == '-' || IsDigit(Format(x)[k])
  {
    DigitsOfCanonical(Abs(x));
  }
}
