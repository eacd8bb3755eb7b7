/**
 * Ruby's `String#to_i` (base 10), which `PostBase#id` applies to the post id
 * text, and `Integer#to_s`, its inverse on the decimal forms it produces.
 *
 * `to_i` skips leading white space, reads an optional sign, then the longest
 * run of decimal digits in which single underscores may separate digits, and
 * yields 0 when there are no digits at all; it never fails.
 */
module RubyInteger {
  import opened Text

  function DigitValue(c: char): (d: nat)
    requires IsDigit(c)
    ensures d < 10
  {
    c as int - '0' as int
  }

  function DigitChar(d: nat): (c: char)
    requires d < 10
    ensures IsDigit(c) && DigitValue(c) == d
  {
    ('0' as int + d) as char
  }

  /** The digits `to_i` reads from the start of `s`. */
  function DigitRun(s: string): (ds: seq<nat>)
    ensures forall i :: 0 <= i < |ds| ==> ds[i] < 10
  {
    if |s| == 0 || !IsDigit(s[0]) then []
    else if |s| >= 3 && s[1] == '_' && IsDigit(s[2]) then [DigitValue(s[0])] + DigitRun(s[2..])
    else [DigitValue(s[0])] + DigitRun(s[1..])
  }

  /** The number a sequence of decimal digits denotes, most significant first. */
  function Value(ds: seq<nat>): nat {
    if |ds| == 0 then 0 else Value(ds[..|ds| - 1]) * 10 + ds[|ds| - 1]
  }

  function SkipSpace(s: string): string {
    if |s| > 0 && IsSpace(s[0]) then SkipSpace(s[1..]) else s
  }

  /** `s.to_i` */
  function ToI(s: string): int {
    var t := SkipSpace(s);
    if |t| > 0 && t[0] == '-' then -(Value(DigitRun(t[1..])) as int)
    else if |t| > 0 && t[0] == '+' then Value(DigitRun(t[1..]))
    else Value(DigitRun(t))
  }

  function NatDecimal(n: nat): (s: string)
    ensures |s| > 0 && forall i :: 0 <= i < |s| ==> IsDigit(s[i])
  {
    if n < 10 then [DigitChar(n)] else NatDecimal(n / 10) + [DigitChar(n % 10)]
  }

  /** `n.to_s` */
  function Decimal(n: int): string {
    if n < 0 then "-" + NatDecimal(-n) else NatDecimal(n)
  }

  /** Text after a number that does not extend its digit run. */
  predicate EndsNumber(rest: string) {
    |rest| == 0 || (!IsDigit(rest[0]) && !(rest[0] == '_' && |rest| > 1 && IsDigit(rest[1])))
  }

  function DigitValues(s: string): (ds: seq<nat>)
    requires forall i :: 0 <= i < |s| ==> IsDigit(s[i])
    ensures |ds| == |s|
  {
    if |s| == 0 then [] else DigitValues(s[..|s| - 1]) + [DigitValue(s[|s| - 1])]
  }

  lemma {:induction false} DigitValuesCons(s: string)
    requires |s| > 0 && forall i :: 0 <= i < |s| ==> IsDigit(s[i])
    ensures DigitValues(s) == [DigitValue(s[0])] + DigitValues(s[1..])
  {
    if |s| > 1 {
      DigitValuesCons(s[..|s| - 1]);
      assert s[..|s| - 1][1..] == s[1..][..|s[1..]| - 1];
    }
  }

  lemma {:induction false} DigitRunOfDigits(digits: string, rest: string)
    requires forall i :: 0 <= i < |digits| ==> IsDigit(digits[i])
    requires EndsNumber(rest)
    ensures DigitRun(digits + rest) == DigitValues(digits)
  {
    if |digits| == 0 {
      assert digits + rest == rest;
    } else {
      var s := digits + rest;
      DigitValuesCons(digits);
      assert s[1..] == digits[1..] + rest;
      if |digits| > 1 {
        assert s[1] == digits[1];
      } else {
        assert s[1..] == rest;
      }
      DigitRunOfDigits(digits[1..], rest);
    }
  }

  lemma {:induction false} ValueOfNatDecimal(n: nat)
    ensures Value(DigitValues(NatDecimal(n))) == n
  {
    if n >= 10 {
      ValueOfNatDecimal(n / 10);
      var s := NatDecimal(n);
      assert s[..|s| - 1] == NatDecimal(n / 10);
    }
  }

  /**
   * Reading back a rendered integer gives the integer, whatever non-numeric
   * text follows it: `id` recovers every post id WordPress writes.
   */
  lemma {:induction false} ToIDecimal(n: int, rest: string)
    requires EndsNumber(rest)
    ensures ToI(Decimal(n) + rest) == n
  {
    var m: nat := if n < 0 then -n else n;
    var digits := NatDecimal(m);
    DigitsReadBack(m, rest);
    if n < 0 {
      assert Decimal(n) + rest == "-" + (digits + rest);
      NegativeRead(digits + rest);
    } else {
      assert Decimal(n) + rest == digits + rest;
      UnsignedRead(digits + rest);
    }
  }

  lemma NegativeRead(t: string)
    ensures ToI("-" + t) == -(Value(DigitRun(t)) as int)
  {
    var s := "-" + t;
    assert SkipSpace(s) == s;
    assert s[1..] == t;
  }

  lemma UnsignedRead(t: string)
    requires |t| > 0 && IsDigit(t[0])
    ensures ToI(t) == Value(DigitRun(t))
  {
    assert SkipSpace(t) == t;
  }

  lemma DigitsReadBack(m: nat, rest: string)
    requires EndsNumber(rest)
    ensures Value(DigitRun(NatDecimal(m) + rest)) == m
  {
    DigitRunOfDigits(NatDecimal(m), rest);
    ValueOfNatDecimal(m);
  }

  /** Leading white space never changes what `to_i` reads. */
  lemma {:induction false} ToISkipsSpace(space: string, s: string)
    requires forall i :: 0 <= i < |space| ==> IsSpace(space[i])
    ensures ToI(space + s) == ToI(s)
  {
    if |space| > 0 {
      assert (space + s)[1..] == space[1..] + s;
      ToISkipsSpace(space[1..], s);
    } else {
      assert space + s == s;
    }
  }

  /** Text that starts with neither a sign nor a digit reads as 0, as `nil.to_i` and `"".to_i` do. */
  lemma NoDigitsIsZero(s: string)
    requires |s| == 0 || (!IsSpace(s[0]) && !IsDigit(s[0]) && s[0] != '-' && s[0] != '+')
    ensures ToI(s) == 0
  {
  }
}
