/** Digits, positional values and the numerals that sprintf's %u and %x print. */
module Numerals {

  predicate IsDigit(c: char, radix: nat) {
    || '0' <= c <= '9'
    || (radix == 16 && ('a' <= c <= 'f' || 'A' <= c <= 'F'))
  }

  /** The offset of a digit in "0123456789abcdef" or "0123456789ABCDEF". */
  function DigitOf(c: char): nat
    requires IsDigit(c, 16)
  {
    if c <= '9' then c as int - '0' as int
    else if c <= 'F' then c as int - 'A' as int + 10
    else c as int - 'a' as int + 10
  }

  predicate AllDigits(s: string, radix: nat) {
    forall i :: 0 <= i < |s| ==> IsDigit(s[i], radix)
  }

  /** The number that a string of digits denotes, most significant digit first. */
  function Value(s: string, radix: nat): nat
    requires AllDigits(s, 16)
  {
    if s == "" then 0
    else Push(Value(s[..|s| - 1], radix), radix, DigitOf(s[|s| - 1]))
  }

  /** One more digit behind a number. */
  function Push(v: nat, radix: nat, d: nat): nat {
    if radix == 16 then v * 16 + d else v * 10 + d
  }

  /** How many leading characters of s are digits. */
  function DigitRun(s: string, radix: nat): (k: nat)
    ensures k <= |s| && AllDigits(s[..k], radix) && (k < |s| ==> !IsDigit(s[k], radix))
  {
    if s == "" || !IsDigit(s[0], radix) then 0 else 1 + DigitRun(s[1..], radix)
  }

  function DigitChar(d: nat): char
    requires d < 16
  {
    if d < 10 then ('0' as int + d) as char else ('a' as int + d - 10) as char
  }

  /** %u (radix 10) and %x (radix 16). */
  function Numeral(n: nat, radix: nat): (s: string)
    requires radix == 10 || radix == 16
    ensures s != "" && AllDigits(s, radix)
    decreases n
  {
    if n < radix then [DigitChar(n)]
    else Numeral(if radix == 10 then n / 10 else n / 16, radix) + [DigitChar(if radix == 10 then n % 10 else n % 16)]
  }

  lemma ValueSnoc(s: string, c: char, radix: nat)
    requires AllDigits(s, 16) && IsDigit(c, 16)
    ensures Value(s + [c], radix) == Push(Value(s, radix), radix, DigitOf(c))
  {
    assert (s + [c])[..|s|] == s;
  }

  lemma {:induction false} ValueOfNumeral(n: nat, radix: nat)
    requires radix == 10 || radix == 16
    ensures Value(Numeral(n, radix), radix) == n
    decreases n
  {
    if n < radix {
      ValueSnoc("", DigitChar(n), radix);
      assert "" + [DigitChar(n)] == Numeral(n, radix);
    } else if radix == 10 {
      ValueOfNumeral(n / 10, 10);
      ValueSnoc(Numeral(n / 10, 10), DigitChar(n % 10), 10);
    } else {
      ValueOfNumeral(n / 16, 16);
      ValueSnoc(Numeral(n / 16, 16), DigitChar(n % 16), 16);
    }
  }

  /** Appending digits never lowers the value. */
  lemma {:induction false} ValueGrows(s: string, i: nat, radix: nat)
    requires i <= |s| && AllDigits(s, 16) && (radix == 10 || radix == 16)
    ensures AllDigits(s[..i], 16) && Value(s[..i], radix) <= Value(s, radix)
  {
    if i == |s| {
      assert s[..i] == s;
    } else {
      var front := s[..|s| - 1];
      ValueGrows(front, i, radix);
      assert front[..i] == s[..i];
    }
  }

  /** A run of digits is found again in front of anything that is no digit. */
  lemma {:induction false} RunOfToken(d: string, rest: string, radix: nat)
    requires AllDigits(d, radix) && (rest == "" || !IsDigit(rest[0], radix))
    ensures DigitRun(d + rest, radix) == |d| && (d + rest)[..|d|] == d && (d + rest)[|d|..] == rest
  {
    if d == "" {
      assert d + rest == rest;
    } else {
      var s := d + rest;
      assert s[..|d|] == d && s[|d|..] == rest;
      RunOfToken(d[1..], rest, radix);
      assert s[1..] == d[1..] + rest;
    }
  }

  /** The run reaches at least as far as a prefix of digits, and no further than a character that is no digit. */
  lemma {:induction false} RunReaches(s: string, i: nat, radix: nat)
    requires i <= |s| && AllDigits(s[..i], radix)
    ensures i <= DigitRun(s, radix)
    ensures i == |s| || !IsDigit(s[i], radix) ==> DigitRun(s, radix) == i
  {
    if 0 < i {
      assert s[..i][0] == s[0] && s[1..][..i - 1] == s[..i][1..];
      RunReaches(s[1..], i - 1, radix);
    }
  }

  /** A decimal numeral of at most three digits is read as a hexadecimal number below 0x1000. */
  lemma {:induction false} DecimalAsHex(n: nat)
    requires n < 1000
    ensures AllDigits(Numeral(n, 10), 16)
    ensures Value(Numeral(n, 10), 16) < if n < 10 then 0x10 else if n < 100 then 0x100 else 0x1000
  {
    if n < 10 {
      ValueSnoc("", DigitChar(n), 16);
      assert "" + [DigitChar(n)] == Numeral(n, 10);
    } else {
      DecimalAsHex(n / 10);
      ValueSnoc(Numeral(n / 10, 10), DigitChar(n % 10), 16);
    }
  }
}
