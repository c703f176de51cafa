/** What a digit is worth, and that upper and lower case do not matter to inet_pton6. */
module Inet6Case {
  import opened Common
  import opened Numerals
  import opened Inet4
  import opened Inet6Pton
  import opened Inet6Ntop
  import opened Inet6RoundTrip

  const LOWER_DIGITS: string := "0123456789abcdef"
  const UPPER_DIGITS: string := "0123456789ABCDEF"

  /** Each digit is worth its offset in either table. */
  lemma DigitWorth(i: nat)
    requires i < 16
    ensures IsDigit(LOWER_DIGITS[i], 16) && Value([LOWER_DIGITS[i]], 16) == i
    ensures IsDigit(UPPER_DIGITS[i], 16) && Value([UPPER_DIGITS[i]], 16) == i
    ensures i < 10 ==> IsDigit(LOWER_DIGITS[i], 10) && Value([LOWER_DIGITS[i]], 10) == i
  {
    OneDigit(LOWER_DIGITS[i]);
    OneDigit(UPPER_DIGITS[i]);
  }

  lemma OneDigit(c: char)
    requires IsDigit(c, 16)
    ensures Value([c], 16) == DigitOf(c) && (IsDigit(c, 10) ==> Value([c], 10) == DigitOf(c))
  {
    assert [c][..0] == "";
    ValueOfNothing();
  }

  /** The digits are the characters of the tables, and no others. */
  lemma DigitsAre(c: char)
    ensures IsDigit(c, 16) <==> c in LOWER_DIGITS || c in UPPER_DIGITS
    ensures IsDigit(c, 10) <==> c in LOWER_DIGITS[..10]
  {
    hide IsDigit;
    if IsDigit(c, 16) {
      DigitIn(c);
    }
    if i :| 0 <= i < 16 && c == LOWER_DIGITS[i] {
      InTables(i);
    }
    if i :| 0 <= i < 16 && c == UPPER_DIGITS[i] {
      InTables(i);
    }
    FirstTen(c);
  }

  lemma InTables(i: nat)
    requires i < 16
    ensures IsDigit(LOWER_DIGITS[i], 16) && IsDigit(UPPER_DIGITS[i], 16)
  {
  }

  lemma FirstTen(c: char)
    ensures IsDigit(c, 10) <==> c in LOWER_DIGITS[..10]
  {
    if IsDigit(c, 10) {
      assert c == LOWER_DIGITS[..10][c as int - '0' as int];
    }
    if i :| 0 <= i < 10 && c == LOWER_DIGITS[..10][i] {
      assert LOWER_DIGITS[..10][i] == LOWER_DIGITS[i];
    }
  }

  lemma DigitIn(c: char)
    requires IsDigit(c, 16)
    ensures c in LOWER_DIGITS || c in UPPER_DIGITS
  {
    var k := c as int;
    if c <= '9' {
      assert c == LOWER_DIGITS[k - '0' as int];
    } else if c <= 'F' {
      assert c == UPPER_DIGITS[k - 'A' as int + 10];
    } else {
      assert c == LOWER_DIGITS[k - 'a' as int + 10];
    }
  }

  /** A longer number: ten or sixteen times the number in front of the last digit, and what that digit is worth. */
  lemma PlaceValue(s: string, c: char)
    requires AllDigits(s, 16) && IsDigit(c, 16)
    ensures Value(s + [c], 16) == 16 * Value(s, 16) + Value([c], 16)
    ensures IsDigit(c, 10) ==> Value(s + [c], 10) == 10 * Value(s, 10) + Value([c], 10)
  {
    hide Value;
    OneDigit(c);
    ValueSnoc(s, c, 16);
    ValueSnoc(s, c, 10);
  }

  function Lower(c: char): char {
    if 'A' <= c <= 'Z' then (c as int + 32) as char else c
  }

  function Upper(c: char): char {
    if 'a' <= c <= 'z' then (c as int - 32) as char else c
  }

  function LowerText(s: string): (r: string)
    ensures |r| == |s| && forall i :: 0 <= i < |s| ==> r[i] == Lower(s[i])
  {
    seq(|s|, i requires 0 <= i < |s| => Lower(s[i]))
  }

  function UpperText(s: string): (r: string)
    ensures |r| == |s| && forall i :: 0 <= i < |s| ==> r[i] == Upper(s[i])
  {
    seq(|s|, i requires 0 <= i < |s| => Upper(s[i]))
  }

  lemma LowerDigit(c: char)
    ensures IsDigit(Lower(c), 16) == IsDigit(c, 16) && IsDigit(Lower(c), 10) == IsDigit(c, 10)
    ensures IsDigit(c, 16) ==> DigitOf(Lower(c)) == DigitOf(c)
    ensures (Lower(c) == ':' <==> c == ':') && (Lower(c) == '.' <==> c == '.')
  {
  }

  lemma {:induction false} LowerRun(s: string, radix: nat)
    requires radix == 10 || radix == 16
    ensures DigitRun(LowerText(s), radix) == DigitRun(s, radix)
    decreases |s|
  {
    if s != "" {
      LowerDigit(s[0]);
      assert LowerText(s)[1..] == LowerText(s[1..]);
      LowerRun(s[1..], radix);
    }
  }

  lemma {:induction false} LowerValue(s: string, radix: nat)
    requires AllDigits(s, 16)
    ensures AllDigits(LowerText(s), 16) && Value(LowerText(s), radix) == Value(s, radix)
    decreases |s|
  {
    forall i | 0 <= i < |s|
      ensures IsDigit(LowerText(s)[i], 16)
    {
      LowerDigit(s[i]);
    }
    if s != "" {
      var front := s[..|s| - 1];
      LowerDigit(s[|s| - 1]);
      LowerValue(front, radix);
      assert LowerText(s)[..|s| - 1] == LowerText(front);
    }
  }

  lemma LowerCut(s: string, k: nat)
    requires k <= |s|
    ensures LowerText(s)[..k] == LowerText(s[..k]) && LowerText(s)[k..] == LowerText(s[k..])
  {
  }

  lemma {:induction false} LowerQuad(seen: seq<byte>, s: string)
    ensures Quad(seen, LowerText(s)) == Quad(seen, s)
    decreases |s|
  {
    hide Value, DigitRun, Quad, LowerText;
    var k := DigitRun(s, 10);
    QuadUnfold(seen, s);
    QuadUnfold(seen, LowerText(s));
    LowerRun(s, 10);
    LowerCut(s, k);
    LowerValue(s[..k], 10);
    if k < |s| {
      LowerDigit(s[k]);
      LowerCut(s, k + 1);
      if s[k] == '.' && Value(s[..k], 10) <= 255 {
        LowerQuad(seen + [Value(s[..k], 10)], s[k + 1..]);
      }
    }
  }

  lemma {:induction false} LowerTokens(before: seq<byte>, gap: Option<nat>, s: string)
    requires |before| <= 16 && (gap.Some? ==> gap.value <= |before|)
    ensures Tokens(before, gap, LowerText(s)) == Tokens(before, gap, s)
    decreases |s|
  {
    hide Value, DigitRun, Quad, Tokens, Finish, LowerText, Group;
    var k := DigitRun(s, 16);
    TokensUnfold(before, gap, s);
    TokensUnfold(before, gap, LowerText(s));
    LowerRun(s, 16);
    LowerCut(s, k);
    LowerValue(s[..k], 16);
    LowerQuad([], s);
    GroupOfTwo(Value(s[..k], 16));
    if k < |s| {
      LowerDigit(s[k]);
      LowerCut(s, k + 1);
      if s[k] == ':' {
        if k > 0 {
          if |before| + 2 <= 16 && Value(s[..k], 16) <= 0xffff {
            LowerTokens(before + Group(Value(s[..k], 16)), gap, s[k + 1..]);
          }
        } else if gap.None? {
          LowerTokens(before, Some(|before|), s[1..]);
        }
      }
    }
  }

  lemma GroupOfTwo(w: nat)
    ensures |Group(w)| == 2
  {
  }

  /** Case does not matter: inet_pton6 makes of any text what it makes of the text in lower case. */
  lemma CaseDoesNotMatter(s: string)
    ensures Pton6(LowerText(s)) == Pton6(s)
  {
    hide Tokens, LowerText;
    LowerTokens([], None, s);
    if s != "" {
      LowerDigit(s[0]);
      LowerCut(s, 1);
      LowerTokens([], None, s[1..]);
      if |s| > 1 {
        LowerDigit(s[1]);
      }
    }
  }

  lemma UpperToLower(s: string)
    ensures LowerText(UpperText(s)) == LowerText(s)
  {
    forall i | 0 <= i < |s|
      ensures LowerText(UpperText(s))[i] == LowerText(s)[i]
    {
    }
  }

  /** The text of any address, printed with upper-case digits, is read back as that address. */
  lemma UpperCaseIsRead(a: seq<byte>, base: int, len: int)
    requires |a| == 16 && (base == -1 || (2 <= len && ZeroRun(Words(a), base, len)))
    ensures Pton6(UpperText(Text(a, base, len))) == Some(a)
  {
    hide Pton6, Text, LowerText, UpperText;
    var t := Text(a, base, len);
    ReadText(a, base, len);
    UpperToLower(t);
    CaseDoesNotMatter(UpperText(t));
    CaseDoesNotMatter(t);
  }
}
