/** inet_ntop6: the longest run of zero words, `::` compression and the embedded dotted quad. */
module Inet6Ntop {
  import opened Common
  import opened Numerals
  import opened Inet4

  /** The size of the scratch buffer: "ffff:ffff:ffff:ffff:ffff:ffff:255.255.255.255" and its NUL. */
  const TMP_SIZE: nat := 46

  /** The words from base on, len of them and at least one, are all zero. */
  ghost predicate ZeroRun(words: seq<nat>, base: int, len: int) {
    0 <= base && 1 <= len && base + len <= |words| && forall k :: base <= k < base + len ==> words[k] == 0
  }

  /** The run that is compressed: the longest, the first among equals, and never a single word (base -1 for none). */
  ghost predicate BestRun(words: seq<nat>, base: int, len: int) {
    if base == -1 then forall b, l :: ZeroRun(words, b, l) ==> l < 2
    else 2 <= len && ZeroRun(words, base, len) && Dominates(words, |words|, base, len)
  }

  /** No run of zero words before limit is longer than (base, len), or as long and further to the left. */
  ghost predicate Dominates(words: seq<nat>, limit: int, base: int, len: int) {
    forall b, l :: ZeroRun(words, b, l) && b + l <= limit ==> l < len || (l == len && base <= b)
  }

  lemma BestRunIsUnique(words: seq<nat>, b1: int, l1: int, b2: int, l2: int)
    requires BestRun(words, b1, l1) && BestRun(words, b2, l2)
    ensures b1 == b2 && (b1 != -1 ==> l1 == l2)
  {
    assert b1 != -1 ==> ZeroRun(words, b1, l1);
    assert b2 != -1 ==> ZeroRun(words, b2, l2);
  }

  /** Hexadecimal groups separated by colons. */
  function Join(ws: seq<nat>): string {
    if ws == [] then ""
    else if |ws| == 1 then Numeral(ws[0], 16)
    else Join(ws[..|ws| - 1]) + ":" + Numeral(ws[|ws| - 1], 16)
  }

  function Word(high: int, low: int): int {
    high * 256 + low
  }

  /** The eight words of an address. */
  function Words(a: seq<byte>): (ws: seq<nat>)
    requires |a| == 16
    ensures |ws| == 8 && forall k :: 0 <= k < 8 ==> ws[k] <= 0xffff
  {
    seq(8, k requires 0 <= k < 8 => Word(a[2 * k], a[2 * k + 1]))
  }

  /** Is the address an IPv4 one behind 96 zero bits, or behind ::ffff? */
  predicate Encapsulated(words: seq<nat>, base: int, len: int)
    requires |words| == 8
  {
    base == 0 && (len == 6 || (len == 5 && words[5] == 0xffff))
  }

  /** The text of an address with the given run compressed. */
  function Text(a: seq<byte>, base: int, len: int): string
    requires |a| == 16 && (base == -1 || (0 <= base && 2 <= len && base + len <= 8))
  {
    var ws := Words(a);
    if base == -1 then Join(ws)
    else if Encapsulated(ws, base, len) then
      "::" + (if len == 6 then "" else Numeral(ws[5], 16) + ":") + Ntop4(a[12..])
    else Join(ws[..base]) + "::" + Join(ws[base + len..])
  }

  lemma JoinSnoc(ws: seq<nat>, w: nat)
    ensures Join(ws + [w]) == (if ws == [] then "" else Join(ws) + ":") + Numeral(w, 16)
  {
    hide Numeral;
    assert (ws + [w])[..|ws|] == ws;
  }

  lemma NonzeroOutside(ws: seq<nat>, b: int, l: int, k: nat)
    requires ZeroRun(ws, b, l) && k < |ws| && ws[k] != 0
    ensures k < b || b + l <= k
  {
  }

  /** A run that ends at a nonzero word, or at the end, competes with the best run before it and with nothing else. */
  lemma RunEnds(ws: seq<nat>, i: int, base: int, len: int, bestBase: int, bestLen: int)
    requires 0 <= base <= base + len == i <= |ws| && (i < |ws| ==> ws[i] != 0) && (base > 0 ==> ws[base - 1] != 0)
    requires forall k :: base <= k < i ==> ws[k] == 0
    requires Dominates(ws, base, bestBase, bestLen) && (bestBase == -1 ==> bestLen == 0)
    requires bestBase < base
    ensures
      var limit := if i < |ws| then i + 1 else i;
      if len > bestLen then Dominates(ws, limit, base, len) else Dominates(ws, limit, bestBase, bestLen)
  {
    forall b, l | ZeroRun(ws, b, l) && b + l <= (if i < |ws| then i + 1 else i)
      ensures b + l <= base || (base <= b && b + l <= i)
    {
      if i < |ws| {
        NonzeroOutside(ws, b, l, i);
      }
      if 0 < base {
        NonzeroOutside(ws, b, l, base - 1);
      }
    }
  }

  /** The scan for the longest run of zero words. */
  method FindBestRun(words: array<nat>) returns (bestBase: int, bestLen: int)
    requires words.Length == 8
    ensures bestBase == -1 || (0 <= bestBase && 2 <= bestLen && bestBase + bestLen <= 8)
    ensures BestRun(words[..], bestBase, bestLen)
  {
    bestBase, bestLen := -1, 0;
    var curBase, curLen, i := -1, 0, 0;
    ghost var ws: seq<nat> := words[..];
    while i < 8
      invariant 0 <= i <= 8 && words[..] == ws
      invariant -1 <= curBase < i || curBase == -1
      invariant curBase != -1 ==> ZeroRun(ws, curBase, curLen) && curBase + curLen == i
      invariant curBase == -1 ==> i == 0 || ws[i - 1] != 0
      invariant curBase > 0 ==> ws[curBase - 1] != 0
      invariant bestBase != -1 ==> ZeroRun(ws, bestBase, bestLen)
      invariant bestBase == -1 ==> bestLen == 0
      invariant bestBase < if curBase == -1 then i else curBase
      invariant Dominates(ws, if curBase == -1 then i else curBase, bestBase, bestLen)
    {
      assert words[i] == ws[i];
      if words[i] == 0 {
        if curBase == -1 {
          curBase, curLen := i, 1;
        } else {
          curLen := curLen + 1;
        }
      } else {
        if curBase != -1 {
          RunEnds(ws, i, curBase, curLen, bestBase, bestLen);
          if bestBase == -1 || curLen > bestLen {
            bestBase, bestLen := curBase, curLen;
          }
          curBase := -1;
        } else {
          RunEnds(ws, i, i, 0, bestBase, bestLen);
        }
      }
      i := i + 1;
    }
    if curBase != -1 {
      RunEnds(ws, 8, curBase, curLen, bestBase, bestLen);
      if bestBase == -1 || curLen > bestLen {
        bestBase, bestLen := curBase, curLen;
      }
    }
    if bestBase != -1 && bestLen < 2 {
      bestBase := -1;
    }
  }

  /** Bytes to words: each octet is shifted into its half of a word that started at zero. */
  method SplitWords(src: seq<byte>) returns (words: array<nat>)
    requires |src| == 16
    ensures fresh(words) && words.Length == 8 && words[..] == Words(src)
  {
    words := new nat[8](_ => 0);
    var i := 0;
    while i < 16
      invariant 0 <= i <= 16
      invariant forall k :: 0 <= k < i / 2 ==> words[k] == Word(src[2 * k], src[2 * k + 1])
      invariant i % 2 == 1 ==> words[i / 2] == Word(src[i - 1], 0)
      invariant forall k :: (i + 1) / 2 <= k < 8 ==> words[k] == 0
    {
      words[i / 2] := words[i / 2] + (if i % 2 == 0 then Word(src[i], 0) else src[i]);
      i := i + 1;
    }
  }

  /** What has been printed before the word at i is dealt with. */
  function Printed(ws: seq<nat>, base: int, len: int, i: nat): string
    requires i <= |ws| && (base == -1 || (0 <= base && 2 <= len && base + len <= |ws|))
  {
    if base == -1 || i <= base then Join(ws[..i])
    else if i <= base + len then Join(ws[..base]) + ":"
    else Join(ws[..base]) + "::" + Join(ws[base + len..i])
  }

  /** Printing one more word, with its colon, extends what has been printed. */
  lemma PrintedStep(ws: seq<nat>, base: int, len: int, i: nat)
    requires i < |ws| && (base == -1 || (0 <= base && 2 <= len && base + len <= |ws|))
    ensures base != -1 && base <= i < base + len ==>
      Printed(ws, base, len, i + 1) == Printed(ws, base, len, i) + (if i == base then ":" else "")
    ensures !(base != -1 && base <= i < base + len) ==>
      Printed(ws, base, len, i + 1) == Printed(ws, base, len, i) + (if i != 0 then ":" else "") + Numeral(ws[i], 16)
  {
    hide Numeral, Join;
    EmptyJoin();
    if base == -1 || i < base {
      assert ws[..i + 1] == ws[..i] + [ws[i]];
      JoinSnoc(ws[..i], ws[i]);
    } else if i >= base + len {
      assert ws[base + len..i + 1] == ws[base + len..i] + [ws[i]];
      JoinSnoc(ws[base + len..i], ws[i]);
    }
  }

  lemma EmptyJoin()
    ensures Join([]) == ""
  {
  }

  lemma NumeralGrows(n: nat, radix: nat)
    requires radix == 10 || radix == 16
    ensures |Numeral(n, radix)| == if n < radix then 1 else 1 + |Numeral(if radix == 10 then n / 10 else n / 16, radix)|
  {
  }

  lemma HexLength(w: nat)
    requires w <= 0xffff
    ensures |Numeral(w, 16)| <= 4
  {
    hide Numeral;
    NumeralGrows(w, 16);
    NumeralGrows(w / 16, 16);
    NumeralGrows(w / 16 / 16, 16);
    NumeralGrows(w / 16 / 16 / 16, 16);
  }

  lemma OctetLength(n: byte)
    ensures |Numeral(n, 10)| <= 3
  {
    hide Numeral;
    NumeralGrows(n, 10);
    NumeralGrows(n / 10, 10);
    NumeralGrows(n / 10 / 10, 10);
  }

  lemma {:induction false} JoinLength(ws: seq<nat>)
    requires forall k :: 0 <= k < |ws| ==> ws[k] <= 0xffff
    ensures |Join(ws)| <= if |ws| == 0 then 0 else 5 * |ws| - 1
  {
    hide Numeral;
    if |ws| > 0 {
      HexLength(ws[|ws| - 1]);
      JoinLength(ws[..|ws| - 1]);
    }
  }

  /** No text is longer than that of eight full groups. */
  lemma TextLength(a: seq<byte>, base: int, len: int)
    requires |a| == 16 && (base == -1 || (0 <= base && 2 <= len && base + len <= 8))
    ensures |Text(a, base, len)| <= 39
  {
    hide Numeral, Join;
    var ws := Words(a);
    JoinLength(ws);
    HexLength(ws[5]);
    OctetLength(a[12]);
    OctetLength(a[13]);
    OctetLength(a[14]);
    OctetLength(a[15]);
    if base != -1 {
      JoinLength(ws[..base]);
      JoinLength(ws[base + len..]);
    }
  }

  /** inet_ntop6, for a destination that is large enough: the text and no more. */
  method InetNtop6(src: seq<byte>) returns (text: string)
    requires |src| == 16
    ensures exists base, len ::
      && (base == -1 || (0 <= base && 2 <= len && base + len <= 8))
      && BestRun(Words(src), base, len) && text == Text(src, base, len)
    ensures |text| + 1 <= TMP_SIZE
  {
    hide Join, Numeral, BestRun, Ntop4;
    var words := SplitWords(src);
    ghost var ws := Words(src);
    var base, len := FindBestRun(words);
    text := "";
    EmptyJoin();
    var i := 0;
    while i < 8
      invariant 0 <= i <= 8 && words[..] == ws
      invariant text == Printed(ws, base, len, i)
      invariant Encapsulated(ws, base, len) ==> i <= 6
    {
      PrintedStep(ws, base, len, i);
      assert words[i] == ws[i] && words[5] == ws[5];
      if base != -1 && base <= i < base + len {
        if i == base {
          text := text + ":";
        }
        i := i + 1;
        continue;
      }
      if i != 0 {
        text := text + ":";
      }
      if i == 6 && base == 0 && (len == 6 || (len == 5 && words[5] == 0xffff)) {
        text := text + Ntop4(src[12..]);
        QuadBehindRun(src, len);
        break;
      }
      text := text + Numeral(words[i], 16);
      i := i + 1;
    }
    if base != -1 && base + len == 8 {
      text := text + ":";
      assert ws[8..] == [];
    }
    if i == 8 {
      assert ws[..8] == ws && (base != -1 ==> ws[base + len..8] == ws[base + len..]);
    }
    assert text == Text(src, base, len);
    TextLength(src, base, len);
  }

  lemma QuadBehindRun(a: seq<byte>, len: int)
    requires |a| == 16 && Encapsulated(Words(a), 0, len)
    ensures Printed(Words(a), 0, len, 6) + ":" + Ntop4(a[12..]) == Text(a, 0, len)
  {
    hide Numeral, Ntop4;
    var ws := Words(a);
    if len == 5 {
      assert ws[5..6] == [ws[5]];
    }
  }
}
