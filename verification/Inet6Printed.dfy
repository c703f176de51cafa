/** What the printed text of an address looks like, said of its fields and of the octets of the address. */
module Inet6Printed {
  import opened Common
  import opened Numerals
  import opened Inet4
  import opened Inet6Pton
  import opened Inet6Ntop
  import opened Inet6RoundTrip
  import opened Inet6Shape
  import opened Inet6Forms
  import opened Inet6Case

  // ----- what a field is worth -----

  /** A group stands for two octets, the high one first. */
  lemma GroupOctets(f: string)
    requires HexField(f)
    ensures |OctetsOf(f)| == 2 && 256 * OctetsOf(f)[0] as int + OctetsOf(f)[1] as int == Value(f, 16)
  {
    hide Value;
    var w := Value(f, 16);
    assert w / 256 % 256 == w / 256;
  }

  lemma {:induction false} OctetsAt(fs: seq<string>, i: nat)
    requires i < |fs|
    ensures |Octets(fs[..i])| + |OctetsOf(fs[i])| <= |Octets(fs)|
    ensures Octets(fs)[|Octets(fs[..i])|..|Octets(fs[..i])| + |OctetsOf(fs[i])|] == OctetsOf(fs[i])
    decreases i
  {
    hide OctetsOf;
    if i == 0 {
      assert fs[..0] == [];
      assert (OctetsOf(fs[0]) + Octets(fs[1..]))[..|OctetsOf(fs[0])|] == OctetsOf(fs[0]);
    } else {
      OctetsAt(fs[1..], i - 1);
      assert fs[..i][1..] == fs[1..][..i - 1];
    }
  }

  /** In an accepted text, every group is found in the octets at the place that the fields before it leave for it. */
  lemma WrittenOctets(s: string, i: nat)
    requires i < |TextFields(s)| && HexField(TextFields(s)[i])
    ensures
      var fs := TextFields(s);
      var o, p := Octets(fs), |Octets(fs[..i])|;
      p + 2 <= |o| && 256 * o[p] as int + o[p + 1] as int == Value(fs[i], 16)
  {
    hide Octets, OctetsOf, HexField, Value, TextFields;
    var fs := TextFields(s);
    var o, p := Octets(fs), |Octets(fs[..i])|;
    OctetsAt(fs, i);
    GroupOctets(fs[i]);
    assert o[p..p + 2][0] == o[p] && o[p..p + 2][1] == o[p + 1];
  }

  // ----- numerals -----

  /** A numeral has no needless leading zero, and its letters are lower case. */
  lemma {:induction false} NumeralIsPlain(n: nat, radix: nat)
    requires radix == 10 || radix == 16
    ensures n > 0 ==> Numeral(n, radix)[0] != '0'
    ensures n == 0 ==> Numeral(n, radix) == "0"
    ensures forall c <- Numeral(n, radix) :: c in LOWER_DIGITS
    decreases n
  {
    if n < radix {
      assert DigitChar(n) == LOWER_DIGITS[n];
    } else if radix == 10 {
      NumeralIsPlain(n / 10, 10);
      assert DigitChar(n % 10) == LOWER_DIGITS[n % 10];
    } else {
      NumeralIsPlain(n / 16, 16);
      assert DigitChar(n % 16) == LOWER_DIGITS[n % 16];
    }
  }

  function Numerals16(ws: seq<nat>): (fs: seq<string>)
    ensures |fs| == |ws| && forall i :: 0 <= i < |ws| ==> fs[i] == Numeral(ws[i], 16)
  {
    seq(|ws|, i requires 0 <= i < |ws| => Numeral(ws[i], 16))
  }

  lemma {:induction false} JoinIsJoinText(ws: seq<nat>)
    ensures Join(ws) == JoinText(Numerals16(ws))
    decreases |ws|
  {
    hide Numeral, Join;
    if |ws| == 0 {
      EmptyJoin();
    } else {
      JoinCons(ws[0], ws[1..]);
      assert ws == [ws[0]] + ws[1..];
      assert Numerals16(ws)[1..] == Numerals16(ws[1..]);
      JoinIsJoinText(ws[1..]);
    }
  }

  lemma ShortNumeral(w: nat)
    requires w <= 0xffff
    ensures ShortGroup(Numeral(w, 16)) && Value(Numeral(w, 16), 16) == w && |OctetsOf(Numeral(w, 16))| == 2
  {
    hide Numeral, Value;
    ValueOfNumeral(w, 16);
    HexLength(w);
    GroupOctets(Numeral(w, 16));
  }

  lemma {:induction false} PrintedGroups(ws: seq<nat>)
    requires Halfwords(ws)
    ensures AllShort(Numerals16(ws)) && Spelled(Numerals16(ws)) && |Octets(Numerals16(ws))| == 2 * |ws|
    decreases |ws|
  {
    hide Numeral, ShortGroup, OctetsOf, DottedField;
    var fs := Numerals16(ws);
    if |ws| > 0 {
      assert ws[0] in ws && forall w <- ws[1..] :: w in ws;
      ShortNumeral(ws[0]);
      PrintedGroups(ws[1..]);
      assert fs[1..] == Numerals16(ws[1..]);
    }
  }

  /** A printed dotted quad. */
  lemma PrintedQuad(q: seq<byte>)
    requires |q| == 4
    ensures DottedField(Ntop4(q)) && !HexField(Ntop4(q)) && OctetsOf(Ntop4(q)) == q && '.' in Ntop4(q)
  {
    hide Numeral, Quad, Fields, AllPlain, Values, Value;
    QuadOfNtop4(q);
    QuadShape([], Ntop4(q));
    assert [] + Values(Fields(Ntop4(q))) == Values(Fields(Ntop4(q)));
    DottedNotHex(Ntop4(q));
    assert Ntop4(q)[|Numeral(q[0], 10)|] == '.';
  }

  // ----- the text -----

  /** The fields in front of `::`, and those behind it. */
  function FrontFields(a: seq<byte>, base: int, len: int): seq<string>
    requires |a| == 16 && 0 <= base && 2 <= len && base + len <= 8
  {
    Numerals16(Words(a)[..base])
  }

  function BackFields(a: seq<byte>, base: int, len: int): seq<string>
    requires |a| == 16 && 0 <= base && 2 <= len && base + len <= 8
  {
    if !Encapsulated(Words(a), base, len) then Numerals16(Words(a)[base + len..])
    else if len == 6 then [Ntop4(a[12..])]
    else [Numeral(Words(a)[5], 16), Ntop4(a[12..])]
  }

  lemma DottedBack(a: seq<byte>, len: int)
    requires |a| == 16 && Encapsulated(Words(a), 0, len)
    ensures Spelled(BackFields(a, 0, len)) && |Octets(BackFields(a, 0, len))| == 16 - 2 * len
    ensures JoinText(BackFields(a, 0, len))
         == (if len == 6 then "" else Numeral(Words(a)[5], 16) + ":") + Ntop4(a[12..])
  {
    hide Numeral, ShortGroup, OctetsOf, DottedField, Ntop4, Words;
    var quad, w := Ntop4(a[12..]), Words(a)[5];
    PrintedQuad(a[12..]);
    ShortNumeral(w);
    assert [quad][1..] == [] && [Numeral(w, 16), quad][1..] == [quad];
    assert Octets([quad]) == OctetsOf(quad) by {
      assert [quad] == [quad] + [];
      OctetsCons(quad, []);
    }
    OctetsCons(Numeral(w, 16), [quad]);
    assert "" + quad == quad;
  }

  lemma PrintedWithGap(a: seq<byte>, base: int, len: int)
    requires |a| == 16 && 0 <= base && 2 <= len && base + len <= 8
    ensures
      var us, vs := FrontFields(a, base, len), BackFields(a, base, len);
      && GapForm(Text(a, base, len), us, vs) && |Octets(us)| == 2 * base && |Octets(us)| + |Octets(vs)| == 16 - 2 * len
  {
    hide Numeral, Octets, Spelled, AllShort, Join, JoinText, Words, Ntop4;
    var ws := Words(a);
    WordsAreHalfwords(a);
    assert ws[0..base] == ws[..base] && ws[base + len..8] == ws[base + len..];
    PrintedGroups(ws[..base]);
    JoinIsJoinText(ws[..base]);
    if Encapsulated(ws, base, len) {
      DottedBack(a, len);
      assert ws[..0] == [];
      EmptyJoin();
      assert "" + "::" + JoinText(BackFields(a, base, len)) == "::" + JoinText(BackFields(a, base, len));
      var five := if len == 6 then "" else Numeral(ws[5], 16) + ":";
      assert "::" + (five + Ntop4(a[12..])) == "::" + five + Ntop4(a[12..]);
    } else {
      PrintedGroups(ws[base + len..]);
      JoinIsJoinText(ws[base + len..]);
    }
  }

  lemma PrintedWithoutGap(a: seq<byte>)
    requires |a| == 16
    ensures FullForm(Text(a, -1, 0), Numerals16(Words(a)))
  {
    hide Numeral, Octets, Spelled, AllShort, Join, JoinText, Words;
    WordsAreHalfwords(a);
    assert Words(a)[0..8] == Words(a);
    PrintedGroups(Words(a));
    JoinIsJoinText(Words(a));
  }

  /** Two adjacent words of the address are zero. */
  predicate ZeroPairAt(a: seq<byte>, k: nat)
    requires |a| == 16 && k < 7
  {
    a[2 * k] == a[2 * k + 1] == a[2 * k + 2] == a[2 * k + 3] == 0
  }

  lemma ZeroWord(a: seq<byte>, k: nat)
    requires |a| == 16 && k < 8
    ensures Words(a)[k] == 0 <==> a[2 * k] == a[2 * k + 1] == 0
  {
  }

  lemma PairIsRun(a: seq<byte>, k: nat)
    requires |a| == 16 && k < 7
    ensures ZeroPairAt(a, k) <==> ZeroRun(Words(a), k, 2)
  {
    ZeroWord(a, k);
    ZeroWord(a, k + 1);
  }

  lemma RunOfTwo(a: seq<byte>, base: int, len: int)
    requires |a| == 16 && BestRun(Words(a), base, len)
    ensures base != -1 <==> exists k :: 0 <= k < 7 && ZeroPairAt(a, k)
  {
    hide Words;
    forall k | 0 <= k < 7
      ensures ZeroPairAt(a, k) <==> ZeroRun(Words(a), k, 2)
    {
      PairIsRun(a, k);
    }
    if base != -1 {
      assert ZeroRun(Words(a), base, 2);
      assert ZeroPairAt(a, base);
    }
  }

  /** l words from word b on are zero, at least two of them. */
  predicate ZeroOctets(a: seq<byte>, b: nat, l: nat)
    requires |a| == 16
  {
    2 <= l && b + l <= 8 && forall i :: 2 * b <= i < 2 * (b + l) ==> a[i] == 0
  }

  lemma OctetsOfRun(a: seq<byte>, b: nat, l: nat)
    requires |a| == 16 && b + l <= 8 && 2 <= l
    ensures ZeroOctets(a, b, l) <==> ZeroRun(Words(a), b, l)
  {
    hide Words;
    forall k | b <= k < b + l
      ensures Words(a)[k] == 0 <==> a[2 * k] == a[2 * k + 1] == 0
    {
      ZeroWord(a, k);
    }
    if ZeroRun(Words(a), b, l) {
      forall i | 2 * b <= i < 2 * (b + l)
        ensures a[i] == 0
      {
        assert Words(a)[i / 2] == 0 && (i == 2 * (i / 2) || i == 2 * (i / 2) + 1);
      }
    }
  }

  /** The run that is compressed, said of the octets: two zero words or more, no other run is longer, and none that is
      as long is further to the left. */
  lemma BestRunOctets(a: seq<byte>, base: int, len: int)
    requires |a| == 16 && BestRun(Words(a), base, len)
    ensures base != -1 ==> 0 <= base && 2 <= len && ZeroOctets(a, base, len)
    ensures forall b: nat, l: nat :: ZeroOctets(a, b, l) ==> base != -1 && (l < len || (l == len && base <= b))
  {
    hide Words, ZeroOctets;
    if base != -1 {
      OctetsOfRun(a, base, len);
    }
    forall b: nat, l: nat | ZeroOctets(a, b, l)
      ensures base != -1 && (l < len || (l == len && base <= b))
    {
      RunInBounds(a, b, l);
      OctetsOfRun(a, b, l);
    }
  }

  lemma RunInBounds(a: seq<byte>, b: nat, l: nat)
    requires |a| == 16 && ZeroOctets(a, b, l)
    ensures 2 <= l && b + l <= 8
  {
  }

  /** The printed text of every address is one of the text forms of section 2.2 of RFC 1884. It has `::` exactly when
      two adjacent words are zero; then the octets written out are all but those of the best run, and those in front of
      `::` are the ones before it. */
  lemma PrintedText(a: seq<byte>, base: int, len: int)
    requires |a| == 16 && (base == -1 || (0 <= base && 2 <= len && base + len <= 8)) && BestRun(Words(a), base, len)
    ensures
      var t := Text(a, base, len);
      var fs := TextFields(t);
      && TextForm(t)
      && (Gaps(fs) == 1 <==> exists k :: 0 <= k < 7 && ZeroPairAt(a, k)) && Gaps(fs) <= 1
      && |Octets(fs)| == (if base == -1 then 16 else 16 - 2 * len) && (base != -1 ==> BeforeGap(fs) == 2 * base)
  {
    hide Numeral, Octets, Spelled, AllShort, Join, JoinText, Words, Ntop4, Text, TextFields, BestRun, WellFormed, Gaps,
         BeforeGap, LongGroup, LoneColon, FrontFields, BackFields;
    RunOfTwo(a, base, len);
    var t := Text(a, base, len);
    if base == -1 {
      PrintedWithoutGap(a);
      SameTextWithout(a, len);
      FullFormFields(t, Numerals16(Words(a)));
      SpelledFields(Numerals16(Words(a)));
    } else {
      var us, vs := FrontFields(a, base, len), BackFields(a, base, len);
      PrintedWithGap(a, base, len);
      GapFormFields(t, us, vs);
      GapFieldsShape(us, vs);
    }
  }

  lemma SameTextWithout(a: seq<byte>, len: int)
    requires |a| == 16
    ensures Text(a, -1, len) == Text(a, -1, 0)
  {
  }

  // ----- the dotted quad -----

  /** An IPv4 address behind 96 zero bits that are not 112, or behind ::ffff. */
  predicate HoldsIPv4(a: seq<byte>)
    requires |a| == 16
  {
    && (forall k :: 0 <= k < 10 ==> a[k] == 0)
    && ((a[10] == a[11] == 255) || (a[10] == a[11] == 0 && !(a[12] == a[13] == 0)))
  }

  lemma HoldsIPv4Words(a: seq<byte>)
    requires |a| == 16
    ensures
      var ws := Words(a);
      HoldsIPv4(a) <==> (forall k :: 0 <= k < 5 ==> ws[k] == 0) && (ws[5] == 0xffff || (ws[5] == 0 && ws[6] != 0))
  {
    forall k | 0 <= k < 8
      ensures Words(a)[k] == 256 * a[2 * k] as int + a[2 * k + 1] as int
    {
    }
    if forall k :: 0 <= k < 5 ==> Words(a)[k] == 0 {
      forall k | 0 <= k < 10
        ensures a[k] == 0
      {
        assert Words(a)[k / 2] == 0 && (k == 2 * (k / 2) || k == 2 * (k / 2) + 1);
      }
    }
    assert Words(a)[5] == 0xffff <==> a[10] == a[11] == 255;
  }

  lemma LongerRun(ws: seq<nat>, n: nat)
    requires n < |ws|
    ensures ZeroRun(ws, 0, n) && ws[n] == 0 ==> ZeroRun(ws, 0, n + 1)
  {
  }

  lemma EncapsulatedMeans(a: seq<byte>, base: int, len: int)
    requires |a| == 16 && (base == -1 || (0 <= base && 2 <= len && base + len <= 8)) && BestRun(Words(a), base, len)
    ensures base != -1 && Encapsulated(Words(a), base, len) <==> HoldsIPv4(a)
    ensures HoldsIPv4(a) ==> base == 0 && (len == 6 <==> a[10] == 0)
  {
    hide Words;
    var ws := Words(a);
    HoldsIPv4Words(a);
    WordFive(a);
    LongerRun(ws, 6);
    if HoldsIPv4(a) {
      var n := if ws[5] == 0 then 6 else 5;
      assert ZeroRun(ws, 0, n);
      LeadingRunIsBest(ws, n);
      BestRunIsUnique(ws, base, len, 0, n);
    }
  }

  lemma WordFive(a: seq<byte>)
    requires |a| == 16
    ensures Words(a)[5] == 256 * a[10] as int + a[11] as int
  {
  }

  /** A run of five or six zero words at the front, and no longer, is the best one of eight. */
  lemma LeadingRunIsBest(ws: seq<nat>, n: nat)
    requires |ws| == 8 && 5 <= n <= 6 && ZeroRun(ws, 0, n) && ws[n] != 0
    ensures BestRun(ws, 0, n)
  {
    forall b, l | ZeroRun(ws, b, l) && b + l <= 8
      ensures l < n || (l == n && 0 <= b)
    {
      NonzeroOutside(ws, b, l, n);
    }
  }

  lemma {:induction false} NoDotInJoin(ws: seq<nat>)
    ensures '.' !in Join(ws)
    decreases |ws|
  {
    hide Numeral;
    if |ws| > 0 {
      NoDotInNumeral(ws[|ws| - 1]);
      NoDotInJoin(ws[..|ws| - 1]);
    }
  }

  lemma NoDotInNumeral(w: nat)
    ensures '.' !in Numeral(w, 16)
  {
    hide Numeral;
    var d := Numeral(w, 16);
    assert forall i :: 0 <= i < |d| ==> IsDigit(d[i], 16);
  }

  /** The last four octets are printed in dotted form exactly behind 96 zero bits that do not run on, and behind ::ffff;
      and then the text is the dotted quad behind `::` or `::ffff:`. */
  lemma DottedExactly(a: seq<byte>, base: int, len: int)
    requires |a| == 16 && (base == -1 || (0 <= base && 2 <= len && base + len <= 8)) && BestRun(Words(a), base, len)
    ensures '.' in Text(a, base, len) <==> HoldsIPv4(a)
    ensures HoldsIPv4(a) ==> Text(a, base, len) == (if a[10] == 0 then "::" else "::ffff:") + Ntop4(a[12..])
  {
    hide Numeral, Join, Ntop4, BestRun, Words, HoldsIPv4;
    var ws := Words(a);
    EncapsulatedMeans(a, base, len);
    PrintedQuad(a[12..]);
    NoDotInJoin(ws);
    if base != -1 {
      NoDotInJoin(ws[..base]);
      NoDotInJoin(ws[base + len..]);
    }
    AllOnes();
    if HoldsIPv4(a) {
      HoldsIPv4Words(a);
      WordFive(a);
    }
  }

  lemma AllOnes()
    ensures Numeral(0xffff, 16) == "ffff"
  {
    assert Numeral(0xf, 16) == "f";
    assert Numeral(0xff, 16) == "f" + "f";
    assert Numeral(0xfff, 16) == "ff" + "f";
    assert Numeral(0xffff, 16) == "fff" + "f";
  }
}
