/** inet_pton6 reads back exactly the address that inet_ntop6 printed, for every address. */
module Inet6RoundTrip {
  import opened Common
  import opened Numerals
  import opened Inet4
  import opened Inet6Pton
  import opened Inet6Ntop

  function Groups(ws: seq<nat>): (r: seq<byte>)
    ensures |r| == 2 * |ws|
  {
    if ws == [] then [] else Group(ws[0]) + Groups(ws[1..])
  }

  ghost predicate Halfwords(ws: seq<nat>) {
    forall w :: w in ws ==> w <= 0xffff
  }

  /** One printed group, behind which comes the end or a colon. */
  lemma ReadGroup(before: seq<byte>, gap: Option<nat>, w: nat, rest: string)
    requires |before| + 2 <= 16 && (gap.Some? ==> gap.value <= |before|) && w <= 0xffff
    requires rest == "" || rest[0] == ':'
    ensures Tokens(before, gap, Numeral(w, 16) + rest) ==
      if rest == "" then Finish(before + Group(w), gap) else Tokens(before + Group(w), gap, rest[1..])
  {
    hide Value, DigitRun, Tokens, Numeral, Finish;
    var d := Numeral(w, 16);
    TokensUnfold(before, gap, d + rest);
    RunOfToken(d, rest, 16);
    ValueOfNumeral(w, 16);
    if rest != "" {
      assert (d + rest)[|d| + 1..] == rest[1..];
    }
  }

  lemma {:induction false} JoinCons(w: nat, ws: seq<nat>)
    ensures Join([w] + ws) == Numeral(w, 16) + (if ws == [] then "" else ":" + Join(ws))
    decreases |ws|
  {
    hide Numeral, Join;
    if ws == [] {
      assert [w] + ws == [] + [w];
      JoinSnoc([], w);
    } else {
      var front, last := ws[..|ws| - 1], ws[|ws| - 1];
      JoinCons(w, front);
      assert ws == front + [last];
      JoinSnoc(front, last);
      JoinSnoc([w] + front, last);
      assert [w] + front + [last] == [w] + ws;
      assert front == [] ==> Join(ws) == Numeral(last, 16);
    }
  }

  /** Printed groups, behind which comes the end or a colon. */
  lemma {:induction false} ReadGroups(before: seq<byte>, gap: Option<nat>, ws: seq<nat>, rest: string)
    requires |before| + 2 * |ws| <= 16 && (gap.Some? ==> gap.value <= |before|) && Halfwords(ws) && ws != []
    requires rest == "" || rest[0] == ':'
    ensures Tokens(before, gap, Join(ws) + rest) ==
      if rest == "" then Finish(before + Groups(ws), gap) else Tokens(before + Groups(ws), gap, rest[1..])
    decreases |ws|
  {
    hide Value, DigitRun, Tokens, Numeral, Finish, Join;
    var w, more := ws[0], ws[1..];
    assert ws == [w] + more;
    assert w in ws && forall x :: x in more ==> x in ws;
    JoinCons(w, more);
    if more == [] {
      assert Join(ws) + rest == Numeral(w, 16) + rest;
      ReadGroup(before, gap, w, rest);
      assert Groups(ws) == Group(w) + [] == Group(w);
    } else {
      var tail := ":" + (Join(more) + rest);
      assert Join(ws) + rest == Numeral(w, 16) + tail;
      assert tail[1..] == Join(more) + rest;
      ReadGroup(before, gap, w, tail);
      ReadGroups(before + Group(w), gap, more, rest);
      assert before + Group(w) + Groups(more) == before + (Group(w) + Groups(more));
    }
  }

  /** Nothing, or printed groups, up to the end of the text behind `::`. */
  lemma ReadBehindGap(before: seq<byte>, gap: nat, ws: seq<nat>)
    requires |before| + 2 * |ws| <= 16 && gap <= |before| && Halfwords(ws)
    ensures Tokens(before, Some(gap), Join(ws)) == Finish(before + Groups(ws), Some(gap))
  {
    hide Finish, Numeral;
    if ws == [] {
      TokensUnfold(before, Some(gap), "");
      assert before + [] == before;
    } else {
      assert Join(ws) + "" == Join(ws);
      ReadGroups(before, Some(gap), ws, "");
    }
  }

  /** The second colon of `::`. */
  lemma ReadGap(before: seq<byte>, rest: string)
    requires |before| <= 16
    ensures Tokens(before, None, ":" + rest) == Tokens(before, Some(|before|), rest)
  {
    hide Tokens;
    TokensUnfold(before, None, ":" + rest);
    assert (":" + rest)[1..] == rest;
  }

  /** A printed dotted quad at the end of the text. */
  lemma ReadQuad(before: seq<byte>, gap: Option<nat>, a: seq<byte>)
    requires |before| <= 12 && (gap.Some? ==> gap.value <= |before|) && |a| == 4
    ensures Tokens(before, gap, Ntop4(a)) == Finish(before + a, gap)
  {
    hide Value, DigitRun, Tokens, Numeral, Finish, Quad, Ntop4;
    QuadOfNtop4(a);
    Ntop4Nested(a);
    var d := Numeral(a[0], 10);
    var rest := "." + (Numeral(a[1], 10) + ("." + (Numeral(a[2], 10) + ("." + Numeral(a[3], 10)))));
    DecimalAsHex(a[0]);
    RunOfToken(d, rest, 16);
    TokensUnfold(before, gap, Ntop4(a));
  }

  /** Printed text starts with a digit unless it starts with `::`. */
  lemma {:induction false} JoinStartsWithDigit(ws: seq<nat>)
    requires ws != []
    ensures Join(ws) != "" && IsDigit(Join(ws)[0], 16)
  {
    hide Numeral;
    JoinCons(ws[0], ws[1..]);
    assert ws == [ws[0]] + ws[1..];
  }

  lemma {:induction false} GroupsConcat(us: seq<nat>, vs: seq<nat>)
    ensures Groups(us + vs) == Groups(us) + Groups(vs)
  {
    if us == [] {
      assert us + vs == vs;
    } else {
      assert (us + vs)[1..] == us[1..] + vs;
      GroupsConcat(us[1..], vs);
    }
  }

  lemma {:induction false} GroupsOfZeros(ws: seq<nat>)
    requires forall k :: 0 <= k < |ws| ==> ws[k] == 0
    ensures Groups(ws) == Zeros(2 * |ws|)
  {
    if ws != [] {
      GroupsOfZeros(ws[1..]);
    }
  }

  lemma {:induction false} GroupsAt(ws: seq<nat>, k: nat)
    requires k < |ws|
    ensures Groups(ws)[2 * k] == Group(ws[k])[0] && Groups(ws)[2 * k + 1] == Group(ws[k])[1]
  {
    hide Group;
    if k == 0 {
      assert |Group(ws[0])| == 2 by {
        GroupLength(ws[0]);
      }
    } else {
      GroupLength(ws[0]);
      GroupsAt(ws[1..], k - 1);
    }
  }

  lemma GroupLength(w: nat)
    ensures |Group(w)| == 2
  {
  }

  lemma WordOctets(a: seq<byte>, k: nat)
    requires |a| == 16 && k < 8
    ensures Group(Words(a)[k])[0] == a[2 * k] && Group(Words(a)[k])[1] == a[2 * k + 1]
  {
    var high, low := a[2 * k], a[2 * k + 1];
    assert Words(a)[k] == high as int * 256 + low;
    HighOctet(high, low);
  }

  lemma HighOctet(high: byte, low: byte)
    ensures (high as int * 256 + low) / 256 % 256 == high && (high as int * 256 + low) % 256 == low
  {
  }

  /** The octets of an address are those of its words. */
  lemma GroupsOfWords(a: seq<byte>)
    requires |a| == 16
    ensures Groups(Words(a)) == a
  {
    hide Groups, Group, Words;
    var ws := Words(a);
    forall i | 0 <= i < 16
      ensures Groups(ws)[i] == a[i]
    {
      var k := i / 2;
      assert i == 2 * k || i == 2 * k + 1;
      GroupsAt(ws, k);
      WordOctets(a, k);
    }
  }

  /** Text with `::` in it: the groups on either side, with zeros between them. */
  lemma ReadCompressed(us: seq<nat>, vs: seq<nat>)
    requires |us| + |vs| <= 8 && Halfwords(us) && Halfwords(vs)
    ensures Pton6(Join(us) + "::" + Join(vs)) == Finish(Groups(us) + Groups(vs), Some(2 * |us|))
  {
    if us == [] {
      ReadLeadingGap(vs);
      EmptyJoin();
      NoGroups(us);
      assert "" + "::" + Join(vs) == "::" + Join(vs) && [] + Groups(vs) == Groups(vs);
    } else {
      ReadInnerGap(us, vs);
    }
  }

  lemma ReadLeadingGap(vs: seq<nat>)
    requires |vs| <= 8 && Halfwords(vs)
    ensures Pton6("::" + Join(vs)) == Finish(Groups(vs), Some(0))
  {
    hide Tokens, Finish, Join, Numeral, Groups;
    var text := "::" + Join(vs);
    assert text[1..] == ":" + Join(vs) && [] + Groups(vs) == Groups(vs);
    ReadGap([], Join(vs));
    ReadBehindGap([], 0, vs);
  }

  lemma ReadInnerGap(us: seq<nat>, vs: seq<nat>)
    requires us != [] && |us| + |vs| <= 8 && Halfwords(us) && Halfwords(vs)
    ensures Pton6(Join(us) + "::" + Join(vs)) == Finish(Groups(us) + Groups(vs), Some(2 * |us|))
  {
    hide Tokens, Finish, Join, Numeral, Groups, Halfwords;
    var gap := ":" + Join(vs);
    JoinStartsWithDigit(us);
    assert Join(us) + "::" + Join(vs) == Join(us) + (":" + gap) && (":" + gap)[1..] == gap;
    assert [] + Groups(us) == Groups(us);
    ReadGroups([], None, us, ":" + gap);
    ReadGap(Groups(us), Join(vs));
    ReadBehindGap(Groups(us), 2 * |us|, vs);
  }

  lemma NoGroups(ws: seq<nat>)
    requires ws == []
    ensures Groups(ws) == []
  {
  }

  /** Zero words between two groups of words are what `::` stands for. */
  lemma FinishRestores(us: seq<nat>, vs: seq<nat>, a: seq<byte>, base: nat, len: nat)
    requires |a| == 16 && 1 <= len && base + len <= 8 && ZeroRun(Words(a), base, len)
    requires us == Words(a)[..base] && vs == Words(a)[base + len..]
    ensures Finish(Groups(us) + Groups(vs), Some(2 * |us|)) == Some(a)
  {
    hide Groups, Words, Finish, Zeros;
    AroundRun(us, Words(a)[base..base + len], vs, a);
    FinishParts(Groups(us), Groups(vs), 2 * len);
  }

  lemma AroundRun(us: seq<nat>, zs: seq<nat>, vs: seq<nat>, a: seq<byte>)
    requires |a| == 16 && Words(a) == us + zs + vs && forall k :: 0 <= k < |zs| ==> zs[k] == 0
    ensures a == Groups(us) + (Zeros(2 * |zs|) + Groups(vs))
  {
    hide Groups, Words, Zeros;
    assert us + zs + vs == us + (zs + vs);
    GroupsConcat(us, zs + vs);
    GroupsConcat(zs, vs);
    GroupsOfZeros(zs);
    GroupsOfWords(a);
  }

  lemma FinishParts(left: seq<byte>, right: seq<byte>, zeros: nat)
    requires 1 <= zeros && |left| + zeros + |right| == 16
    ensures Finish(left + right, Some(|left|)) == Some(left + (Zeros(zeros) + right))
  {
    assert (left + right)[..|left|] == left && (left + right)[|left|..] == right;
    assert left + Zeros(zeros) + right == left + (Zeros(zeros) + right);
  }

  lemma WordsAreHalfwords(a: seq<byte>)
    requires |a| == 16
    ensures Halfwords(Words(a)) && forall i, j :: 0 <= i <= j <= 8 ==> Halfwords(Words(a)[i..j])
  {
  }

  /** The embedded dotted quad: ::a.b.c.d and ::ffff:a.b.c.d. */
  lemma ReadEncapsulated(a: seq<byte>, len: nat)
    requires |a| == 16 && ZeroRun(Words(a), 0, len) && Encapsulated(Words(a), 0, len)
    ensures Pton6(Text(a, 0, len)) == Some(a)
  {
    hide Tokens, Finish, Numeral, Groups, Ntop4, Words;
    var ws := Words(a);
    var quad := Ntop4(a[12..]);
    GroupsOfWords(a);
    QuadAsGroups(a);
    FinishRestores([], ws[len..], a, 0, len);
    NoGroups([]);
    if len == 6 {
      assert Text(a, 0, len)[1..] == ":" + quad;
      ReadGap([], quad);
      ReadQuad([], Some(0), a[12..]);
      assert [] + a[12..] == [] + Groups(ws[6..]);
    } else {
      var behind := Numeral(ws[5], 16) + (":" + quad);
      assert Text(a, 0, len)[1..] == ":" + behind;
      assert (":" + quad)[1..] == quad;
      ReadGap([], behind);
      ReadGroup([], Some(0), ws[5], ":" + quad);
      ReadQuad([] + Group(ws[5]), Some(0), a[12..]);
      assert ws[5..] == [ws[5]] + ws[6..];
      GroupsConcat([ws[5]], ws[6..]);
      OneGroup(ws[5]);
      assert [] + Group(ws[5]) + a[12..] == [] + Groups(ws[5..]);
    }
  }

  lemma OneGroup(w: nat)
    ensures Groups([w]) == Group(w)
  {
    assert [w][1..] == [];
  }

  lemma QuadAsGroups(a: seq<byte>)
    requires |a| == 16
    ensures a[12..] == Groups(Words(a)[6..])
  {
    hide Groups;
    var ws := Words(a);
    GroupsOfWords(a);
    assert ws == ws[..6] + ws[6..];
    GroupsConcat(ws[..6], ws[6..]);
    assert Groups(ws)[12..] == Groups(ws[6..]);
  }

  /** Whatever run of at least two zero words is compressed, or none, the text is read back as the address. */
  lemma ReadText(a: seq<byte>, base: int, len: int)
    requires |a| == 16 && (base == -1 || (2 <= len && ZeroRun(Words(a), base, len)))
    ensures Pton6(Text(a, base, len)) == Some(a)
  {
    hide Tokens, Finish, Numeral, Groups, Join, Ntop4, Words;
    var ws := Words(a);
    WordsAreHalfwords(a);
    if base == -1 {
      JoinStartsWithDigit(ws);
      assert Join(ws) + "" == Join(ws) && ws[0..8] == ws;
      ReadGroups([], None, ws, "");
      GroupsOfWords(a);
      assert [] + a == a;
      assert Finish(a, None) == Some(a) by {
        FinishFull(a);
      }
    } else if Encapsulated(ws, base, len) {
      ReadEncapsulated(a, len);
    } else {
      assert ws[0..base] == ws[..base] && ws[base + len..8] == ws[base + len..];
      ReadCompressed(ws[..base], ws[base + len..]);
      FinishRestores(ws[..base], ws[base + len..], a, base, len);
    }
  }

  lemma FinishFull(a: seq<byte>)
    requires |a| == 16
    ensures Finish(a, None) == Some(a)
  {
  }

  /** Printing into text and parsing the text into dst stores the very address, for all 2^128 of them. */
  method RoundTrip(src: seq<byte>, dst: array<byte>) returns (ok: bool)
    requires |src| == 16 && dst.Length == 16
    modifies dst
    ensures ok && dst[..] == src
  {
    hide Text, Pton6;
    var text := InetNtop6(src);
    ghost var base, len :|
      && (base == -1 || (0 <= base && 2 <= len && base + len <= 8))
      && BestRun(Words(src), base, len) && text == Text(src, base, len);
    ReadText(src, base, len);
    ok := InetPton6(text, dst);
  }

  /** Distinct addresses are printed differently. */
  lemma PrintingIsInjective(a1: seq<byte>, b1: int, l1: int, a2: seq<byte>, b2: int, l2: int)
    requires |a1| == |a2| == 16
    requires b1 == -1 || (2 <= l1 && ZeroRun(Words(a1), b1, l1))
    requires b2 == -1 || (2 <= l2 && ZeroRun(Words(a2), b2, l2))
    ensures Text(a1, b1, l1) == Text(a2, b2, l2) ==> a1 == a2
  {
    hide Text, Pton6, Words;
    ReadText(a1, b1, l1);
    ReadText(a2, b2, l2);
  }
}
