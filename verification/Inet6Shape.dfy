/** The texts inet_pton6 accepts, and what they denote, said of the fields between the colons. */
module Inet6Shape {
  import opened Common
  import opened Numerals
  import opened Inet4
  import opened Inet6Pton

  /** s cut at its colons. */
  function ColonFields(s: string): (fs: seq<string>)
    ensures |fs| > 0
    decreases |s|
  {
    var k := FirstColon(s);
    if k < |s| then [s[..k]] + ColonFields(s[k + 1..]) else [s]
  }

  function FirstColon(s: string): (k: nat)
    ensures k <= |s| && ':' !in s[..k] && (k < |s| ==> s[k] == ':')
  {
    if |s| == 0 || s[0] == ':' then 0 else 1 + FirstColon(s[1..])
  }

  /** Hexadecimal digits, any number of them, that denote at most 16 bits. */
  predicate HexField(f: string) {
    f != "" && AllDigits(f, 16) && Value(f, 16) <= 0xffff
  }

  /** Four dotted decimal fields of at most 255 each. */
  predicate DottedField(f: string) {
    |Fields(f)| == 4 && AllPlain(Fields(f))
  }

  /** Every field is empty or a group; the last one may be a dotted quad. */
  predicate WellFormed(fs: seq<string>)
    requires |fs| > 0
  {
    if |fs| == 1 then fs[0] == "" || HexField(fs[0]) || DottedField(fs[0])
    else (fs[0] == "" || HexField(fs[0])) && WellFormed(fs[1..])
  }

  /** How many fields before the last are empty. */
  function Gaps(fs: seq<string>): nat {
    if |fs| <= 1 then 0 else (if fs[0] == "" then 1 else 0) + Gaps(fs[1..])
  }

  function OctetsOf(f: string): seq<byte> {
    if HexField(f) then Group(Value(f, 16)) else if DottedField(f) then Values(Fields(f)) else []
  }

  /** The octets written out. */
  function Octets(fs: seq<string>): seq<byte> {
    if |fs| == 0 then [] else OctetsOf(fs[0]) + Octets(fs[1..])
  }

  /** The octets written out before the first empty field. */
  function BeforeGap(fs: seq<string>): (n: nat)
    ensures n <= |Octets(fs)|
  {
    if |fs| <= 1 || fs[0] == "" then 0 else |OctetsOf(fs[0])| + BeforeGap(fs[1..])
  }

  lemma {:induction false} ColonFieldsCut(s: string)
    ensures var k := FirstColon(s);
      ColonFields(s) == if k < |s| then [s[..k]] + ColonFields(s[k + 1..]) else [s]
  {
  }

  lemma WellFormedCons(f: string, fs: seq<string>)
    requires |fs| > 0
    ensures WellFormed([f] + fs) <==> (f == "" || HexField(f)) && WellFormed(fs)
    ensures Gaps([f] + fs) == (if f == "" then 1 else 0) + Gaps(fs)
    ensures Octets([f] + fs) == OctetsOf(f) + Octets(fs)
    ensures BeforeGap([f] + fs) == if f == "" then 0 else |OctetsOf(f)| + BeforeGap(fs)
  {
    hide HexField, DottedField, OctetsOf;
    assert ([f] + fs)[1..] == fs;
  }

  lemma LastField(f: string)
    ensures WellFormed([f]) <==> f == "" || HexField(f) || DottedField(f)
    ensures Gaps([f]) == 0 && Octets([f]) == OctetsOf(f) && BeforeGap([f]) == 0
  {
    hide HexField, DottedField, OctetsOf;
    assert [f][1..] == [];
    assert OctetsOf(f) + [] == OctetsOf(f);
  }

  /** The run of hexadecimal digits stays within the first field. */
  lemma {:induction false} FirstColonAfterRun(s: string)
    ensures DigitRun(s, 16) <= FirstColon(s)
    ensures DigitRun(s, 16) < FirstColon(s) <==> DigitRun(s, 16) < |s| && s[DigitRun(s, 16)] != ':'
    decreases |s|
  {
    if |s| > 0 && IsDigit(s[0], 16) {
      FirstColonAfterRun(s[1..]);
    }
  }

  /** A decimal number of at most 255 is at most 0x999 when its digits are read as hexadecimal ones. */
  lemma {:induction false} DecimalRun(d: string)
    requires AllDigits(d, 10)
    ensures AllDigits(d, 16)
    ensures Value(d, 10) <= 999 ==> Value(d, 16) <= 0x999
    ensures Value(d, 10) <= 99 ==> Value(d, 16) <= 0x99
    ensures Value(d, 10) <= 9 ==> Value(d, 16) <= 9
    ensures Value(d, 10) == 0 ==> Value(d, 16) == 0
    decreases |d|
  {
    if |d| > 0 {
      var front := d[..|d| - 1];
      DecimalRun(front);
      assert Value(d, 10) == Value(front, 10) * 10 + DigitOf(d[|d| - 1]);
      assert Value(d, 16) == Value(front, 16) * 16 + DigitOf(d[|d| - 1]);
    }
  }

  /** A dotted quad starts with a decimal number that ends at a dot. */
  lemma DottedStart(f: string)
    requires DottedField(f)
    ensures var k := DigitRun(f, 16);
      0 < k < |f| && f[k] == '.' && Value(f[..k], 16) <= 0xffff && !HexField(f)
  {
    hide Value, DigitRun, FirstDot, Fields;
    FieldsCut(f);
    var d := FirstDot(f);
    assert Fields(f)[0] == f[..d] && Fields(f)[0] in Fields(f) && PlainField(f[..d]);
    assert f == f[..d] + f[d..];
    DecimalRun(f[..d]);
    RunOfToken(f[..d], f[d..], 16);
  }

  /** What a well-formed text denotes behind the octets already read. */
  function Denoted(before: seq<byte>, gap: Option<nat>, fs: seq<string>): Option<seq<byte>>
    requires |before| <= 16 && (gap.Some? ==> gap.value <= |before|) && |fs| > 0
  {
    var octets := before + Octets(fs);
    var gap' := if gap.Some? then gap else if Gaps(fs) > 0 then Some(|before| + BeforeGap(fs)) else None;
    if WellFormed(fs) && Gaps(fs) + (if gap.Some? then 1 else 0) <= 1 && |octets| <= 16 then Finish(octets, gap')
    else None
  }

  /** The characters of plain fields and the dots between them. */
  lemma {:induction false} PlainCharacters(s: string)
    requires AllPlain(Fields(s))
    ensures ':' !in s
    decreases |s|
  {
    hide Value, FirstDot, Fields, AllPlain, Values;
    FieldsCut(s);
    var d := FirstDot(s);
    var front := s[..d];
    PlainCons(front, Fields(s)[1..]);
    assert AllDigits(front, 10) && ':' !in front;
    if d < |s| {
      PlainCharacters(s[d + 1..]);
      assert s == front + ['.'] + s[d + 1..];
    } else {
      assert front == s;
    }
  }

  lemma EmptyField()
    ensures !HexField("") && !DottedField("") && OctetsOf("") == []
  {
    FieldsCut("");
  }

  /** What the first field is, from the digits it starts with. */
  lemma FirstFieldIs(s: string)
    ensures var k, c := DigitRun(s, 16), FirstColon(s);
      && k <= c && (HexField(s[..c]) <==> k == c && k > 0 && Value(s[..k], 16) <= 0xffff)
      && (k < c ==> k < |s| && s[k] != ':')
      && (k == c ==> !DottedField(s[..c]))
      && (HexField(s[..c]) ==> OctetsOf(s[..c]) == Group(Value(s[..k], 16)))
  {
    hide Value, DigitRun, FirstColon, DottedField;
    FirstColonAfterRun(s);
    var k, c := DigitRun(s, 16), FirstColon(s);
    if k < c {
      assert s[..c][k] == s[k];
    } else {
      DigitsAreNotDotted(s[..c]);
    }
  }

  lemma DigitsAreNotDotted(f: string)
    requires AllDigits(f, 16)
    ensures !DottedField(f)
  {
    hide Value, DigitRun, Fields, AllPlain;
    if DottedField(f) {
      DottedStart(f);
    }
  }

  /** The first field is neither empty nor a group, and is not the last one. */
  lemma ShapeOfQuadMidway(before: seq<byte>, gap: Option<nat>, s: string)
    requires |before| <= 16 && (gap.Some? ==> gap.value <= |before|) && DigitRun(s, 16) < FirstColon(s) < |s|
    ensures Tokens(before, gap, s) == Denoted(before, gap, ColonFields(s)) == None
  {
    hide *;
    FieldsIllFormed(s);
    IllFormed(before, gap, ColonFields(s));
    NoQuadWithColon(s);
    FirstFieldIs(s);
    assert s[FirstColon(s)] == ':';
    NotAToken(before, gap, s);
  }

  lemma FieldsIllFormed(s: string)
    requires DigitRun(s, 16) < FirstColon(s) < |s|
    ensures !WellFormed(ColonFields(s))
  {
    hide *;
    var c := FirstColon(s);
    var f, rest := s[..c], ColonFields(s[c + 1..]);
    ColonFieldsCut(s);
    FirstFieldIs(s);
    WellFormedCons(f, rest);
    assert f != "";
  }

  lemma NoQuadWithColon(s: string)
    ensures ':' in s ==> Quad([], s) == None
  {
    hide Quad, Fields, AllPlain, Values;
    QuadShape([], s);
    if AllPlain(Fields(s)) {
      PlainCharacters(s);
    }
  }

  lemma NotAToken(before: seq<byte>, gap: Option<nat>, s: string)
    requires |before| <= 16 && (gap.Some? ==> gap.value <= |before|)
    requires DigitRun(s, 16) < |s| && s[DigitRun(s, 16)] != ':' && Quad([], s) == None
    ensures Tokens(before, gap, s) == None
  {
    hide Value, DigitRun, Tokens, Quad;
    TokensUnfold(before, gap, s);
  }

  lemma IllFormed(before: seq<byte>, gap: Option<nat>, fs: seq<string>)
    requires |before| <= 16 && (gap.Some? ==> gap.value <= |before|) && |fs| > 0 && !WellFormed(fs)
    ensures Denoted(before, gap, fs) == None
  {
    hide WellFormed, Octets, Gaps, BeforeGap;
  }

  /** Only a dotted quad that ends the text is accepted. */
  lemma ShapeOfQuadLast(before: seq<byte>, gap: Option<nat>, s: string)
    requires |before| <= 16 && (gap.Some? ==> gap.value <= |before|) && DigitRun(s, 16) < FirstColon(s) == |s|
    ensures Tokens(before, gap, s) == Denoted(before, gap, ColonFields(s))
  {
    hide Value, DigitRun, FirstColon, Tokens, Quad, Finish, Values, Fields, ColonFields, HexField, AllPlain,
         WellFormed, Octets, Gaps, BeforeGap, Group;
    TokensUnfold(before, gap, s);
    ColonFieldsCut(s);
    FirstFieldIs(s);
    QuadShape([], s);
    assert s[..|s|] == s;
    LastField(s);
    if DottedField(s) {
      DottedStart(s);
      QuadFull([], s);
      assert [] + Values(Fields(s)) == Values(Fields(s));
    }
  }

  /** The text ends behind a colon. */
  lemma ShapeOfNothing(before: seq<byte>, gap: Option<nat>)
    requires |before| <= 16 && (gap.Some? ==> gap.value <= |before|)
    ensures Tokens(before, gap, "") == Denoted(before, gap, ColonFields(""))
  {
    hide Finish, HexField, DottedField, OctetsOf, WellFormed, Octets, Gaps, BeforeGap;
    EmptyField();
    LastField("");
    assert before + [] == before;
  }

  /** The text ends with digits. */
  lemma ShapeOfLastGroup(before: seq<byte>, gap: Option<nat>, s: string)
    requires |before| <= 16 && (gap.Some? ==> gap.value <= |before|)
    requires DigitRun(s, 16) == FirstColon(s) == |s| > 0
    ensures Tokens(before, gap, s) == Denoted(before, gap, ColonFields(s))
  {
    hide Value, DigitRun, FirstColon, Tokens, Quad, Finish, ColonFields, HexField, DottedField, OctetsOf,
         WellFormed, Octets, Gaps, BeforeGap;
    assert s[..|s|] == s;
    TokensUnfold(before, gap, s);
    ColonFieldsCut(s);
    FirstFieldIs(s);
    LastField(s);
  }

  /** A group or an empty field, a colon, and more. */
  lemma ShapeOfColon(before: seq<byte>, gap: Option<nat>, s: string)
    requires |before| <= 16 && (gap.Some? ==> gap.value <= |before|) && DigitRun(s, 16) == FirstColon(s) < |s|
    requires var k := DigitRun(s, 16); var v := Value(s[..k], 16); var rest := s[k + 1..];
      if k > 0 then v <= 0xffff && |before| <= 14 ==>
        Tokens(before + Group(v), gap, rest) == Denoted(before + Group(v), gap, ColonFields(rest))
      else gap.None? ==> Tokens(before, Some(|before|), rest) == Denoted(before, Some(|before|), ColonFields(rest))
    ensures Tokens(before, gap, s) == Denoted(before, gap, ColonFields(s))
  {
    hide Value, DigitRun, FirstColon, Tokens, Quad, Finish, ColonFields, HexField, DottedField, OctetsOf,
         WellFormed, Octets, Gaps, BeforeGap;
    TokensUnfold(before, gap, s);
    ColonFieldsCut(s);
    FirstFieldIs(s);
    EmptyField();
    var k := DigitRun(s, 16);
    var f, rest := s[..k], ColonFields(s[k + 1..]);
    WellFormedCons(f, rest);
    if k > 0 {
      if HexField(f) {
        assert before + (OctetsOf(f) + Octets(rest)) == before + OctetsOf(f) + Octets(rest);
      }
    } else {
      assert f == "" && [] + Octets(rest) == Octets(rest);
      assert s[k + 1..] == s[1..];
      ValueOfNothing();
    }
  }

  lemma {:induction false} TokensShape(before: seq<byte>, gap: Option<nat>, s: string)
    requires |before| <= 16 && (gap.Some? ==> gap.value <= |before|)
    ensures Tokens(before, gap, s) == Denoted(before, gap, ColonFields(s))
    decreases |s|
  {
    hide Value, DigitRun, FirstColon, Tokens, Denoted, ColonFields;
    FirstColonAfterRun(s);
    var k := DigitRun(s, 16);
    var v := Value(s[..k], 16);
    if k < FirstColon(s) {
      if FirstColon(s) < |s| {
        ShapeOfQuadMidway(before, gap, s);
      } else {
        ShapeOfQuadLast(before, gap, s);
      }
    } else if k == |s| {
      if k == 0 {
        ShapeOfNothing(before, gap);
      } else {
        ShapeOfLastGroup(before, gap, s);
      }
    } else {
      if k > 0 {
        if v <= 0xffff && |before| <= 14 {
          TokensShape(before + Group(v), gap, s[k + 1..]);
        }
      } else if gap.None? {
        TokensShape(before, Some(|before|), s[1..]);
      }
      ShapeOfColon(before, gap, s);
    }
  }

  /** The fields of a text; the colon that must stand before a leading `::` is not counted. */
  function TextFields(s: string): (fs: seq<string>)
    ensures |fs| > 0
  {
    if s != "" && s[0] == ':' then ColonFields(s[1..]) else ColonFields(s)
  }

  /** inet_pton6 accepts a text exactly when its fields are groups or empty, the last possibly a dotted quad, with at
    * most one empty field before the last; the octets written out are sixteen, or with an empty field at most sixteen;
    * and a leading colon is doubled. The last field may be empty as well. */
  lemma Pton6Shape(s: string)
    ensures
      var fs := TextFields(s);
      Pton6(s).Some? <==>
        && (s != "" && s[0] == ':' ==> |s| > 1 && s[1] == ':')
        && WellFormed(fs)
        && ((Gaps(fs) == 0 && |Octets(fs)| == 16) || (Gaps(fs) == 1 && |Octets(fs)| <= 16))
    ensures
      var fs := TextFields(s);
      Pton6(s).Some? ==> Some(Pton6(s).value) == Finish(Octets(fs), if Gaps(fs) == 0 then None else Some(BeforeGap(fs)))
  {
    hide Tokens, ColonFields, Octets, WellFormed, Gaps, BeforeGap;
    var body := if s != "" && s[0] == ':' then s[1..] else s;
    TokensShape([], None, body);
    assert [] + Octets(ColonFields(body)) == Octets(ColonFields(body));
  }

  function LastOf(fs: seq<string>): string
    requires |fs| > 0
  {
    fs[|fs| - 1]
  }

  lemma {:induction false} ColonSnoc(s: string)
    ensures ColonFields(s + ":") == ColonFields(s) + [""]
    decreases |s|
  {
    hide FirstColon, ColonFields;
    FirstColonIn(s, ":");
    ColonFieldsCut(s);
    ColonFieldsCut(s + ":");
    var k := FirstColon(s);
    assert (s + ":")[..k] == s[..k];
    if k < |s| {
      assert (s + ":")[k + 1..] == s[k + 1..] + ":";
      ColonSnoc(s[k + 1..]);
    } else {
      assert (s + ":")[k + 1..] == "";
      NoColon("");
    }
  }

  /** The first colon is found again in front of a colon. */
  lemma {:induction false} FirstColonIn(s: string, rest: string)
    requires rest == "" || rest[0] == ':'
    ensures FirstColon(s + rest) == FirstColon(s)
    decreases |s|
  {
    if s == "" {
      assert s + rest == rest;
    } else if s[0] != ':' {
      assert (s + rest)[1..] == s[1..] + rest;
      FirstColonIn(s[1..], rest);
    }
  }

  lemma NoColon(f: string)
    requires ':' !in f
    ensures FirstColon(f) == |f| && ColonFields(f) == [f]
  {
  }

  /** What an empty field behind the others changes. */
  lemma {:induction false} EmptyBehind(fs: seq<string>)
    requires |fs| > 0
    ensures WellFormed(fs + [""]) <==> WellFormed(fs) && (LastOf(fs) == "" || HexField(LastOf(fs)))
    ensures Gaps(fs + [""]) == Gaps(fs) + (if LastOf(fs) == "" then 1 else 0) && Octets(fs + [""]) == Octets(fs)
    ensures Gaps(fs) > 0 ==> BeforeGap(fs + [""]) == BeforeGap(fs)
    ensures Gaps(fs) == 0 && LastOf(fs) == "" ==> BeforeGap(fs + [""]) == |Octets(fs)|
    decreases |fs|
  {
    hide HexField, DottedField, OctetsOf, WellFormed, Gaps, Octets, BeforeGap;
    EmptyField();
    LastField("");
    if |fs| == 1 {
      assert fs == [fs[0]] && fs + [""] == [fs[0]] + [""];
      LastField(fs[0]);
      WellFormedCons(fs[0], [""]);
      assert OctetsOf(fs[0]) + [] == OctetsOf(fs[0]);
    } else {
      EmptyBehind(fs[1..]);
      assert fs == [fs[0]] + fs[1..] && fs + [""] == [fs[0]] + (fs[1..] + [""]);
      WellFormedCons(fs[0], fs[1..]);
      WellFormedCons(fs[0], fs[1..] + [""]);
    }
  }

  /** A colon behind an accepted text goes unnoticed exactly behind a group, or behind another such colon that
      closes eight groups; the address is the same then. Behind `::` or a dotted quad it is refused. */
  lemma TrailingColonAccepted(s: string)
    requires Pton6(s).Some?
    ensures
      var fs := TextFields(s);
      Pton6(s + ":").Some? <==> HexField(LastOf(fs)) || (LastOf(fs) == "" && Gaps(fs) == 0)
    ensures Pton6(s + ":").Some? ==> Pton6(s + ":") == Pton6(s)
  {
    hide HexField, Octets, WellFormed, Gaps, BeforeGap, ColonFields, Pton6, OctetsOf;
    var fs := TextFields(s);
    Pton6Shape(s);
    Pton6Shape(s + ":");
    EmptyTextRefused();
    ColonSnoc(if s[0] == ':' then s[1..] else s);
    assert (s + ":")[0] == s[0] && (s + ":")[1..] == s[1..] + ":";
    assert TextFields(s + ":") == fs + [""];
    EmptyBehind(fs);
    HexNotEmpty(LastOf(fs));
    var o := Octets(fs);
    if |o| == 16 {
      assert o[..16] + Zeros(0) == o;
    }
  }

  lemma HexNotEmpty(f: string)
    ensures HexField(f) ==> f != ""
  {
  }

  lemma EmptyTextRefused()
    ensures Pton6("") == None
  {
    hide HexField, WellFormed;
    Pton6Shape("");
    NoColon("");
    EmptyField();
    LastField("");
  }

  /** In a full address `::` clears every octet behind it. The text then denotes the octets as written exactly when
      those behind `::` are zero. */
  lemma GapInFullAddress(s: string)
    requires Pton6(s).Some? && Gaps(TextFields(s)) == 1 && |Octets(TextFields(s))| == 16
    ensures
      var o, g := Octets(TextFields(s)), BeforeGap(TextFields(s));
      && Pton6(s) == Some(o[..g] + Zeros(16 - g))
      && (Pton6(s) == Some(o) <==> forall k :: g <= k < 16 ==> o[k] == 0)
  {
    hide Pton6, Octets, Gaps, BeforeGap, WellFormed;
    Pton6Shape(s);
    var o, g := Octets(TextFields(s)), BeforeGap(TextFields(s));
    var cleared := o[..g] + Zeros(16 - g);
    assert Pton6(s) == Some(cleared);
    assert (forall k :: g <= k < 16 ==> o[k] == 0) ==> cleared == o;
    assert cleared == o ==> forall k :: g <= k < 16 ==> o[k] == cleared[k] == 0;
  }
}
