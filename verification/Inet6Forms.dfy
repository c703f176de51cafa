/** The text forms of section 2.2 of RFC 1884, as section 2.2 of RFC 4291 words them, and which of the texts that
    inet_pton6 accepts are outside them. */
module Inet6Forms {
  import opened Common
  import opened Numerals
  import opened Inet4
  import opened Inet6Pton
  import opened Inet6Shape

  /** One to four hexadecimal digits. */
  predicate ShortGroup(f: string) {
    HexField(f) && |f| <= 4
  }

  /** Groups, the last possibly a dotted quad. */
  predicate Spelled(fs: seq<string>) {
    |fs| == 0
    || (|fs| == 1 && (ShortGroup(fs[0]) || DottedField(fs[0])))
    || (|fs| > 1 && ShortGroup(fs[0]) && Spelled(fs[1..]))
  }

  predicate AllShort(fs: seq<string>) {
    |fs| == 0 || (ShortGroup(fs[0]) && AllShort(fs[1..]))
  }

  /** The fields with colons between them. */
  function JoinText(fs: seq<string>): string {
    if |fs| == 0 then "" else if |fs| == 1 then fs[0] else fs[0] + ":" + JoinText(fs[1..])
  }

  /** x:x:x:x:x:x:x:x or x:x:x:x:x:x:d.d.d.d */
  ghost predicate FullForm(s: string, ps: seq<string>) {
    Spelled(ps) && |Octets(ps)| == 16 && s == JoinText(ps)
  }

  /** The same with one `::` that stands for one or more groups of zeros. */
  ghost predicate GapForm(s: string, us: seq<string>, vs: seq<string>) {
    AllShort(us) && Spelled(vs) && |Octets(us)| + |Octets(vs)| <= 14 && s == JoinText(us) + "::" + JoinText(vs)
  }

  ghost predicate TextForm(s: string) {
    (exists ps :: FullForm(s, ps)) || (exists us, vs :: GapForm(s, us, vs))
  }

  /** Some group is written with more than four digits. */
  predicate LongGroup(fs: seq<string>) {
    |fs| > 0 && ((HexField(fs[0]) && |fs[0]| > 4) || LongGroup(fs[1..]))
  }

  /** The text ends in a single colon. */
  predicate LoneColon(fs: seq<string>) {
    |fs| >= 2 && fs[|fs| - 1] == "" && fs[|fs| - 2] != ""
  }

  // ----- joining and cutting -----

  lemma {:induction false} JoinOfFields(s: string)
    ensures JoinText(ColonFields(s)) == s
    decreases |s|
  {
    hide FirstColon, ColonFields;
    ColonFieldsCut(s);
    var k := FirstColon(s);
    if k < |s| {
      var rest := ColonFields(s[k + 1..]);
      JoinOfFields(s[k + 1..]);
      assert ([s[..k]] + rest)[1..] == rest;
      assert s == s[..k] + ":" + s[k + 1..];
    }
  }

  ghost predicate NoColons(fs: seq<string>) {
    forall f <- fs :: ':' !in f
  }

  lemma {:induction false} FieldsOfJoin(fs: seq<string>)
    requires |fs| > 0 && NoColons(fs)
    ensures ColonFields(JoinText(fs)) == fs
    decreases |fs|
  {
    hide FirstColon, ColonFields;
    if |fs| == 1 {
      NoColon(fs[0]);
    } else {
      var s, rest := JoinText(fs), JoinText(fs[1..]);
      FieldsOfJoin(fs[1..]);
      assert s == fs[0] + (":" + rest) && (":" + rest)[0] == ':';
      FirstColonIn(fs[0], ":" + rest);
      NoColon(fs[0]);
      ColonFieldsCut(s);
      assert s[..|fs[0]|] == fs[0] && s[|fs[0]| + 1..] == rest;
    }
  }

  lemma {:induction false} JoinConcat(a: seq<string>, b: seq<string>)
    requires |a| > 0 && |b| > 0
    ensures JoinText(a + b) == JoinText(a) + ":" + JoinText(b)
    decreases |a|
  {
    assert (a + b)[1..] == a[1..] + b;
    if |a| > 1 {
      JoinConcat(a[1..], b);
    } else {
      assert a[1..] + b == b;
    }
  }

  lemma PieceHasNoColon(f: string)
    requires ShortGroup(f) || DottedField(f)
    ensures ':' !in f && f != ""
  {
    hide Value, Fields, AllPlain;
    if DottedField(f) {
      PlainCharacters(f);
      EmptyField();
    }
  }

  lemma {:induction false} SpelledHasNoColons(fs: seq<string>)
    requires Spelled(fs)
    ensures NoColons(fs) && forall f <- fs :: f != ""
  {
    hide HexField, DottedField;
    if |fs| > 0 {
      PieceHasNoColon(fs[0]);
      if |fs| > 1 {
        SpelledHasNoColons(fs[1..]);
        assert forall f <- fs :: f == fs[0] || f in fs[1..];
      }
    }
  }

  lemma {:induction false} ShortIsSpelled(fs: seq<string>)
    requires AllShort(fs)
    ensures Spelled(fs)
  {
    hide HexField, DottedField;
    if |fs| > 1 {
      ShortIsSpelled(fs[1..]);
    }
  }

  // ----- what the parser makes of the forms -----

  lemma {:induction false} SpelledFields(ps: seq<string>)
    requires Spelled(ps) && |ps| > 0
    ensures WellFormed(ps) && Gaps(ps) == 0 && !LongGroup(ps) && LastOf(ps) != ""
  {
    hide HexField, OctetsOf, DottedField;
    PieceHasNoColon(ps[0]);
    if |ps| > 1 {
      SpelledFields(ps[1..]);
    } else {
      DottedNotHex(ps[0]);
    }
  }

  lemma DottedNotHex(f: string)
    ensures DottedField(f) ==> !HexField(f)
  {
    hide Value, DigitRun, Fields, AllPlain;
    if DottedField(f) {
      DottedStart(f);
    }
  }

  /** The fields of a text with `::`; nothing behind it is an empty last field. */
  function GapFields(us: seq<string>, vs: seq<string>): seq<string> {
    us + [""] + (if |vs| == 0 then [""] else vs)
  }

  lemma {:induction false} GapFieldsShape(us: seq<string>, vs: seq<string>)
    requires AllShort(us) && Spelled(vs)
    ensures
      var fs := GapFields(us, vs);
      && |fs| >= 2 && WellFormed(fs) && Gaps(fs) == 1
      && Octets(fs) == Octets(us) + Octets(vs) && BeforeGap(fs) == |Octets(us)|
      && !LongGroup(fs) && !LoneColon(fs)
    decreases |us|
  {
    hide HexField, OctetsOf, DottedField, WellFormed, Gaps, Octets, BeforeGap;
    var behind := if |vs| == 0 then [""] else vs;
    var fs := GapFields(us, vs);
    EmptyField();
    if |us| == 0 {
      assert fs == [""] + behind;
      WellFormedCons("", behind);
      NothingWritten();
      if |vs| == 0 {
        LastField("");
        assert [""][1..] == [];
      } else {
        SpelledFields(vs);
      }
      assert ([""] + behind)[1..] == behind;
      assert Octets([]) + Octets(vs) == Octets(vs) && [] + Octets(behind) == Octets(behind);
    } else {
      var more := us[1..];
      GapFieldsShape(more, vs);
      PieceHasNoColon(us[0]);
      assert us == [us[0]] + more && fs == [us[0]] + GapFields(more, vs) && fs[1..] == GapFields(more, vs);
      WellFormedCons(us[0], GapFields(more, vs));
      OctetsCons(us[0], more);
      assert OctetsOf(us[0]) + Octets(more) + Octets(vs) == OctetsOf(us[0]) + (Octets(more) + Octets(vs));
    }
  }

  lemma NothingWritten()
    ensures Octets([]) == []
  {
  }

  lemma OctetsCons(f: string, fs: seq<string>)
    ensures Octets([f] + fs) == OctetsOf(f) + Octets(fs)
  {
    hide OctetsOf;
    assert ([f] + fs)[1..] == fs;
  }

  lemma StartOfJoin(fs: seq<string>)
    requires |fs| > 0 && Spelled(fs)
    ensures JoinText(fs) != "" && JoinText(fs)[0] != ':'
  {
    hide HexField, DottedField, Spelled;
    SpelledHasNoColons(fs);
    assert fs[0] in fs;
    assert |fs[0]| > 0 && JoinText(fs)[0] == fs[0][0];
  }

  lemma FullFormFields(s: string, ps: seq<string>)
    requires FullForm(s, ps)
    ensures |ps| > 0 && TextFields(s) == ps && (s != "" ==> s[0] != ':')
  {
    hide HexField, DottedField, Spelled, ColonFields, JoinText, Octets;
    NothingWritten();
    SpelledHasNoColons(ps);
    StartOfJoin(ps);
    FieldsOfJoin(ps);
  }

  lemma GapFormFields(s: string, us: seq<string>, vs: seq<string>)
    requires GapForm(s, us, vs)
    ensures TextFields(s) == GapFields(us, vs) && (s != "" && s[0] == ':' ==> |s| > 1 && s[1] == ':')
  {
    hide HexField, DottedField, Spelled, AllShort, ColonFields, Octets;
    var behind := if |vs| == 0 then [""] else vs;
    SpelledHasNoColons(vs);
    ShortIsSpelled(us);
    SpelledHasNoColons(us);
    assert JoinText(behind) == JoinText(vs);
    assert JoinText([""]) == "";
    JoinConcat([""], behind);
    if |us| == 0 {
      assert s[1..] == "" + ":" + JoinText(behind);
      FieldsOfJoin([""] + behind);
      assert [] + [""] + behind == [""] + behind;
    } else {
      StartOfJoin(us);
      JoinConcat(us, [""] + behind);
      assert s == JoinText(us) + ":" + ("" + ":" + JoinText(behind));
      assert us + ([""] + behind) == us + [""] + behind;
      FieldsOfJoin(us + ([""] + behind));
      assert s[0] == JoinText(us)[0];
    }
  }

  /** inet_pton6 reads every text form, as the octets written, with zeros for `::`. */
  lemma FormsAccepted(s: string)
    ensures forall ps :: FullForm(s, ps) ==> Pton6(s) == Some(Octets(ps))
    ensures forall us, vs :: GapForm(s, us, vs) ==>
              Pton6(s) == Some(Octets(us) + Zeros(16 - |Octets(us)| - |Octets(vs)|) + Octets(vs))
  {
    hide Pton6, HexField, Spelled, AllShort, TextFields, WellFormed, Gaps, Octets, BeforeGap, JoinText;
    Pton6Shape(s);
    forall ps | FullForm(s, ps)
      ensures Pton6(s) == Some(Octets(ps))
    {
      FullFormFields(s, ps);
      SpelledFields(ps);
    }
    forall us, vs | GapForm(s, us, vs)
      ensures Pton6(s) == Some(Octets(us) + Zeros(16 - |Octets(us)| - |Octets(vs)|) + Octets(vs))
    {
      GapFormFields(s, us, vs);
      GapFieldsShape(us, vs);
      var a, b := Octets(us), Octets(vs);
      assert (a + b)[..|a|] == a && (a + b)[|a|..] == b;
    }
  }

  // ----- and which accepted texts are none of them -----

  lemma {:induction false} GaplessIsSpelled(fs: seq<string>)
    requires |fs| > 0 && WellFormed(fs) && Gaps(fs) == 0 && !LongGroup(fs) && LastOf(fs) != ""
    ensures Spelled(fs)
  {
    hide HexField, OctetsOf, DottedField;
    if |fs| > 1 {
      GaplessIsSpelled(fs[1..]);
    }
  }

  lemma {:induction false} SplitAtGap(fs: seq<string>) returns (us: seq<string>, vs: seq<string>)
    requires |fs| > 0 && WellFormed(fs) && Gaps(fs) == 1 && !LongGroup(fs) && !LoneColon(fs)
    ensures AllShort(us) && Spelled(vs) && fs == GapFields(us, vs) && (fs[0] == "" <==> us == [])
  {
    hide HexField, OctetsOf, DottedField;
    var rest := fs[1..];
    if fs[0] == "" {
      us := [];
      if rest == [""] {
        vs := [];
      } else {
        vs := rest;
        if |rest| >= 2 {
          NoGapBefore(rest, |rest| - 2);
        }
        GaplessIsSpelled(rest);
      }
      assert fs == [""] + rest;
    } else {
      assert LoneColon(rest) ==> LoneColon(fs);
      us, vs := SplitAtGap(rest);
      us := [fs[0]] + us;
      assert us[1..] + [""] == rest[..|us|];
      assert fs == [fs[0]] + rest;
    }
  }

  lemma StartsEmpty(s: string)
    ensures s != "" ==> (ColonFields(s)[0] == "" <==> s[0] == ':')
    ensures s != "" && s[0] == ':' ==> |ColonFields(s)| >= 2 && Gaps(ColonFields(s)) > 0
  {
    hide FirstColon;
    ColonFieldsCut(s);
  }

  /** An accepted text is outside the forms exactly when a group has more than four digits, or it ends in a single
      colon, or its `::` stands for nothing. */
  lemma AcceptedOutsideForms(s: string)
    requires Pton6(s).Some?
    ensures
      var fs := TextFields(s);
      !TextForm(s) <==> LongGroup(fs) || LoneColon(fs) || (Gaps(fs) == 1 && |Octets(fs)| > 14)
  {
    hide Pton6, HexField, DottedField, OctetsOf, WellFormed, Gaps, Octets, BeforeGap, JoinText, ColonFields,
        Spelled, AllShort,
         LongGroup, LoneColon;
    var fs := TextFields(s);
    Pton6Shape(s);
    if LongGroup(fs) || LoneColon(fs) || (Gaps(fs) == 1 && |Octets(fs)| > 14) {
      forall ps
        ensures !FullForm(s, ps)
      {
        if FullForm(s, ps) {
          FullFormFields(s, ps);
          SpelledFields(ps);
          NoLoneColon(ps);
        }
      }
      forall us, vs
        ensures !GapForm(s, us, vs)
      {
        if GapForm(s, us, vs) {
          GapFormFields(s, us, vs);
          GapFieldsShape(us, vs);
        }
      }
    } else {
      OrdinaryIsForm(s);
    }
  }

  lemma NoLoneColon(fs: seq<string>)
    requires |fs| > 0 && LastOf(fs) != ""
    ensures !LoneColon(fs)
  {
  }

  lemma OrdinaryIsForm(s: string)
    requires Pton6(s).Some?
    requires var fs := TextFields(s);
      !LongGroup(fs) && !LoneColon(fs) && (Gaps(fs) == 1 ==> |Octets(fs)| <= 14)
    ensures TextForm(s)
  {
    hide Pton6, HexField, DottedField, OctetsOf, WellFormed, Gaps, Octets, BeforeGap, JoinText, ColonFields,
        Spelled, AllShort,
         LongGroup, LoneColon;
    var fs := TextFields(s);
    Pton6Shape(s);
    EmptyTextRefused();
    StartsEmpty(s);
    var body := if s[0] == ':' then s[1..] else s;
    JoinOfFields(body);
    StartsEmpty(body);
    if Gaps(fs) == 0 {
      LastIsWritten(fs);
      GaplessIsSpelled(fs);
      assert FullForm(s, fs);
    } else {
      var us, vs := SplitAtGap(fs);
      GapFieldsShape(us, vs);
      GapText(us, vs);
      JoinNothing();
      if us == [] {
        assert s[0] == ':' && s == ":" + body;
      } else {
        assert s == body;
      }
      assert s == JoinText(us) + "::" + JoinText(vs);
      assert GapForm(s, us, vs);
    }
  }

  lemma JoinNothing()
    ensures JoinText([]) == ""
  {
  }

  lemma LastIsWritten(fs: seq<string>)
    requires |fs| > 0 && Gaps(fs) == 0 && !LoneColon(fs) && |Octets(fs)| == 16
    ensures LastOf(fs) != ""
  {
    hide HexField, DottedField, OctetsOf;
    EmptyField();
    if |fs| == 1 {
      LastField(fs[0]);
      assert fs == [fs[0]];
    } else {
      NoGapBefore(fs, |fs| - 2);
    }
  }

  lemma {:induction false} NoGapBefore(fs: seq<string>, i: nat)
    requires Gaps(fs) == 0 && i + 1 < |fs|
    ensures fs[i] != ""
  {
    if i > 0 {
      NoGapBefore(fs[1..], i - 1);
    }
  }

  lemma GapText(us: seq<string>, vs: seq<string>)
    ensures JoinText(GapFields(us, vs))
         == if us == [] then ":" + JoinText(vs) else JoinText(us) + "::" + JoinText(vs)
  {
    var behind := if |vs| == 0 then [""] else vs;
    assert JoinText(behind) == JoinText(vs);
    JoinConcat([""], behind);
    assert "" + ":" + JoinText(behind) == ":" + JoinText(behind);
    if us == [] {
      assert GapFields(us, vs) == [""] + behind;
    } else {
      JoinConcat(us, [""] + behind);
      assert GapFields(us, vs) == us + ([""] + behind);
      assert JoinText(us) + ":" + (":" + JoinText(vs)) == JoinText(us) + "::" + JoinText(vs);
    }
  }
}
