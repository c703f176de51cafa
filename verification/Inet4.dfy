/** Dotted-decimal addresses: inet_ntop4, inet_pton4 and inet_aton. The end of a string stands for its NUL. */
module Inet4 {
  import opened Common
  import opened Numerals

  /** What inet_ntop4 prints. */
  function Ntop4(a: seq<byte>): string
    requires |a| == 4
  {
    Numeral(a[0], 10) + "." + Numeral(a[1], 10) + "." + Numeral(a[2], 10) + "." + Numeral(a[3], 10)
  }

  /** The octets `seen` followed by those of the dotted fields of s, when they make exactly four octets. */
  function Quad(seen: seq<byte>, s: string): Option<seq<byte>>
    decreases |s|
  {
    var k := DigitRun(s, 10);
    if k == 0 || Value(s[..k], 10) > 255 || |seen| >= 4 then None
    else if k == |s| then
      if |seen| == 3 then Some(seen + [Value(s[..k], 10)]) else None
    else if s[k] == '.' then Quad(seen + [Value(s[..k], 10)], s[k + 1..])
    else None
  }

  lemma {:induction false} QuadFull(seen: seq<byte>, s: string)
    ensures Quad(seen, s).Some? ==> |Quad(seen, s).value| == 4 && |seen| < 4
    decreases |s|
  {
    var k := DigitRun(s, 10);
    if 0 < k < |s| && Value(s[..k], 10) <= 255 && s[k] == '.' {
      QuadFull(seen + [Value(s[..k], 10)], s[k + 1..]);
    }
  }

  lemma QuadUnfold(seen: seq<byte>, s: string)
    ensures
      var k := DigitRun(s, 10);
      Quad(seen, s) ==
      if k == 0 || Value(s[..k], 10) > 255 || |seen| >= 4 then None
      else if k == |s| then
        if |seen| == 3 then Some(seen + [Value(s[..k], 10)]) else None
      else if s[k] == '.' then Quad(seen + [Value(s[..k], 10)], s[k + 1..])
      else None
  {
    hide Value, DigitRun;
  }

  /** What the character at j, or the end there, makes of a field whose first j characters are digits. */
  lemma QuadStep(seen: seq<byte>, s: string, j: nat)
    requires j <= |s| && |seen| < 4 && AllDigits(s[..j], 10) && Value(s[..j], 10) <= 255
    ensures j < |s| && IsDigit(s[j], 10) ==>
      && AllDigits(s[..j + 1], 10) && Value(s[..j + 1], 10) == Value(s[..j], 10) * 10 + DigitOf(s[j])
      && (Value(s[..j + 1], 10) > 255 ==> Quad(seen, s) == None)
    ensures j < |s| && s[j] == '.' && 0 < j ==>
      Quad(seen, s) == if |seen| == 3 then None else Quad(seen + [Value(s[..j], 10)], s[j + 1..])
    ensures j < |s| && !IsDigit(s[j], 10) && (s[j] != '.' || j == 0) ==> Quad(seen, s) == None
    ensures j == |s| ==>
      Quad(seen, s) == if |seen| == 3 && 0 < j then Some(seen + [Value(s[..j], 10)]) else None
  {
    hide Value, DigitRun, Quad;
    QuadUnfold(seen, s);
    var k := DigitRun(s, 10);
    if j < |s| && IsDigit(s[j], 10) {
      assert s[..j + 1] == s[..j] + [s[j]];
      ValueSnoc(s[..j], s[j], 10);
      RunReaches(s, j + 1, 10);
      ValueGrows(s[..k], j + 1, 10);
      assert s[..k][..j + 1] == s[..j + 1];
    } else {
      RunReaches(s, j, 10);
      if j < |s| && s[j] == '.' && 0 < j && |seen| == 3 {
        QuadFull(seen + [Value(s[..j], 10)], s[j + 1..]);
      }
    }
  }

  /** inet_pton4: scans one character at a time into tmp[], and stores into dst only when it accepts. */
  method InetPton4(s: string, dst: array<byte>, at: nat) returns (ok: bool)
    requires at + 4 <= dst.Length
    modifies dst
    ensures ok == Quad([], s).Some?
    ensures dst[..] == if ok then old(dst[..at]) + Quad([], s).value + old(dst[at + 4..]) else old(dst[..])
  {
    hide Quad, DigitRun;
    var tmp: array<byte> := new byte[4];
    var sawDigit, octets, tp, i := false, 0, 0, 0;
    tmp[0] := 0;
    ghost var field, j := s, 0;  // the text from the current field on, and how much of it has been read
    assert s[..0] == "";
    while i < |s|
      invariant j <= i <= |s| && 0 <= tp < 4 && field == s[i - j..]
      invariant AllDigits(field[..j], 10) && sawDigit == (0 < j)
      invariant octets == tp + (if sawDigit then 1 else 0)
      invariant tmp[tp] == Value(field[..j], 10)
      invariant Quad([], s) == Quad(tmp[..tp], field)
      invariant dst[..] == old(dst[..])
    {
      var ch := s[i];
      QuadStep(tmp[..tp], field, j);
      if IsDigit(ch, 10) {
        var value := tmp[tp] * 10 + DigitOf(ch);
        if value > 255 {
          return false;
        }
        tmp[tp] := value;
        if !sawDigit {
          octets := octets + 1;
          if octets > 4 {
            return false;
          }
          sawDigit := true;
        }
        j := j + 1;
      } else if ch == '.' && sawDigit {
        if octets == 4 {
          return false;
        }
        assert tmp[..tp + 1] == tmp[..tp] + [tmp[tp]];
        tp := tp + 1;
        tmp[tp] := 0;
        sawDigit := false;
        field, j := field[j + 1..], 0;
        assert field[..0] == "";
      } else {
        return false;
      }
      i := i + 1;
    }
    QuadStep(tmp[..tp], field, j);
    if octets < 4 {
      return false;
    }
    assert tmp[..] == tmp[..3] + [tmp[3]];
    forall k | 0 <= k < 4 {
      dst[at + k] := tmp[k];
    }
    return true;
  }

  /** A numeral below 256 followed by a dot or by the end is exactly one field. */
  lemma FieldOfNumeral(seen: seq<byte>, n: byte, rest: string)
    requires |seen| < 4 && (rest == "" || rest[0] == '.')
    ensures Quad(seen, Numeral(n, 10) + rest)
         == if rest == "" then (if |seen| == 3 then Some(seen + [n]) else None) else Quad(seen + [n], rest[1..])
  {
    hide Quad, DigitRun, Value, Numeral;
    var d := Numeral(n, 10);
    QuadUnfold(seen, d + rest);
    RunOfToken(d, rest, 10);
    ValueOfNumeral(n, 10);
    if rest != "" {
      assert (d + rest)[|d| + 1..] == rest[1..];
    }
  }

  /** inet_pton4 reads back what inet_ntop4 prints, for every address. */
  lemma QuadOfNtop4(a: seq<byte>)
    requires |a| == 4
    ensures Quad([], Ntop4(a)) == Some(a)
  {
    hide Value, DigitRun, Quad, Numeral;
    var t3 := Numeral(a[3], 10);
    var t2 := Numeral(a[2], 10) + ("." + t3);
    var t1 := Numeral(a[1], 10) + ("." + t2);
    Ntop4Nested(a);
    FieldOfNumeral([], a[0], "." + t1);
    FieldOfNumeral([a[0]], a[1], "." + t2);
    FieldOfNumeral([a[0], a[1]], a[2], "." + t3);
    FieldOfNumeral([a[0], a[1], a[2]], a[3], "");
    assert ("." + t1)[1..] == t1 && ("." + t2)[1..] == t2 && ("." + t3)[1..] == t3 && t3 + "" == t3;
    assert [] + [a[0]] == [a[0]] && [a[0]] + [a[1]] == [a[0], a[1]] && [a[0], a[1]] + [a[2]] == [a[0], a[1], a[2]];
    assert [a[0], a[1], a[2]] + [a[3]] == a;
  }

  /** The printed address, bracketed to the right. */
  lemma Ntop4Nested(a: seq<byte>)
    requires |a| == 4
    ensures Ntop4(a)
         == Numeral(a[0], 10) + ("." + (Numeral(a[1], 10) + ("." + (Numeral(a[2], 10) + ("." + Numeral(a[3], 10))))))
  {
  }

  /** s cut at its dots. */
  function Fields(s: string): seq<string>
    decreases |s|
  {
    var k := FirstDot(s);
    if k < |s| then [s[..k]] + Fields(s[k + 1..]) else [s]
  }

  function FirstDot(s: string): (k: nat)
    ensures k <= |s| && '.' !in s[..k] && (k < |s| ==> s[k] == '.')
  {
    if s == "" || s[0] == '.' then 0 else 1 + FirstDot(s[1..])
  }

  /** The fields with dots between them. */
  function DotText(fs: seq<string>): string
    decreases |fs|
  {
    if |fs| == 0 then "" else if |fs| == 1 then fs[0] else fs[0] + "." + DotText(fs[1..])
  }

  /** Cutting a text at its dots loses nothing but them: there is one more field than dots, and none contains a dot. */
  lemma {:induction false} FieldsJoin(s: string)
    ensures DotText(Fields(s)) == s && |Fields(s)| > 0 && forall f <- Fields(s) :: '.' !in f
    decreases |s|
  {
    hide FirstDot, Fields;
    FieldsCut(s);
    var k := FirstDot(s);
    if k < |s| {
      FieldsJoin(s[k + 1..]);
      assert s == s[..k] + "." + s[k + 1..];
      assert Fields(s)[0] == s[..k];
    } else {
      assert s[..k] == s;
    }
  }

  /** A nonempty run of decimal digits that denotes at most 255. */
  predicate PlainField(f: string) {
    f != "" && AllDigits(f, 10) && Value(f, 10) <= 255
  }

  predicate AllPlain(fs: seq<string>) {
    forall f :: f in fs ==> PlainField(f)
  }

  function Values(fs: seq<string>): seq<byte>
    requires AllPlain(fs)
  {
    assert fs != [] ==> PlainField(fs[0]);
    if fs == [] then [] else [Value(fs[0], 10)] + Values(fs[1..])
  }

  /** One octet for every field, in order. */
  lemma {:induction false} ValuesAt(fs: seq<string>, i: nat)
    requires AllPlain(fs) && i < |fs|
    ensures |Values(fs)| == |fs| && PlainField(fs[i]) && Values(fs)[i] == Value(fs[i], 10)
    decreases |fs|
  {
    hide Value;
    assert fs[i] in fs;
    assert forall f <- fs[1..] :: f in fs;
    if i > 0 {
      ValuesAt(fs[1..], i - 1);
    } else if |fs| > 1 {
      ValuesAt(fs[1..], 0);
    }
  }

  lemma PlainCons(f: string, fs: seq<string>)
    ensures AllPlain([f] + fs) <==> PlainField(f) && AllPlain(fs)
    ensures AllPlain([f] + fs) ==> Values([f] + fs) == [Value(f, 10)] + Values(fs)
  {
    hide Value;
    assert ([f] + fs)[0] == f && ([f] + fs)[1..] == fs;
    assert forall g :: g in [f] + fs <==> g == f || g in fs;
  }

  /** inet_pton4 accepts four plain fields separated by dots, and nothing else. */
  lemma {:induction false} QuadShape(seen: seq<byte>, s: string)
    requires |seen| <= 4
    ensures Quad(seen, s).Some? <==> |seen| + |Fields(s)| == 4 && AllPlain(Fields(s))
    ensures Quad(seen, s).Some? ==> Quad(seen, s).value == seen + Values(Fields(s))
    decreases |s|
  {
    hide Value, DigitRun, FirstDot, AllPlain, Values, Quad, Fields;
    QuadUnfold(seen, s);
    var k, d := DigitRun(s, 10), FirstDot(s);
    FirstDotAfterRun(s);
    FieldsCut(s);
    if k == d < |s| {
      var v, rest := Value(s[..k], 10), s[k + 1..];
      PlainCons(s[..k], Fields(rest));
      if 0 < k && v <= 255 && |seen| < 4 {
        QuadShape(seen + [v], rest);
        if Quad(seen + [v], rest).Some? {
          assert seen + [v] + Values(Fields(rest)) == seen + ([v] + Values(Fields(rest)));
        }
      }
    } else if k == d {
      PlainCons(s, []);
      assert s[..k] == s && [s] + [] == [s];
      NothingPlain();
    } else {
      PlainCons(s[..d], Fields(s)[1..]);
      assert s[..d][k] == s[k];
    }
  }

  /** The octets of an accepted text are the decimal values of its four fields, which the dots put together again. */
  lemma QuadOctets(s: string, i: nat)
    requires Quad([], s).Some? && i < 4
    ensures
      var fs := Fields(s);
      && |fs| == 4 && s == fs[0] + "." + fs[1] + "." + fs[2] + "." + fs[3]
      && |Quad([], s).value| == 4 && AllDigits(fs[i], 10) && Quad([], s).value[i] == Value(fs[i], 10)
  {
    hide Quad, Fields, Value;
    var fs := Fields(s);
    QuadShape([], s);
    FieldsJoin(s);
    ValuesAt(fs, i);
    DotsBetween(fs);
  }

  lemma DotsBetween(fs: seq<string>)
    requires |fs| == 4
    ensures DotText(fs) == fs[0] + "." + fs[1] + "." + fs[2] + "." + fs[3]
  {
    assert fs[1..][1..] == fs[2..] && fs[2..][1..] == fs[3..];
    assert DotText(fs[2..]) == fs[2] + "." + fs[3];
    assert DotText(fs[1..]) == fs[1] + "." + DotText(fs[2..]);
    assert fs[0] + "." + (fs[1] + "." + (fs[2] + "." + fs[3])) == fs[0] + "." + fs[1] + "." + fs[2] + "." + fs[3];
  }

  lemma NothingPlain()
    ensures AllPlain([]) && Values([]) == []
  {
  }

  lemma {:induction false} FieldsCut(s: string)
    ensures Fields(s) != [] && Fields(s) == [s[..FirstDot(s)]] + Fields(s)[1..]
    ensures FirstDot(s) < |s| ==> Fields(s)[1..] == Fields(s[FirstDot(s) + 1..]) != []
    ensures FirstDot(s) == |s| ==> Fields(s) == [s] && Fields(s)[1..] == []
  {
    hide FirstDot;
    assert s[..|s|] == s;
  }

  lemma {:induction false} FirstDotAfterRun(s: string)
    ensures DigitRun(s, 10) <= FirstDot(s)
    ensures DigitRun(s, 10) < FirstDot(s) <==> DigitRun(s, 10) < |s| && s[DigitRun(s, 10)] != '.'
  {
    if s != "" && IsDigit(s[0], 10) {
      FirstDotAfterRun(s[1..]);
    }
  }
}
