/** inet_pton6: hexadecimal groups, one `::`, an embedded dotted quad, and the shift done in place. */
module Inet6Pton {
  import opened Common
  import opened Numerals
  import opened Inet4

  /** A 16-bit group in network order. */
  function Group(w: nat): seq<byte> {
    [w / 256 % 256, w % 256]
  }

  /** What the sixteen octets are once the text has ended: octets `before` read, `::` met after the first `gap` of
      them. */
  function Finish(before: seq<byte>, gap: Option<nat>): Option<seq<byte>>
    requires |before| <= 16 && (gap.Some? ==> gap.value <= |before|)
  {
    if gap.None? then
      if |before| == 16 then Some(before) else None
    else if |before| < 16 then
      Some(before[..gap.value] + Zeros(16 - |before|) + before[gap.value..])
    else
      Some(before[..gap.value] + Zeros(16 - gap.value))
  }

  /** Reads s token by token behind the octets `before`. */
  function Tokens(before: seq<byte>, gap: Option<nat>, s: string): Option<seq<byte>>
    requires |before| <= 16 && (gap.Some? ==> gap.value <= |before|)
    decreases |s|
  {
    var k := DigitRun(s, 16);
    var v := Value(s[..k], 16);
    if v > 0xffff then None
    else if k == |s| then
      if k == 0 then Finish(before, gap)
      else if |before| + 2 > 16 then None
      else Finish(before + Group(v), gap)
    else if s[k] == ':' then
      if k > 0 then
        if |before| + 2 > 16 then None else Tokens(before + Group(v), gap, s[k + 1..])
      else if gap.Some? then None
      else Tokens(before, Some(|before|), s[1..])
    else if s[k] == '.' && |before| + 4 <= 16 && Quad([], s).Some? then
      QuadFull([], s);
      Finish(before + Quad([], s).value, gap)
    else None
  }

  /** The address that inet_pton6 reads from s. */
  function Pton6(s: string): Option<seq<byte>> {
    if s != "" && s[0] == ':' then
      if |s| > 1 && s[1] == ':' then Tokens([], None, s[1..]) else None
    else Tokens([], None, s)
  }

  lemma TokensUnfold(before: seq<byte>, gap: Option<nat>, s: string)
    requires |before| <= 16 && (gap.Some? ==> gap.value <= |before|)
    ensures
      var k := DigitRun(s, 16);
      var v := Value(s[..k], 16);
      Tokens(before, gap, s) ==
      if v > 0xffff then None
      else if k == |s| then
        if k == 0 then Finish(before, gap)
        else if |before| + 2 > 16 then None
        else Finish(before + Group(v), gap)
      else if s[k] == ':' then
        if k > 0 then
          if |before| + 2 > 16 then None else Tokens(before + Group(v), gap, s[k + 1..])
        else if gap.Some? then None
        else Tokens(before, Some(|before|), s[1..])
      else if s[k] == '.' && |before| + 4 <= 16 && Quad([], s).Some? then
        QuadFull([], s);
        Finish(before + Quad([], s).value, gap)
      else None
  {
    hide Value, DigitRun, Quad, Finish;
  }

  /** What the character at j, or the end there, makes of a token whose first j characters are hexadecimal digits. */
  lemma TokenStep(before: seq<byte>, gap: Option<nat>, s: string, j: nat)
    requires |before| <= 16 && (gap.Some? ==> gap.value <= |before|)
    requires j <= |s| && AllDigits(s[..j], 16)
    ensures j < |s| && IsDigit(s[j], 16) ==>
      && AllDigits(s[..j + 1], 16) && Value(s[..j + 1], 16) == Value(s[..j], 16) * 16 + DigitOf(s[j])
      && (Value(s[..j + 1], 16) > 0xffff ==> Tokens(before, gap, s) == None)
    ensures j == |s| || !IsDigit(s[j], 16) ==> DigitRun(s, 16) == j
  {
    hide Value, DigitRun, Tokens, Quad, Finish;
    TokensUnfold(before, gap, s);
    var k := DigitRun(s, 16);
    if j < |s| && IsDigit(s[j], 16) {
      assert s[..j + 1] == s[..j] + [s[j]];
      ValueSnoc(s[..j], s[j], 16);
      RunReaches(s, j + 1, 16);
      ValueGrows(s[..k], j + 1, 16);
      assert s[..k][..j + 1] == s[..j + 1];
    } else {
      RunReaches(s, j, 16);
    }
  }

  /** A colon behind a token. */
  lemma ColonToken(before: seq<byte>, gap: Option<nat>, s: string, j: nat)
    requires |before| <= 16 && (gap.Some? ==> gap.value <= |before|)
    requires j < |s| && AllDigits(s[..j], 16) && Value(s[..j], 16) <= 0xffff && s[j] == ':'
    ensures j > 0 ==>
      Tokens(before, gap, s)
      == if |before| + 2 > 16 then None else Tokens(before + Group(Value(s[..j], 16)), gap, s[j + 1..])
    ensures j == 0 ==>
      Tokens(before, gap, s) == if gap.Some? then None else Tokens(before, Some(|before|), s[1..])
  {
    hide Value, DigitRun, Tokens, Quad, Finish, Group;
    TokenStep(before, gap, s, j);
    TokensUnfold(before, gap, s);
  }

  /** The end of a text whose last token starts a dotted quad. */
  function WithQuad(before: seq<byte>, gap: Option<nat>, s: string): Option<seq<byte>>
    requires |before| + 4 <= 16 && (gap.Some? ==> gap.value <= |before|)
  {
    QuadFull([], s);
    if Quad([], s).Some? then Finish(before + Quad([], s).value, gap) else None
  }

  /** Anything else behind a token: only a dot can be accepted, and only if the token starts a dotted quad. */
  lemma OtherToken(before: seq<byte>, gap: Option<nat>, s: string, j: nat)
    requires |before| <= 16 && (gap.Some? ==> gap.value <= |before|)
    requires j < |s| && AllDigits(s[..j], 16) && Value(s[..j], 16) <= 0xffff && s[j] != ':' && !IsDigit(s[j], 16)
    ensures Tokens(before, gap, s)
         == if s[j] == '.' && |before| + 4 <= 16 then WithQuad(before, gap, s) else None
  {
    hide Value, DigitRun, Tokens, Quad, Finish, Group;
    TokenStep(before, gap, s, j);
    TokensUnfold(before, gap, s);
  }

  /** The end of the text behind a token. */
  lemma LastToken(before: seq<byte>, gap: Option<nat>, s: string)
    requires |before| <= 16 && (gap.Some? ==> gap.value <= |before|)
    requires AllDigits(s, 16) && Value(s, 16) <= 0xffff
    ensures Tokens(before, gap, s)
         == if |s| == 0 then Finish(before, gap)
            else if |before| + 2 > 16 then None
            else Finish(before + Group(Value(s, 16)), gap)
  {
    hide Value, DigitRun, Tokens, Quad, Finish, Group;
    assert s[..|s|] == s;
    TokenStep(before, gap, s, |s|);
    TokensUnfold(before, gap, s);
  }

  /** The shift done by hand: the octets behind `::` move to the end, in place and over themselves. */
  method ShiftToEnd(tmp: array<byte>, colonp: nat, tp: nat)
    requires tmp.Length == 16 && colonp <= tp <= 16
    requires forall k :: tp <= k < 16 ==> tmp[k] == 0
    modifies tmp
    ensures Finish(old(tmp[..tp]), Some(colonp)) == Some(tmp[..])
  {
    ghost var was := tmp[..];
    var n, i := tp - colonp, 1;
    while i <= n
      invariant 1 <= i <= n + 1
      invariant forall k :: 0 <= k <= tp - i ==> tmp[k] == was[k]
      invariant forall k :: tp - i < k < 16 - i + 1 ==> tmp[k] == 0
      invariant tp < 16 ==> forall k :: 17 - i <= k < 16 ==> tmp[k] == was[k - 16 + tp]
      invariant tp == 16 ==> forall k :: 17 - i <= k < 16 ==> tmp[k] == 0
    {
      tmp[16 - i] := tmp[colonp + n - i];
      tmp[colonp + n - i] := 0;
      i := i + 1;
    }
    Shifted(was, tmp[..], colonp, tp);
  }

  /** What the shift leaves. */
  lemma Shifted(was: seq<byte>, now: seq<byte>, colonp: nat, tp: nat)
    requires |was| == |now| == 16 && colonp <= tp <= 16
    requires forall k :: 0 <= k < colonp ==> now[k] == was[k]
    requires tp < 16 ==> forall k :: colonp <= k < 16 ==> now[k] == if k < colonp + 16 - tp then 0 else was[k - 16 + tp]
    requires tp == 16 ==> forall k :: colonp <= k < 16 ==> now[k] == 0
    ensures Finish(was[..tp], Some(colonp)) == Some(now)
  {
    var before := was[..tp];
    assert before[..colonp] == was[..colonp] && before[colonp..] == was[colonp..tp];
    if tp < 16 {
      assert now == was[..colonp] + Zeros(16 - tp) + was[colonp..tp];
    } else {
      assert now == was[..colonp] + Zeros(16 - colonp);
    }
  }

  ghost function GapAt(colonp: int): Option<nat> {
    if colonp < 0 then None else Some(colonp)
  }

  /** Stores a group at tp, high octet first. */
  method StoreGroup(tmp: array<byte>, tp: nat, val: nat)
    requires tp + 2 <= tmp.Length && val <= 0xffff
    modifies tmp
    ensures tmp[..tp + 2] == old(tmp[..tp]) + Group(val)
    ensures tmp[tp + 2..] == old(tmp[tp + 2..])
  {
    tmp[tp] := val / 256 % 256;
    tmp[tp + 1] := val % 256;
  }

  /** The end of the text: store a pending group, shift what follows `::`, and insist on sixteen octets. */
  method Complete(tmp: array<byte>, tp0: nat, colonp: int, sawXdigit: bool, val: nat) returns (ok: bool)
    requires tmp.Length == 16 && -1 <= colonp <= tp0 <= 16 && val <= 0xffff
    requires forall k :: tp0 <= k < 16 ==> tmp[k] == 0
    modifies tmp
    ensures ok == if sawXdigit then
                    tp0 + 2 <= 16 && Finish(old(tmp[..tp0]) + Group(val), GapAt(colonp)).Some?
                  else Finish(old(tmp[..tp0]), GapAt(colonp)).Some?
    ensures ok ==>
      Some(tmp[..]) == Finish(if sawXdigit then old(tmp[..tp0]) + Group(val) else old(tmp[..tp0]), GapAt(colonp))
  {
    var tp := tp0;
    if sawXdigit {
      if tp + 2 > 16 {
        return false;
      }
      StoreGroup(tmp, tp, val);
      tp := tp + 2;
      assert forall k :: tp <= k < 16 ==> tmp[k] == tmp[tp..][k - tp] == 0;
    }
    if colonp >= 0 {
      assert tmp[..tp] == if sawXdigit then old(tmp[..tp0]) + Group(val) else old(tmp[..tp0]);
      ShiftToEnd(tmp, colonp, tp);
      tp := 16;
    }
    assert tp == 16 ==> tmp[..tp] == tmp[..];
    return tp == 16;
  }

  /** A dot: the token is handed to inet_pton4, which reads to the end of the text. */
  method DottedEnd(tok: string, tmp: array<byte>, tp: nat, colonp: int, dst: array<byte>) returns (ok: bool)
    requires tmp.Length == dst.Length == 16 && tmp != dst && tp + 4 <= 16 && -1 <= colonp <= tp
    requires forall k :: tp <= k < 16 ==> tmp[k] == 0
    modifies tmp, dst
    ensures var r := WithQuad(old(tmp[..tp]), GapAt(colonp), tok);
            ok == r.Some? && dst[..] == if ok then r.value else old(dst[..])
  {
    hide Quad, Finish;
    ghost var was := tmp[..];
    ok := InetPton4(tok, tmp, tp);
    if ok {
      QuadFull([], tok);
      assert tmp[..tp + 4] == was[..tp] + Quad([], tok).value;
      assert forall k :: tp + 4 <= k < 16 ==> tmp[k] == was[k];
      ok := Complete(tmp, tp + 4, colonp, false, 0);
      if ok {
        Copy(tmp, dst);
      }
    }
  }

  /** inet_pton6: one pass over the characters; dst is written only when the text is accepted. */
  method InetPton6(s: string, dst: array<byte>) returns (ok: bool)
    requires dst.Length == 16
    modifies dst
    ensures ok == Pton6(s).Some?
    ensures dst[..] == if ok then Pton6(s).value else old(dst[..])
  {
    hide Value, DigitRun, Tokens, Quad, Finish, Group, WithQuad;
    var tmp: array<byte> := new byte[16](_ => 0);
    var tp, colonp, i := 0, -1, 0;
    if s != "" && s[0] == ':' {
      i := 1;
      if |s| == 1 || s[1] != ':' {
        return false;
      }
    }
    var curtok, sawXdigit, val := i, false, 0;
    ghost var j := 0;
    assert tmp[..0] == [] && s[curtok..][..0] == "" && s[0..] == s;
    ValueOfNothing();
    while i < |s|
      invariant curtok + j == i <= |s| && 0 <= tp <= 16 && -1 <= colonp <= tp
      invariant forall k :: tp <= k < 16 ==> tmp[k] == 0
      invariant AllDigits(s[curtok..][..j], 16) && val == Value(s[curtok..][..j], 16) <= 0xffff
      invariant sawXdigit == (0 < j)
      invariant Pton6(s) == Tokens(tmp[..tp], GapAt(colonp), s[curtok..])
      invariant dst[..] == old(dst[..])
    {
      var ch := s[i];
      ghost var before, tok := tmp[..tp], s[curtok..];
      assert tok[j] == ch;
      i := i + 1;
      if IsDigit(ch, 16) {
        TokenStep(before, GapAt(colonp), tok, j);
        val := val * 16 + DigitOf(ch);  // shifted by a digit: the low four bits are free
        if val > 0xffff {
          return false;
        }
        sawXdigit, j := true, j + 1;
        continue;
      }
      if ch == ':' {
        ColonToken(before, GapAt(colonp), tok, j);
        assert tok[j + 1..] == s[i..] && s[i..][..0] == "";
        ValueOfNothing();
        if !sawXdigit {
          curtok := i;
          if colonp >= 0 {
            return false;
          }
          colonp := tp;
          continue;
        }
        if tp + 2 > 16 {
          return false;
        }
        StoreGroup(tmp, tp, val);
        assert forall k :: tp + 2 <= k < 16 ==> tmp[k] == tmp[tp + 2..][k - tp - 2] == 0;
        curtok, tp, sawXdigit, val, j := i, tp + 2, false, 0, 0;
        continue;
      }
      OtherToken(before, GapAt(colonp), tok, j);
      if ch == '.' && tp + 4 <= 16 {
        ok := DottedEnd(s[curtok..], tmp, tp, colonp, dst);
        return;
      }
      return false;
    }
    assert s[curtok..][..j] == s[curtok..];
    LastToken(tmp[..tp], GapAt(colonp), s[curtok..]);
    ok := Complete(tmp, tp, colonp, sawXdigit, val);
    if ok {
      Copy(tmp, dst);
    }
  }

  method Copy(tmp: array<byte>, dst: array<byte>)
    requires tmp.Length == dst.Length == 16 && tmp != dst
    modifies dst
    ensures dst[..] == tmp[..]
  {
    forall k | 0 <= k < 16 {
      dst[k] := tmp[k];
    }
  }

  lemma ValueOfNothing()
    ensures Value("", 16) == 0
  {
  }
}
