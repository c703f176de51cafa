/** Byte streams cut at a terminator: the reference forms of deframing and of line reading. */
module Framing {
  import opened Common

  /** The bytes up to and including the first terminator, at most max of them. */
  function PieceLen(s: seq<byte>, t: byte, max: nat): (k: nat)
    ensures k <= |s| && k <= max
    ensures t !in s[..if k == 0 then 0 else k - 1]
    ensures k < |s| && k < max ==> k > 0 && s[k - 1] == t
  {
    if max == 0 || |s| == 0 then 0
    else if s[0] == t then 1
    else
      var k := PieceLen(s[1..], t, max - 1);
      assert k > 0 ==> s[..k] == [s[0]] + s[1..][..k - 1];
      1 + k
  }

  /** There is only one such length. */
  lemma {:induction false} PieceLenIs(s: seq<byte>, t: byte, max: nat, k: nat)
    requires k <= |s| && k <= max && (k > 0 ==> t !in s[..k - 1])
    requires k == |s| || k == max || (k > 0 && s[k - 1] == t)
    ensures PieceLen(s, t, max) == k
  {
    if k > 1 {
      assert s[..k - 1][0] == s[0];
      assert s[1..][..k - 2] == s[..k - 1][1..];
      PieceLenIs(s[1..], t, max - 1, k - 1);
    } else if k == 1 && s[0] != t {
      PieceLenIs(s[1..], t, max - 1, 0);
    }
  }

  /** A reader has stored k bytes, none of them the terminator: where the piece ends. */
  lemma PieceEnds(s: seq<byte>, t: byte, max: nat, k: nat)
    requires k <= |s| && k <= max && t !in s[..k]
    ensures k > 0 ==> s[k - 1] != t
    ensures k < max && k < |s| && s[k] == t ==> PieceLen(s, t, max) == k + 1
    ensures k == max || k == |s| ==> PieceLen(s, t, max) == k
    ensures k < |s| && s[k] != t ==> t !in s[..k + 1]
  {
    hide PieceLen;
    if k > 0 {
      assert s[..k][k - 1] == s[k - 1] && s[..k - 1] == s[..k][..k - 1];
    }
    if k < |s| {
      assert s[..k + 1] == s[..k] + [s[k]];
    }
    if k < max && k < |s| && s[k] == t {
      PieceLenIs(s, t, max, k + 1);
    } else if k == |s| || k == max {
      PieceLenIs(s, t, max, k);
    }
  }

  /** The most bytes that a reader with a buffer of bufLen bytes stores. */
  function Limit(bufLen: nat): nat {
    if bufLen == 0 then 0 else bufLen - 1
  }

  /** The pieces a reader of at most max bytes at a time hands out. */
  function Pieces(s: seq<byte>, t: byte, max: nat): seq<seq<byte>>
    requires max > 0
    decreases |s|
  {
    if |s| == 0 then [] else
      var k := PieceLen(s, t, max);
      if k == 0 then [] else [s[..k]] + Pieces(s[k..], t, max)
  }

  function Concat(ps: seq<seq<byte>>): seq<byte> {
    if |ps| == 0 then [] else ps[0] + Concat(ps[1..])
  }

  predicate Complete(m: seq<byte>, t: byte) {
    |m| > 0 && m[|m| - 1] == t && t !in m[..|m| - 1]
  }

  /** The length of the first complete message, or 0. */
  function MsgLen(s: seq<byte>, t: byte): (n: nat)
    ensures n <= |s| && (n > 0 ==> Complete(s[..n], t)) && (n == 0 ==> t !in s)
  {
    var k := PieceLen(s, t, |s|);
    assert k > 0 ==> s[..k][..k - 1] == s[..k - 1] && s[..k][k - 1] == s[k - 1];
    if k > 0 && s[k - 1] == t then k
    else
      assert k > 0 ==> s == s[..k - 1] + [s[k - 1]];
      0
  }

  /** The complete messages of a stream, in order. */
  function Messages(s: seq<byte>, t: byte): seq<seq<byte>>
    decreases |s|
  {
    var n := MsgLen(s, t);
    if n == 0 then [] else [s[..n]] + Messages(s[n..], t)
  }

  /** What follows the last terminator. */
  function Leftover(s: seq<byte>, t: byte): seq<byte>
    decreases |s|
  {
    var n := MsgLen(s, t);
    if n == 0 then s else Leftover(s[n..], t)
  }

  lemma MessagesUnfold(s: seq<byte>, t: byte)
    ensures MsgLen(s, t) == 0 ==> Messages(s, t) == [] && Leftover(s, t) == s && t !in s
    ensures MsgLen(s, t) > 0 ==> var n := MsgLen(s, t);
      Complete(s[..n], t) && Messages(s, t) == [s[..n]] + Messages(s[n..], t) && Leftover(s, t) == Leftover(s[n..], t)
  {
  }

  lemma ConcatCons(p: seq<byte>, ps: seq<seq<byte>>)
    ensures Concat([p] + ps) == p + Concat(ps)
  {
    assert ([p] + ps)[1..] == ps;
  }

  /** Nothing is lost, and every message ends in its only terminator. */
  lemma {:induction false} MessagesCover(s: seq<byte>, t: byte)
    ensures Concat(Messages(s, t)) + Leftover(s, t) == s
    ensures (forall m <- Messages(s, t) :: Complete(m, t)) && t !in Leftover(s, t)
    decreases |s|
  {
    hide Messages, Leftover, MsgLen, Concat, Complete;
    MessagesUnfold(s, t);
    var n := MsgLen(s, t);
    if n > 0 {
      MessagesCover(s[n..], t);
      ConcatCons(s[..n], Messages(s[n..], t));
      assert s == s[..n] + s[n..];
    } else {
      ConcatNil();
    }
  }

  lemma ConcatNil()
    ensures Concat([]) == []
  {
  }

  lemma MsgLenIs(m: seq<byte>, b: seq<byte>, t: byte)
    requires Complete(m, t)
    ensures MsgLen(m + b, t) == |m| && (m + b)[..|m|] == m && (m + b)[|m|..] == b
  {
    assert (m + b)[..|m| - 1] == m[..|m| - 1];
    PieceLenIs(m + b, t, |m + b|, |m|);
  }

  /** Any messages put on the wire come out again. */
  lemma {:induction false} MessagesRecovered(ms: seq<seq<byte>>, rest: seq<byte>, t: byte)
    requires (forall m <- ms :: Complete(m, t)) && t !in rest
    ensures Messages(Concat(ms) + rest, t) == ms && Leftover(Concat(ms) + rest, t) == rest
  {
    if |ms| == 0 {
      assert Concat(ms) + rest == rest;
      NoMessage(rest, t);
    } else {
      MsgLenIs(ms[0], Concat(ms[1..]) + rest, t);
      assert Concat(ms) + rest == ms[0] + (Concat(ms[1..]) + rest);
      MessagesRecovered(ms[1..], rest, t);
    }
  }

  lemma NoMessage(s: seq<byte>, t: byte)
    requires t !in s
    ensures MsgLen(s, t) == 0 && Messages(s, t) == [] && Leftover(s, t) == s
  {
  }

  /** Where a stream is cut does not matter: the leftover carries everything over. */
  lemma {:induction false} MessagesInTwo(a: seq<byte>, b: seq<byte>, t: byte)
    ensures Messages(a + b, t) == Messages(a, t) + Messages(Leftover(a, t) + b, t)
    ensures Leftover(a + b, t) == Leftover(Leftover(a, t) + b, t)
    decreases |a|
  {
    hide Messages, Leftover, MsgLen, Complete;
    MessagesUnfold(a, t);
    MessagesUnfold(a + b, t);
    var n := MsgLen(a, t);
    if n > 0 {
      var first, rest := a[..n], a[n..];
      assert a + b == first + (rest + b);
      MsgLenIs(first, rest + b, t);
      MessagesInTwo(rest, b, t);
      assert [first] + (Messages(rest, t) + Messages(Leftover(rest, t) + b, t))
          == [first] + Messages(rest, t) + Messages(Leftover(rest, t) + b, t);
    } else {
      assert [] + Messages(a + b, t) == Messages(a + b, t);
    }
  }

  /** A piece: at most max bytes, with no terminator but at its end. */
  predicate Piece(p: seq<byte>, t: byte, max: nat) {
    0 < |p| <= max && t !in p[..|p| - 1]
  }

  predicate Full(p: seq<byte>, t: byte, max: nat) {
    |p| == max || (|p| > 0 && p[|p| - 1] == t)
  }

  lemma PiecesUnfold(s: seq<byte>, t: byte, max: nat)
    requires max > 0
    ensures |s| == 0 ==> Pieces(s, t, max) == []
    ensures |s| > 0 ==> var k := PieceLen(s, t, max);
      k > 0 && Piece(s[..k], t, max) && (k < |s| ==> Full(s[..k], t, max))
      && Pieces(s, t, max) == [s[..k]] + Pieces(s[k..], t, max)
  {
    var k := PieceLen(s, t, max);
    if k > 0 {
      assert s[..k][..k - 1] == s[..k - 1];
    }
  }

  /** The pieces make up the stream, and only the last one can be cut short by the end of it. */
  lemma {:induction false} PiecesCover(s: seq<byte>, t: byte, max: nat)
    requires max > 0
    ensures Concat(Pieces(s, t, max)) == s && (s != [] ==> Pieces(s, t, max) != [])
    ensures forall p <- Pieces(s, t, max) :: Piece(p, t, max)
    ensures forall i :: 0 <= i < |Pieces(s, t, max)| - 1 ==> Full(Pieces(s, t, max)[i], t, max)
    decreases |s|
  {
    hide Pieces, PieceLen, Piece, Full, Concat;
    PiecesUnfold(s, t, max);
    if |s| > 0 {
      var k := PieceLen(s, t, max);
      var rest := Pieces(s[k..], t, max);
      PiecesCover(s[k..], t, max);
      ConcatCons(s[..k], rest);
      assert s == s[..k] + s[k..];
      PiecesUnfold(s[k..], t, max);
      assert forall i :: 0 < i < |rest| ==> ([s[..k]] + rest)[i] == rest[i - 1];
    } else {
      ConcatNil();
    }
  }

  /** A bounded reader yields exactly the messages, just when none is too long and none is unfinished. */
  lemma PiecesAreMessages(s: seq<byte>, t: byte, max: nat)
    requires max > 0
    ensures Pieces(s, t, max) == Messages(s, t) <==>
            Leftover(s, t) == [] && forall m <- Messages(s, t) :: |m| <= max
  {
    MessagesCover(s, t);
    PiecesCover(s, t, max);
    if Pieces(s, t, max) == Messages(s, t) {
      assert Concat(Messages(s, t)) == s && |s| == |Concat(Messages(s, t))| + |Leftover(s, t)|;
    } else if Leftover(s, t) == [] && forall m <- Messages(s, t) :: |m| <= max {
      ShortMessagesArePieces(s, t, max);
    }
  }

  lemma {:induction false} ShortMessagesArePieces(s: seq<byte>, t: byte, max: nat)
    requires max > 0 && Leftover(s, t) == [] && forall m <- Messages(s, t) :: |m| <= max
    ensures Pieces(s, t, max) == Messages(s, t)
    decreases |s|
  {
    var n := MsgLen(s, t);
    if n > 0 {
      assert s[..n] == Messages(s, t)[0] && Messages(s, t)[1..] == Messages(s[n..], t);
      assert s[..n][..n - 1] == s[..n - 1];
      PieceLenIs(s, t, max, n);
      ShortMessagesArePieces(s[n..], t, max);
    }
  }
}
