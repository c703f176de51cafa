/** The parse buffer of the multiplexing calculator client, and the byte-at-a-time reader of the others. */
module Deframe {
  import opened Common
  import opened Framing
  import opened Streams

  const BUF_SIZE := 2048
  const MSG_TERMINATOR: byte := '=' as int

  class ParseBuf {
    var curSize: nat
    const buf: array<byte>

    ghost predicate Valid()
      reads this
    {
      buf.Length == 2 * BUF_SIZE && curSize <= BUF_SIZE
    }

    /** The bytes received but not handed out. */
    ghost function Held(): seq<byte>
      requires Valid()
      reads this, buf
    {
      buf[..curSize]
    }

    constructor ()
      ensures Valid() && Held() == [] && fresh(buf)
    {
      curSize := 0;
      buf := new byte[2 * BUF_SIZE](_ => 0);
    }

    /** appendParseBuf; not ok is err_quit. */
    method Append(data: seq<byte>) returns (ok: bool)
      requires Valid()
      modifies this, buf
      ensures Valid() && ok == (|data| + |old(Held())| <= 2048)
      ensures Held() == if ok then old(Held()) + data else old(Held())
    {
      if |data| + curSize > BUF_SIZE {
        return false;
      }
      for i := 0 to |data|
        invariant curSize == old(curSize)
        invariant buf[..curSize] == old(Held()) && buf[curSize..curSize + i] == data[..i]
      {
        buf[curSize + i] := data[i];
      }
      assert buf[..curSize + |data|] == buf[..curSize] + buf[curSize..curSize + |data|];
      curSize := curSize + |data|;
      ok := true;
    }

    /** The scan for the terminator. */
    method Find() returns (i: nat)
      requires Valid()
      ensures i <= curSize && MSG_TERMINATOR !in buf[..i] && (i < curSize ==> buf[i] == MSG_TERMINATOR)
    {
      i := 0;
      while i < curSize && buf[i] != MSG_TERMINATOR
        invariant i <= curSize && MSG_TERMINATOR !in buf[..i]
      {
        assert buf[..i + 1] == buf[..i] + [buf[i]];
        i := i + 1;
      }
    }

    /** bcopy to the front of the buffer, which it overlaps. */
    method Shift(from: nat)
      requires Valid() && from <= curSize
      modifies buf
      ensures buf[..curSize - from] == old(buf[from..curSize])
    {
      for i := 0 to curSize - from
        invariant buf[..i] == old(buf[from..from + i]) && buf[from + i..] == old(buf[from + i..])
      {
        assert buf[from + i] == buf[from + i..][0] == old(buf[from + i..])[0];
        buf[i] := buf[from + i];
        assert buf[from + i + 1..] == old(buf[from + i..])[1..];
        assert buf[..i + 1] == buf[..i] + [buf[i]];
      }
    }

    /** getAppMsg: 0, or the length of the message moved to out. */
    method GetAppMsg(out: array<byte>) returns (n: nat)
      requires Valid() && out.Length >= BUF_SIZE && out != buf
      modifies this, buf, out
      ensures Valid() && n == MsgLen(old(Held()), MSG_TERMINATOR)
      ensures out[..n] == old(Held())[..n] && out[n..] == old(out[n..])
      ensures Held() == old(Held())[n..]
    {
      hide MsgLen;
      ghost var held := Held();
      FirstMessage(held, 0);
      if curSize == 0 {
        return 0;
      }
      var i := Find();
      FirstMessage(held, i);
      if i == curSize {
        return 0;
      }
      i := i + 1;
      for k := 0 to i
        invariant curSize == |held|
        invariant out[..k] == buf[..k] && out[i..] == old(out[i..]) && buf[..] == old(buf[..])
      {
        out[k] := buf[k];
        assert out[..k + 1] == out[..k] + [out[k]];
      }
      Shift(i);
      curSize := curSize - i;
      n := i;
    }

    /** A read of the socket: the chunk is stored, and every complete message is taken out. */
    method OnSocket(chunk: seq<byte>, msgBuf: array<byte>) returns (ok: bool, messages: seq<seq<byte>>)
      requires Valid() && msgBuf.Length >= BUF_SIZE && msgBuf != buf
      modifies this, buf, msgBuf
      ensures Valid() && ok == (|old(Held())| + |chunk| <= BUF_SIZE)
      ensures ok ==> messages == Messages(old(Held()) + chunk, MSG_TERMINATOR)
                     && Held() == Leftover(old(Held()) + chunk, MSG_TERMINATOR)
      ensures !ok ==> messages == [] && Held() == old(Held())
    {
      hide MsgLen, Messages, Leftover, Complete, Survives, Concat;
      messages := [];
      ok := Append(chunk);
      if !ok {
        return;
      }
      ghost var all := Held();
      assert [] + Messages(all, MSG_TERMINATOR) == Messages(all, MSG_TERMINATOR);
      ghost var held := Held();
      MessagesUnfold(held, MSG_TERMINATOR);
      var msgLen := GetAppMsg(msgBuf);
      while msgLen != 0
        invariant Valid() && msgLen == MsgLen(held, MSG_TERMINATOR) && msgBuf[..msgLen] == held[..msgLen]
        invariant Held() == held[msgLen..]
        invariant messages + Messages(held, MSG_TERMINATOR) == Messages(all, MSG_TERMINATOR)
        invariant Leftover(held, MSG_TERMINATOR) == Leftover(all, MSG_TERMINATOR)
        decreases |held|
      {
        MessagesUnfold(held, MSG_TERMINATOR);
        messages := messages + [msgBuf[..msgLen]];
        held := Held();
        msgLen := GetAppMsg(msgBuf);
      }
      MessagesUnfold(held, MSG_TERMINATOR);
    }

    /** The socket's side of doClient over the reads of a connection. */
    method Session(chunks: seq<seq<byte>>, msgBuf: array<byte>) returns (ok: bool, messages: seq<seq<byte>>)
      requires Valid() && Held() == [] && msgBuf.Length >= BUF_SIZE && msgBuf != buf
      modifies this, buf, msgBuf
      ensures Valid() && ok == Survives([], chunks)
      ensures ok ==> messages == Messages(Concat(chunks), MSG_TERMINATOR)
                     && Held() == Leftover(Concat(chunks), MSG_TERMINATOR)
    {
      hide Messages, Leftover, Survives, Concat;
      messages, ok := [], true;
      var i := 0;
      ghost var received: seq<byte> := [];
      NothingYet(chunks);
      while i < |chunks|
        invariant 0 <= i <= |chunks| && Valid()
        invariant received + Concat(chunks[i..]) == Concat(chunks)
        invariant messages == Messages(received, MSG_TERMINATOR) && Held() == Leftover(received, MSG_TERMINATOR)
        invariant Survives([], chunks) == Survives(Held(), chunks[i..])
      {
        SurvivesUnfold(Held(), chunks[i..]);
        MessagesInTwo(received, chunks[i], MSG_TERMINATOR);
        ConcatCons(chunks[i], chunks[i + 1..]);
        assert chunks[i..] == [chunks[i]] + chunks[i + 1..];
        var more;
        ok, more := OnSocket(chunks[i], msgBuf);
        if !ok {
          return;
        }
        messages := messages + more;
        received := received + chunks[i];
        i := i + 1;
      }
      SurvivesUnfold(Held(), chunks[i..]);
      ConcatNil();
      assert chunks[i..] == [] && received == Concat(chunks);
    }
  }

  /** A position with the terminator, or the end, and none before it. */
  lemma FirstMessage(s: seq<byte>, i: nat)
    ensures s == [] ==> MsgLen(s, MSG_TERMINATOR) == 0
    ensures i <= |s| && MSG_TERMINATOR !in s[..i] && (i < |s| ==> s[i] == MSG_TERMINATOR) ==>
              MsgLen(s, MSG_TERMINATOR) == if i == |s| then 0 else i + 1
  {
    if i < |s| && MSG_TERMINATOR !in s[..i] && s[i] == MSG_TERMINATOR {
      PieceLenIs(s, MSG_TERMINATOR, |s|, i + 1);
    } else if i == |s| && MSG_TERMINATOR !in s[..i] {
      assert s[..i] == s;
    }
  }

  /** No read overflows the parse buffer, which holds these bytes. */
  predicate Survives(held: seq<byte>, chunks: seq<seq<byte>>)
    decreases |chunks|
  {
    |chunks| == 0
    || (|held| + |chunks[0]| <= BUF_SIZE && Survives(Leftover(held + chunks[0], MSG_TERMINATOR), chunks[1..]))
  }

  lemma SurvivesUnfold(held: seq<byte>, chunks: seq<seq<byte>>)
    ensures |chunks| == 0 ==> Survives(held, chunks)
    ensures |chunks| > 0 ==>
      (Survives(held, chunks) <==>
       |held| + |chunks[0]| <= BUF_SIZE && Survives(Leftover(held + chunks[0], MSG_TERMINATOR), chunks[1..]))
  {
  }

  lemma NothingYet(chunks: seq<seq<byte>>)
    ensures Messages([], MSG_TERMINATOR) == [] && Leftover([], MSG_TERMINATOR) == []
    ensures [] + Concat(chunks[0..]) == Concat(chunks) && chunks[0..] == chunks
  {
  }

  lemma {:induction false} ConcatSplit(chunks: seq<seq<byte>>, i: nat)
    requires i < |chunks|
    ensures Concat(chunks[..i + 1]) == Concat(chunks[..i]) + chunks[i]
  {
    if i == 0 {
      assert chunks[..1] == [chunks[0]] && Concat([chunks[0]]) == chunks[0] + Concat([]);
    } else {
      ConcatSplit(chunks[1..], i - 1);
      assert chunks[..i + 1] == [chunks[0]] + chunks[1..][..i];
      assert chunks[..i] == [chunks[0]] + chunks[1..][..i - 1];
      ConcatCons(chunks[0], chunks[1..][..i]);
      ConcatCons(chunks[0], chunks[1..][..i - 1]);
    }
  }

  /** The unfinished message when read i begins. */
  function HeldBefore(chunks: seq<seq<byte>>, i: nat): seq<byte>
    requires i <= |chunks|
  {
    Leftover(Concat(chunks[..i]), MSG_TERMINATOR)
  }

  /** A connection overflows exactly when some read does not fit behind the unfinished message. */
  lemma SurvivesExactly(chunks: seq<seq<byte>>)
    ensures Survives([], chunks) <==>
            forall i :: 0 <= i < |chunks| ==> |HeldBefore(chunks, i)| + |chunks[i]| <= BUF_SIZE
  {
    NothingYet(chunks);
    assert HeldBefore(chunks, 0) == [];
    SurvivesFrom(chunks, 0);
  }

  lemma {:induction false} SurvivesFrom(chunks: seq<seq<byte>>, i: nat)
    requires i <= |chunks|
    ensures Survives(HeldBefore(chunks, i), chunks[i..]) <==>
            forall j :: i <= j < |chunks| ==> |HeldBefore(chunks, j)| + |chunks[j]| <= BUF_SIZE
    decreases |chunks| - i
  {
    hide Survives, Leftover, Messages, Concat;
    SurvivesUnfold(HeldBefore(chunks, i), chunks[i..]);
    if i < |chunks| {
      ConcatSplit(chunks, i);
      MessagesInTwo(Concat(chunks[..i]), chunks[i], MSG_TERMINATOR);
      SurvivesFrom(chunks, i + 1);
      assert chunks[i..][1..] == chunks[i + 1..];
    }
  }

  /** The reads of a connection that delivers this stream: each brings something, and no more than it asked for. */
  ghost predicate Delivers(chunks: seq<seq<byte>>, s: seq<byte>) {
    Concat(chunks) == s && forall c <- chunks :: 0 < |c| <= BUF_SIZE
  }

  /** Whatever the next read brings, there is room for it behind the message that is unfinished at p. */
  predicate RoomAt(s: seq<byte>, p: nat)
    requires p < |s|
  {
    |Leftover(s[..p], MSG_TERMINATOR)| + Min(BUF_SIZE, |s| - p) <= BUF_SIZE
  }

  /** The streams on which the client never quits, however the network cuts them. */
  lemma SafeStreams(s: seq<byte>)
    ensures (forall chunks :: Delivers(chunks, s) ==> Survives([], chunks)) <==>
            (forall p :: 0 <= p < |s| ==> RoomAt(s, p))
  {
    hide Survives, Leftover;
    if forall p :: 0 <= p < |s| ==> RoomAt(s, p) {
      forall chunks | Delivers(chunks, s)
        ensures Survives([], chunks)
      {
        RoomForAll(chunks, s);
      }
    } else {
      var p :| 0 <= p < |s| && !RoomAt(s, p);
      var chunks, i := Crowded(s, p);
      SurvivesExactly(chunks);
      assert |HeldBefore(chunks, i)| + |chunks[i]| > BUF_SIZE;
    }
  }

  lemma RoomForAll(chunks: seq<seq<byte>>, s: seq<byte>)
    requires Delivers(chunks, s) && forall p :: 0 <= p < |s| ==> RoomAt(s, p)
    ensures Survives([], chunks)
  {
    hide Survives, Leftover, Concat;
    SurvivesExactly(chunks);
    forall i | 0 <= i < |chunks|
      ensures |HeldBefore(chunks, i)| + |chunks[i]| <= BUF_SIZE
    {
      ConcatSplit(chunks, i);
      ConcatParts(chunks, i);
      ConcatParts(chunks, i + 1);
      var p := |Concat(chunks[..i])|;
      assert chunks[i] in chunks;
      assert s[..p] == Concat(chunks[..i]);
      assert p + |chunks[i]| <= |s| && RoomAt(s, p);
    }
  }

  lemma {:induction false} ConcatParts(chunks: seq<seq<byte>>, i: nat)
    requires i <= |chunks|
    ensures Concat(chunks) == Concat(chunks[..i]) + Concat(chunks[i..])
  {
    if i == 0 {
      assert chunks[..0] == [] && chunks[0..] == chunks;
    } else {
      ConcatParts(chunks, i - 1);
      ConcatSplit(chunks, i - 1);
      assert chunks[i - 1..] == [chunks[i - 1]] + chunks[i..];
      ConcatCons(chunks[i - 1], chunks[i..]);
    }
  }

  /** Byte by byte. */
  lemma {:induction false} Singles(s: seq<byte>) returns (chunks: seq<seq<byte>>)
    ensures Delivers(chunks, s)
  {
    if |s| == 0 {
      chunks := [];
    } else {
      chunks := Singles(s[1..]);
      ConcatCons([s[0]], chunks);
      chunks := [[s[0]]] + chunks;
    }
  }

  /** A network that waits at p and then delivers as much as it can. */
  lemma Crowded(s: seq<byte>, p: nat) returns (chunks: seq<seq<byte>>, i: nat)
    requires p < |s|
    ensures Delivers(chunks, s) && i < |chunks| && Concat(chunks[..i]) == s[..p]
    ensures |chunks[i]| == Min(BUF_SIZE, |s| - p)
  {
    var m := Min(BUF_SIZE, |s| - p);
    var before := Singles(s[..p]);
    var behind := Singles(s[p + m..]);
    var read := s[p..p + m];
    chunks, i := before + ([read] + behind), |before|;
    ConcatParts(chunks, i);
    ConcatCons(read, behind);
    assert chunks[..i] == before && chunks[i..] == [read] + behind;
    assert s == s[..p] + (read + s[p + m..]);
  }

  /** The same stream of two-byte and one-byte messages, cut in two ways by the network. */
  function OneWay(): seq<seq<byte>> {
    [[0x31, MSG_TERMINATOR], seq(BUF_SIZE, _ => MSG_TERMINATOR)]
  }

  function OtherWay(): seq<seq<byte>> {
    [[0x31], seq(BUF_SIZE, _ => MSG_TERMINATOR), [MSG_TERMINATOR]]
  }

  /** Whether the client quits depends on how the network cut the stream. */
  lemma OverflowDependsOnReads()
    ensures Concat(OneWay()) == Concat(OtherWay())
    ensures Survives([], OneWay()) && !Survives([], OtherWay())
  {
    hide Survives, Concat, OneWay, OtherWay;
    SameStream();
    OneWaySurvives();
    OtherWayDoesNot();
  }

  lemma SameStream()
    ensures Concat(OneWay()) == Concat(OtherWay())
  {
    hide Concat;
    var m, fill := OneWay()[0], OneWay()[1];
    var first: seq<byte>, last: seq<byte> := [0x31], [MSG_TERMINATOR];
    ConcatNil();
    ConcatCons(fill, []);
    ConcatCons(m, [fill]);
    ConcatCons(last, []);
    ConcatCons(fill, [last]);
    ConcatCons(first, [fill, last]);
    assert [m] + [fill] == OneWay() && [fill] + [] == [fill];
    assert [first] + [fill, last] == OtherWay() && [fill] + [last] == [fill, last] && [last] + [] == [last];
    assert m + fill == first + (fill + last);
  }

  lemma OneWaySurvives()
    ensures Survives([], OneWay())
  {
    hide Survives, Leftover, Messages;
    var m, fill := OneWay()[0], OneWay()[1];
    OneMessage(m);
    SurvivesUnfold([], OneWay());
    SurvivesUnfold([], [fill]);
    SurvivesUnfold(Leftover([] + fill, MSG_TERMINATOR), [fill][1..]);
    assert [] + m == m && OneWay()[1..] == [fill];
  }

  lemma OtherWayDoesNot()
    ensures !Survives([], OtherWay())
  {
    hide Survives, Leftover, Messages;
    var first, fill := OtherWay()[0], OtherWay()[1];
    NoMessage(first, MSG_TERMINATOR);
    SurvivesUnfold([], OtherWay());
    SurvivesUnfold(first, OtherWay()[1..]);
    assert [] + first == first && OtherWay()[1..][0] == fill;
  }

  lemma OneMessage(m: seq<byte>)
    requires Complete(m, MSG_TERMINATOR)
    ensures Leftover(m, MSG_TERMINATOR) == []
  {
    assert Concat([m]) + [] == m;
    MessagesRecovered([m], [], MSG_TERMINATOR);
  }

  /** What readAppMsg returns when no read fails: one too many at the end of the stream and in a full buffer. */
  function AppCount(s: seq<byte>, limit: nat): (n: nat) {
    var k := PieceLen(s, MSG_TERMINATOR, limit);
    if k > 0 && s[k - 1] == MSG_TERMINATOR then k
    else if k == 0 && limit > 0 then 0
    else k + 1
  }

  lemma AppEnds(s: seq<byte>, limit: nat, k: nat)
    requires k <= |s| && k <= limit && MSG_TERMINATOR !in s[..k]
    ensures k < limit && k < |s| && s[k] == MSG_TERMINATOR ==>
              PieceLen(s, MSG_TERMINATOR, limit) == AppCount(s, limit) == k + 1
    ensures k == limit || k == |s| ==>
              PieceLen(s, MSG_TERMINATOR, limit) == k && AppCount(s, limit) == if k == 0 && limit > 0 then 0 else k + 1
    ensures k < |s| && s[k] != MSG_TERMINATOR ==> MSG_TERMINATOR !in s[..k + 1]
  {
    hide PieceLen;
    PieceEnds(s, MSG_TERMINATOR, limit, k);
  }

  /** A call that returned n has stored the bytes up to the terminator, as far as they go, and left the others. */
  ghost predicate AppRead(n: int, buf: seq<byte>, s: seq<byte>, rest: seq<byte>, limit: nat) {
    var k := PieceLen(s, MSG_TERMINATOR, limit);
    n == AppCount(s, limit) && k <= |buf| && buf[..k] == s[..k] && rest == s[k..]
  }

  /** readAppMsg: a read for every byte. */
  method ReadAppMsg(fd: Source, buf: array<byte>, bufLen: nat) returns (n: int)
    requires bufLen <= buf.Length
    modifies fd, buf
    ensures Smooth(old(fd.schedule)) ==> n >= 0 && Smooth(fd.schedule)
    ensures n >= 0 ==> AppRead(n, buf[..], old(fd.unread), fd.unread, Limit(bufLen))
    ensures n < 0 ==>
              n == -1 &&
              (exists j :: 0 <= j <= |old(fd.unread)| && j < bufLen && fd.unread == old(fd.unread)[j..]
                           && buf[..j] == old(fd.unread)[..j])
  {
    hide PieceLen, Smooth, AppCount, ReadCount;
    ghost var s := fd.unread;
    n := 1;
    assert s[..0] == [];
    while n < bufLen
      invariant 1 <= n && n - 1 <= |s| && n - 1 <= Limit(bufLen)
      invariant buf[..n - 1] == s[..n - 1] && fd.unread == s[n - 1..]
      invariant MSG_TERMINATOR !in s[..n - 1]
      invariant Smooth(old(fd.schedule)) ==> Smooth(fd.schedule)
      decreases bufLen - n
    {
      var rc, data, eintr := fd.Read(1);
      AppEnds(s, Limit(bufLen), n - 1);
      if rc == 1 {
        buf[n - 1] := data[0];
        assert buf[..n] == s[..n - 1] + [data[0]] == s[..n];
        if data[0] == MSG_TERMINATOR {
          return;
        }
      } else if rc == 0 {
        if n == 1 {
          return 0;
        }
        return;
      } else {
        return -1;
      }
      n := n + 1;
    }
    AppEnds(s, Limit(bufLen), n - 1);
  }

  /** What readAppMsg returns and stores, by where the '=' is: a message that fits is counted exactly; at the end of the
      stream, and in a full buffer, the count is one more than the bytes stored. */
  lemma CountCases(s: seq<byte>, limit: nat, k: nat)
    requires limit > 0
    ensures 0 < k <= |s| && k <= limit && s[k - 1] == 61 && 61 !in s[..k - 1] ==>
      AppCount(s, limit) == PieceLen(s, MSG_TERMINATOR, limit) == k
    ensures |s| < limit && 61 !in s ==>
      PieceLen(s, MSG_TERMINATOR, limit) == |s| && AppCount(s, limit) == if |s| == 0 then 0 else |s| + 1
    ensures |s| >= limit && 61 !in s[..limit] ==>
      PieceLen(s, MSG_TERMINATOR, limit) == limit && AppCount(s, limit) == limit + 1
  {
    hide PieceLen;
    if 0 < k <= |s| && k <= limit && s[k - 1] == 61 && 61 !in s[..k - 1] {
      PieceLenIs(s, MSG_TERMINATOR, limit, k);
    }
    if |s| < limit && 61 !in s {
      assert s[..|s|] == s;
      AppEnds(s, limit, |s|);
    }
    if |s| >= limit && 61 !in s[..limit] {
      AppEnds(s, limit, limit);
    }
  }

  /** The count is one too high exactly when the reader stops without having met the terminator, having read
      something. */
  lemma CountTooHigh(s: seq<byte>, limit: nat)
    requires limit > 0
    ensures AppCount(s, limit) != PieceLen(s, MSG_TERMINATOR, limit) <==>
            s != [] && MSG_TERMINATOR !in s[..Min(|s|, limit)]
  {
    var k, m := PieceLen(s, MSG_TERMINATOR, limit), Min(|s|, limit);
    if 0 < k {
      assert s[..k] == s[..k - 1] + [s[k - 1]];
      assert k < m ==> s[..m][k - 1] == s[k - 1];
    }
  }

  /** What a caller that trusts the count takes for a piece of the stream: without its terminator, a byte too much. */
  ghost predicate TakenFor(m: seq<byte>, piece: seq<byte>) {
    |m| == |piece| + (if Complete(piece, MSG_TERMINATOR) then 0 else 1) && m[..|piece|] == piece
  }

  ghost predicate AllTakenFor(ms: seq<seq<byte>>, pieces: seq<seq<byte>>) {
    |ms| == |pieces| && forall i :: 0 <= i < |ms| ==> TakenFor(ms[i], pieces[i])
  }

  /** The loop of the servers over readAppMsg, on any stream. What it hands out are exactly the messages that the parse
      buffer gives out if and only if the stream ends at a boundary and every message fits. */
  method Requests(fd: Source, buf: array<byte>, bufLen: nat) returns (messages: seq<seq<byte>>)
    requires 2 <= bufLen <= buf.Length && Smooth(fd.schedule)
    modifies fd, buf
    ensures AllTakenFor(messages, Pieces(old(fd.unread), MSG_TERMINATOR, bufLen - 1)) && fd.unread == []
    ensures messages == Messages(old(fd.unread), MSG_TERMINATOR) <==>
            Leftover(old(fd.unread), MSG_TERMINATOR) == []
            && forall m <- Messages(old(fd.unread), MSG_TERMINATOR) :: |m| < bufLen
  {
    hide Messages, Leftover, Pieces, PieceLen, Smooth, AppRead, AllTakenFor, Concat;
    ghost var s, done: seq<seq<byte>> := fd.unread, [];
    ghost var all := Pieces(s, MSG_TERMINATOR, bufLen - 1);
    messages := [];
    NothingTaken();
    assert done + all == all;
    var n := ReadAppMsg(fd, buf, bufLen);
    while n > 0
      invariant Smooth(fd.schedule) && AppRead(n, buf[..], s, fd.unread, bufLen - 1)
      invariant AllTakenFor(messages, done) && done + Pieces(s, MSG_TERMINATOR, bufLen - 1) == all
      decreases |s|
    {
      ghost var rest := fd.unread;
      ghost var piece := TakePiece(n, buf[..], s, rest, bufLen - 1, messages, done);
      assert buf[..n] == buf[..][..n];
      messages, done := messages + [buf[..n]], done + [piece];
      s := rest;
      n := ReadAppMsg(fd, buf, bufLen);
    }
    LastTaken(n, buf[..], s, fd.unread, bufLen - 1);
    assert done == all;
    TakenExactly(messages, old(fd.unread), bufLen - 1);
  }

  lemma NextPiece(s: seq<byte>, limit: nat)
    requires limit > 0
    ensures var k := PieceLen(s, MSG_TERMINATOR, limit);
            if |s| == 0 then AppCount(s, limit) == k == 0 && Pieces(s, MSG_TERMINATOR, limit) == []
            else 0 < k && AppCount(s, limit) == k + (if Complete(s[..k], MSG_TERMINATOR) then 0 else 1)
                 && Pieces(s, MSG_TERMINATOR, limit) == [s[..k]] + Pieces(s[k..], MSG_TERMINATOR, limit)
  {
    hide Pieces, PieceLen;
    PiecesUnfold(s, MSG_TERMINATOR, limit);
    var k := PieceLen(s, MSG_TERMINATOR, limit);
    if k > 0 {
      assert s[..k][..k - 1] == s[..k - 1];
    }
  }

  lemma NothingTaken()
    ensures AllTakenFor([], [])
  {
  }

  /** A call that read something has handed out the next piece. */
  lemma TakePiece(n: int, buf: seq<byte>, s: seq<byte>, rest: seq<byte>, limit: nat,
                  ms: seq<seq<byte>>, done: seq<seq<byte>>)
    returns (piece: seq<byte>)
    requires n > 0 && limit > 0 && limit < |buf| && AppRead(n, buf, s, rest, limit) && AllTakenFor(ms, done)
    ensures n <= |buf| && AllTakenFor(ms + [buf[..n]], done + [piece]) && |rest| < |s|
    ensures done + Pieces(s, MSG_TERMINATOR, limit) == done + [piece] + Pieces(rest, MSG_TERMINATOR, limit)
  {
    hide Pieces, PieceLen, AppCount, Complete;
    NextPiece(s, limit);
    piece := s[..PieceLen(s, MSG_TERMINATOR, limit)];
    assert TakenFor(buf[..n], piece);
    assert done + ([piece] + Pieces(rest, MSG_TERMINATOR, limit))
        == done + [piece] + Pieces(rest, MSG_TERMINATOR, limit);
  }

  lemma LastTaken(n: int, buf: seq<byte>, s: seq<byte>, rest: seq<byte>, limit: nat)
    requires n <= 0 && limit > 0 && AppRead(n, buf, s, rest, limit)
    ensures rest == [] && Pieces(s, MSG_TERMINATOR, limit) == []
  {
    hide Pieces, PieceLen, AppCount, Complete;
    NextPiece(s, limit);
  }

  /** Every byte too much makes the whole longer. */
  lemma {:induction false} TakenLength(ms: seq<seq<byte>>, pieces: seq<seq<byte>>)
    requires AllTakenFor(ms, pieces)
    ensures |Concat(ms)| >= |Concat(pieces)|
    ensures |Concat(ms)| == |Concat(pieces)| <==> forall p <- pieces :: Complete(p, MSG_TERMINATOR)
    ensures |Concat(ms)| == |Concat(pieces)| ==> ms == pieces
    decreases |ms|
  {
    hide Complete;
    if |ms| > 0 {
      assert TakenFor(ms[0], pieces[0]);
      assert ms[0][..|ms[0]|] == ms[0];
      TakenLength(ms[1..], pieces[1..]);
      assert ms == [ms[0]] + ms[1..] && pieces == [pieces[0]] + pieces[1..];
      assert forall p <- pieces :: p == pieces[0] || p in pieces[1..];
      assert pieces[0] in pieces && forall p <- pieces[1..] :: p in pieces;
    }
  }

  lemma TakenExactly(ms: seq<seq<byte>>, s: seq<byte>, limit: nat)
    requires limit > 0 && AllTakenFor(ms, Pieces(s, MSG_TERMINATOR, limit))
    ensures ms == Messages(s, MSG_TERMINATOR) <==>
            Leftover(s, MSG_TERMINATOR) == [] && forall m <- Messages(s, MSG_TERMINATOR) :: |m| <= limit
  {
    hide Messages, Leftover, Pieces, Complete, Concat, TakenFor, AllTakenFor;
    var pieces := Pieces(s, MSG_TERMINATOR, limit);
    MessagesCover(s, MSG_TERMINATOR);
    PiecesCover(s, MSG_TERMINATOR, limit);
    PiecesAreMessages(s, MSG_TERMINATOR, limit);
    TakenLength(ms, pieces);
    assert |s| == |Concat(Messages(s, MSG_TERMINATOR))| + |Leftover(s, MSG_TERMINATOR)|;
  }
}
