/** Line reading: the buffered readers, and the byte-at-a-time one they replace. */
module Readline {
  import opened Common
  import opened Framing
  import opened Streams

  const NEWLINE: byte := 10

  /** The length of the line that is stored. */
  function LineLen(s: seq<byte>, maxlen: nat): (k: nat)
    ensures k <= |s| && k <= Limit(maxlen)
  {
    PieceLen(s, NEWLINE, Limit(maxlen))
  }

  /** How the loop over a line ends. */
  datatype End = Newline | Eof | Full

  function EndOf(s: seq<byte>, maxlen: nat): End {
    var k := LineLen(s, maxlen);
    if k > 0 && s[k - 1] == NEWLINE then Newline else if k < Limit(maxlen) then Eof else Full
  }

  /** What lib/readline.c returns. */
  function LibCount(s: seq<byte>, maxlen: nat): nat {
    LineLen(s, maxlen) + if EndOf(s, maxlen).Full? then 1 else 0
  }

  /** What the readers of the server directory return. */
  function ServerCount(s: seq<byte>, maxlen: nat): nat {
    var k := LineLen(s, maxlen);
    match EndOf(s, maxlen)
    case Newline => k
    case Eof => if k == 0 then 0 else k + 1
    case Full => k + 1
  }

  /** How many bytes, and the end of the input if it is met, a byte-at-a-time reader asks for. */
  function ReadsFor(s: seq<byte>, maxlen: nat): nat {
    LineLen(s, maxlen) + if EndOf(s, maxlen).Eof? then 1 else 0
  }

  /** What the readers return and store, by where the newline is. A caller that gives a buffer of maxlen bytes gets the
      line up to its newline if that is among the first maxlen - 1; if there is none at all before the end of the input,
      what there is, which lib/readline.c counts and the others count with the null byte, unless there is nothing; and
      otherwise the first maxlen - 1 bytes, of which all of them count the null byte. */
  lemma LineCases(s: seq<byte>, maxlen: nat, k: nat)
    requires maxlen >= 2
    ensures 0 < k <= |s| && k <= maxlen - 1 && s[k - 1] == 10 && 10 !in s[..k - 1] ==>
      LineLen(s, maxlen) == LibCount(s, maxlen) == ServerCount(s, maxlen) == ReadsFor(s, maxlen) == k
    ensures |s| < maxlen - 1 && 10 !in s ==>
      && LineLen(s, maxlen) == LibCount(s, maxlen) == |s| && ReadsFor(s, maxlen) == |s| + 1
      && ServerCount(s, maxlen) == if |s| == 0 then 0 else |s| + 1
    ensures |s| >= maxlen - 1 && 10 !in s[..maxlen - 1] ==>
      && LineLen(s, maxlen) == ReadsFor(s, maxlen) == maxlen - 1
      && LibCount(s, maxlen) == ServerCount(s, maxlen) == maxlen
  {
    hide PieceLen;
    if 0 < k <= |s| && k <= maxlen - 1 && s[k - 1] == 10 && 10 !in s[..k - 1] {
      PieceLenIs(s, NEWLINE, maxlen - 1, k);
    }
    if |s| < maxlen - 1 && 10 !in s {
      assert s[..|s|] == s;
      PieceEnds(s, NEWLINE, maxlen - 1, |s|);
    }
    if |s| >= maxlen - 1 && 10 !in s[..maxlen - 1] {
      PieceEnds(s, NEWLINE, maxlen - 1, maxlen - 1);
    }
  }

  /** The two counts differ exactly on an unfinished last line that fits the buffer. */
  lemma CountsDiffer(s: seq<byte>, maxlen: nat)
    ensures LibCount(s, maxlen) != ServerCount(s, maxlen) <==> 0 < |s| < Limit(maxlen) && NEWLINE !in s
  {
    var k := LineLen(s, maxlen);
    if 0 < |s| < Limit(maxlen) && NEWLINE !in s {
      assert k == 0 || s[k - 1] != NEWLINE;
    } else if 0 < k == |s| && NEWLINE in s {
      assert s == s[..k - 1] + [s[k - 1]];
    }
  }

  /** What a caller finds in its buffer: the line and a null byte. */
  ghost predicate LineStored(out: seq<byte>, s: seq<byte>, maxlen: nat) {
    var k := LineLen(s, maxlen);
    k < |out| && out[..k] == s[..k] && out[k] == 0
  }

  /** A call of lib/readline.c that returned n: the line is stored, and the rest of the stream is left. */
  ghost predicate LibRead(n: int, out: seq<byte>, s: seq<byte>, rest: seq<byte>, maxlen: nat) {
    n == LibCount(s, maxlen) && LineStored(out, s, maxlen) && rest == s[LineLen(s, maxlen)..]
  }

  /** A call of a reader of the server directory that returned n; at the end of the input it stores nothing. */
  ghost predicate ServerRead(n: int, out: seq<byte>, s: seq<byte>, rest: seq<byte>, maxlen: nat) {
    n == ServerCount(s, maxlen) && (n > 0 ==> LineStored(out, s, maxlen)) && rest == s[LineLen(s, maxlen)..]
  }

  /** What is left after an error: the caller's buffer has what has been taken from the stream. */
  ghost predicate BrokenOff(out: seq<byte>, s: seq<byte>, rest: seq<byte>, maxlen: nat) {
    exists j :: 0 <= j <= |s| && j <= Limit(maxlen) && j <= |out| && out[..j] == s[..j] && rest == s[j..]
  }

  /** k bytes of the line have been taken and stored, and none of them ends it. */
  ghost predicate Reading(out: seq<byte>, s: seq<byte>, rest: seq<byte>, maxlen: nat, k: nat) {
    && k <= |s| && k <= Limit(maxlen) && k < |out| && maxlen <= |out|
    && out[..k] == s[..k] && rest == s[k..] && NEWLINE !in s[..k]
  }

  lemma Room(maxlen: nat, k: nat)
    ensures k + 1 < maxlen <==> k < Limit(maxlen)
  {
  }

  lemma ReadingStarts(out: seq<byte>, s: seq<byte>, maxlen: nat)
    requires |out| >= 1 && |out| >= maxlen
    ensures Reading(out, s, s, maxlen, 0)
  {
  }

  /** Another byte: the line goes on, or ends with it. */
  lemma ByteRead(out: seq<byte>, s: seq<byte>, rest: seq<byte>, maxlen: nat, k: nat)
    requires Reading(out, s, rest, maxlen, k) && k < Limit(maxlen) && |rest| > 0
    ensures k + 1 < |out|
    ensures rest[0] != NEWLINE ==> Reading(out[k := rest[0]], s, rest[1..], maxlen, k + 1)
    ensures rest[0] == NEWLINE ==>
              var out' := out[k := rest[0]][k + 1 := 0];
              LibRead(k + 1, out', s, rest[1..], maxlen) && ServerRead(k + 1, out', s, rest[1..], maxlen)
              && ReadsFor(s, maxlen) == k + 1
  {
    hide PieceLen;
    PieceEnds(s, NEWLINE, Limit(maxlen), k);
    var out' := out[k := rest[0]];
    assert out'[..k + 1] == out[..k] + [rest[0]] == s[..k + 1];
    assert out'[k + 1 := 0][..k + 1] == out'[..k + 1];
  }

  /** The end of the input, or of the room for the line. */
  lemma LineOver(out: seq<byte>, s: seq<byte>, rest: seq<byte>, maxlen: nat, k: nat)
    requires Reading(out, s, rest, maxlen, k) && (k == Limit(maxlen) || |rest| == 0)
    ensures k < |out| && ReadsFor(s, maxlen) == if k == Limit(maxlen) then k else k + 1
    ensures LibRead(if k == Limit(maxlen) then k + 1 else k, out[k := 0], s, rest, maxlen)
    ensures k < Limit(maxlen) && k == 0 ==> ServerRead(0, out, s, rest, maxlen)
    ensures k == Limit(maxlen) || k > 0 ==> ServerRead(k + 1, out[k := 0], s, rest, maxlen)
  {
    hide PieceLen;
    PieceEnds(s, NEWLINE, Limit(maxlen), k);
    assert out[k := 0][..k] == out[..k];
  }

  /** As long as the line has not ended another byte is asked for. */
  lemma AnotherRead(out: seq<byte>, s: seq<byte>, rest: seq<byte>, maxlen: nat, k: nat)
    requires Reading(out, s, rest, maxlen, k) && k < Limit(maxlen)
    ensures ReadsFor(s, maxlen) > k
  {
    hide PieceLen;
    PieceEnds(s, NEWLINE, Limit(maxlen), k);
    var m := LineLen(s, maxlen);
    assert m > 0 && m <= k ==> s[..k][m - 1] == s[m - 1];
  }

  lemma ReadingBreaks(out: seq<byte>, s: seq<byte>, rest: seq<byte>, maxlen: nat, k: nat)
    requires Reading(out, s, rest, maxlen, k)
    ensures BrokenOff(out, s, rest, maxlen) && k < |out|
  {
  }

  /** Stores a byte for the caller. */
  method Put(out: array<byte>, ptr: nat, c: byte)
    requires ptr < out.Length
    modifies out
    ensures out[..] == old(out[..])[ptr := c]
  {
    out[ptr] := c;
  }

  /** The state shared by the calls: the statics of lib/readline.c, or an Rline. */
  class Rline {
    const fd: Source
    var cnt: int
    var bufptr: nat
    const buf: array<byte>

    ghost predicate Valid()
      reads this
    {
      buf.Length == MAXLINE && bufptr + Left() <= MAXLINE
    }

    /** The bytes buffered; a failed read leaves the count at -1. */
    ghost function Left(): nat
      reads this
    {
      if cnt > 0 then cnt else 0
    }

    /** All the bytes to come: those buffered and those unread. */
    ghost function Input(): seq<byte>
      requires Valid()
      reads this, buf, fd
    {
      buf[bufptr..bufptr + Left()] + fd.unread
    }

    constructor (fd: Source)
      ensures Valid() && this.fd == fd && Input() == fd.unread && fresh(buf)
    {
      this.fd := fd;
      cnt, bufptr := 0, 0;
      buf := new byte[MAXLINE](_ => 0);
    }

    /** The bytes a read delivers to the front of the buffer. */
    method Deliver(data: seq<byte>)
      requires |data| <= buf.Length
      modifies buf
      ensures buf[..|data|] == data
    {
      for i := 0 to |data|
        invariant buf[..i] == data[..i]
      {
        buf[i] := data[i];
      }
    }

    lemma NothingHeld()
      requires Valid() && cnt <= 0
      ensures Input() == fd.unread
    {
    }

    /** A read into the empty buffer. */
    method ReadOnce() returns (eintr: bool)
      requires Valid() && cnt <= 0
      modifies this, buf, fd
      ensures Valid() && Input() == old(fd.unread)
      ensures eintr ==> cnt <= 0 && fd.unread == old(fd.unread) && |fd.schedule| < |old(fd.schedule)|
      ensures !eintr ==> cnt >= -1 && (cnt == 0 ==> Input() == []) && (cnt == -1 ==> !Unbroken(old(fd.schedule)))
      ensures Unbroken(old(fd.schedule)) ==> Unbroken(fd.schedule)
    {
      hide ReadCount, Smooth, Unbroken;
      ghost var unread := fd.unread;
      var data;
      cnt, data, eintr := fd.Read(MAXLINE);
      assert unread == data + fd.unread;
      Deliver(data);
      if cnt > 0 {
        bufptr := 0;
      }
      if cnt >= 0 {
        eintr := false;
      }
      assert buf[bufptr..bufptr + Left()] == data;
    }

    /** The reads of my_read until one is not interrupted. */
    method Refill()
      requires Valid() && cnt <= 0
      modifies this, buf, fd
      ensures Valid() && Input() == old(fd.unread) && cnt >= -1
      ensures cnt == 0 ==> Input() == []
      ensures cnt == -1 ==> !Unbroken(old(fd.schedule))
      ensures Unbroken(old(fd.schedule)) ==> Unbroken(fd.schedule)
    {
      hide ReadCount, Smooth, Unbroken, Input, Left;
      var eintr := true;
      NothingHeld();
      while eintr
        invariant Valid() && Input() == old(fd.unread) && (Unbroken(old(fd.schedule)) ==> Unbroken(fd.schedule))
        invariant eintr ==> cnt <= 0 && fd.unread == old(fd.unread)
        invariant !eintr ==> cnt >= -1 && (cnt == 0 ==> Input() == []) && (cnt == -1 ==> !Unbroken(old(fd.schedule)))
        decreases eintr, |fd.schedule|
      {
        eintr := ReadOnce();
      }
    }

    /** my_read, my_read_r */
    method MyRead() returns (rc: int, c: byte)
      requires Valid()
      modifies this, buf, fd
      ensures Valid()
      ensures rc == 1 ==> |old(Input())| > 0 && c == old(Input())[0] && Input() == old(Input())[1..]
      ensures rc == 0 ==> old(Input()) == [] && Input() == []
      ensures rc != 1 && rc != 0 ==> rc == -1 && Input() == old(Input()) && !Unbroken(old(fd.schedule))
      ensures Unbroken(old(fd.schedule)) ==> Unbroken(fd.schedule)
    {
      c := 0;
      if cnt <= 0 {
        Refill();
        if cnt < 0 {
          return -1, 0;
        } else if cnt == 0 {
          return 0, 0;
        }
      }
      c := Pop();
      rc := 1;
    }

    /** The next byte of a buffer that has one. */
    method Pop() returns (c: byte)
      requires Valid() && cnt > 0
      modifies this`cnt, this`bufptr
      ensures Valid() && |old(Input())| > 0 && c == old(Input())[0] && Input() == old(Input())[1..]
    {
      ghost var input, held := Input(), buf[bufptr..bufptr + cnt];
      assert input == [buf[bufptr]] + (held[1..] + fd.unread);
      cnt := cnt - 1;
      c := buf[bufptr];
      bufptr := bufptr + 1;
      assert buf[bufptr..bufptr + cnt] == held[1..];
    }

    /** Stores a byte for the caller, which leaves the reader alone. */
    method Store(out: array<byte>, ptr: nat, c: byte)
      requires Valid() && ptr < out.Length && out != buf
      modifies out
      ensures Valid() && Input() == old(Input()) && out[..] == old(out[..])[ptr := c]
    {
      out[ptr] := c;
    }

    /** The readline of lib/readline.c. */
    method ReadLine(out: array<byte>, maxlen: nat) returns (n: int)
      requires Valid() && out.Length >= 1 && out.Length >= maxlen && out != buf
      modifies this, buf, fd, out
      ensures Valid()
      ensures Unbroken(old(fd.schedule)) ==> n >= 0 && Unbroken(fd.schedule)
      ensures n >= 0 ==> LibRead(n, out[..], old(Input()), Input(), maxlen)
      ensures n < 0 ==> n == -1 && BrokenOff(out[..], old(Input()), Input(), maxlen)
    {
      hide Unbroken, LineLen, ReadsFor, EndOf, LibRead, ServerRead, BrokenOff, Reading, Input, Left, Valid, Limit;
      ghost var s := Input();
      ReadingStarts(out[..], s, maxlen);
      Room(maxlen, 0);
      n := 1;
      var ptr := 0;
      while n < maxlen
        invariant Valid() && n == ptr + 1 && ptr <= Limit(maxlen) && Reading(out[..], s, Input(), maxlen, ptr)
        invariant Unbroken(old(fd.schedule)) ==> Unbroken(fd.schedule)
      {
        ghost var was, rest := out[..], Input();
        Room(maxlen, ptr);
        ReadingBreaks(was, s, rest, maxlen, ptr);
        var rc, c := MyRead();
        if rc == 1 {
          ByteRead(was, s, rest, maxlen, ptr);
          Store(out, ptr, c);
          if c == NEWLINE {
            Store(out, ptr + 1, 0);
            return;
          }
        } else if rc == 0 {
          LineOver(was, s, rest, maxlen, ptr);
          Store(out, ptr, 0);
          return n - 1;
        } else {
          return -1;
        }
        n, ptr := n + 1, ptr + 1;
      }
      ghost var was := out[..];
      Room(maxlen, ptr);
      LineOver(was, s, Input(), maxlen, ptr);
      Store(out, ptr, 0);
    }

    /** readline_r; the buffer and its size are kept in the object by readline_rinit. */
    method ReadLineR(out: array<byte>, maxlen: nat) returns (n: int)
      requires Valid() && out.Length >= 1 && out.Length >= maxlen && out != buf
      modifies this, buf, fd, out
      ensures Valid()
      ensures Unbroken(old(fd.schedule)) ==> n >= 0 && Unbroken(fd.schedule)
      ensures n >= 0 ==> ServerRead(n, out[..], old(Input()), Input(), maxlen)
      ensures n < 0 ==> n == -1 && BrokenOff(out[..], old(Input()), Input(), maxlen)
    {
      hide Unbroken, LineLen, ReadsFor, EndOf, LibRead, ServerRead, BrokenOff, Reading, Input, Left, Valid, Limit;
      ghost var s := Input();
      ReadingStarts(out[..], s, maxlen);
      Room(maxlen, 0);
      n := 1;
      var ptr := 0;
      while n < maxlen
        invariant Valid() && n == ptr + 1 && ptr <= Limit(maxlen) && Reading(out[..], s, Input(), maxlen, ptr)
        invariant Unbroken(old(fd.schedule)) ==> Unbroken(fd.schedule)
      {
        ghost var was, rest := out[..], Input();
        Room(maxlen, ptr);
        ReadingBreaks(was, s, rest, maxlen, ptr);
        var rc, c := MyRead();
        if rc == 1 {
          ByteRead(was, s, rest, maxlen, ptr);
          Store(out, ptr, c);
          if c == NEWLINE {
            Store(out, ptr + 1, 0);
            return;
          }
        } else if rc == 0 {
          LineOver(was, s, rest, maxlen, ptr);
          if n == 1 {
            return 0;
          }
          Store(out, ptr, 0);
          return;
        } else {
          return -1;
        }
        n, ptr := n + 1, ptr + 1;
      }
      ghost var was := out[..];
      Room(maxlen, ptr);
      LineOver(was, s, Input(), maxlen, ptr);
      Store(out, ptr, 0);
    }

    /** A caller of lib/readline.c until the end of the input. */
    method AllLines(out: array<byte>, maxlen: nat) returns (ghost lines: seq<seq<byte>>)
      requires Valid() && 2 <= maxlen <= out.Length && out != buf && Unbroken(fd.schedule)
      modifies this, buf, fd, out
      ensures lines == Pieces(old(Input()), NEWLINE, maxlen - 1) && Valid() && Input() == []
    {
      hide Pieces, LineLen, EndOf, LineStored, Unbroken;
      ghost var s := Input();
      lines := [];
      NextLine(s, maxlen);
      ghost var all := Pieces(s, NEWLINE, maxlen - 1);
      assert [] + all == all;
      var n := ReadLine(out, maxlen);
      while n > 0
        invariant Valid() && Unbroken(fd.schedule) && n == LibCount(s, maxlen)
        invariant LineStored(out[..], s, maxlen) && Input() == s[LineLen(s, maxlen)..]
        invariant lines + Pieces(s, NEWLINE, maxlen - 1) == all
        decreases |s|
      {
        NextLine(s, maxlen);
        LineIsStored(out[..], s, maxlen);
        lines := lines + [out[..LineLen(s, maxlen)]];
        s := Input();
        NextLine(s, maxlen);
        n := ReadLine(out, maxlen);
      }
      NextLine(s, maxlen);
    }

    /** A caller of readline_r until the end of the input. */
    method AllLinesR(out: array<byte>, maxlen: nat) returns (ghost lines: seq<seq<byte>>)
      requires Valid() && 2 <= maxlen <= out.Length && out != buf && Unbroken(fd.schedule)
      modifies this, buf, fd, out
      ensures lines == Pieces(old(Input()), NEWLINE, maxlen - 1) && Valid() && Input() == []
    {
      hide Pieces, LineLen, EndOf, LineStored, Unbroken;
      ghost var s := Input();
      lines := [];
      NextLine(s, maxlen);
      ghost var all := Pieces(s, NEWLINE, maxlen - 1);
      assert [] + all == all;
      var n := ReadLineR(out, maxlen);
      while n > 0
        invariant Valid() && Unbroken(fd.schedule) && n == ServerCount(s, maxlen)
        invariant (n > 0 ==> LineStored(out[..], s, maxlen)) && Input() == s[LineLen(s, maxlen)..]
        invariant lines + Pieces(s, NEWLINE, maxlen - 1) == all
        decreases |s|
      {
        NextLine(s, maxlen);
        LineIsStored(out[..], s, maxlen);
        lines := lines + [out[..LineLen(s, maxlen)]];
        s := Input();
        NextLine(s, maxlen);
        n := ReadLineR(out, maxlen);
      }
      NextLine(s, maxlen);
    }
  }

  lemma LineIsStored(out: seq<byte>, s: seq<byte>, maxlen: nat)
    requires LineStored(out, s, maxlen)
    ensures LineLen(s, maxlen) < |out| && out[..LineLen(s, maxlen)] == s[..LineLen(s, maxlen)]
  {
  }

  lemma NextLine(s: seq<byte>, maxlen: nat)
    requires maxlen >= 2
    ensures var k := LineLen(s, maxlen);
            if |s| == 0 then k == 0 && LibCount(s, maxlen) == 0 && ServerCount(s, maxlen) == 0
                             && Pieces(s, NEWLINE, maxlen - 1) == []
            else k > 0 && LibCount(s, maxlen) > 0 && ServerCount(s, maxlen) > 0
                 && Pieces(s, NEWLINE, maxlen - 1) == [s[..k]] + Pieces(s[k..], NEWLINE, maxlen - 1)
  {
    hide Pieces;
    PiecesUnfold(s, NEWLINE, maxlen - 1);
  }

  /** server/readline.c: a read for every byte, and an interrupted one is an error. */
  method ReadLineSimple(fd: Source, out: array<byte>, maxlen: nat) returns (n: int)
    requires out.Length >= 1 && out.Length >= maxlen
    modifies fd, out
    ensures Smooth(old(fd.schedule)) ==> n >= 0 && Smooth(fd.schedule)
    ensures n < 0 <==> Spoiled(old(fd.schedule), ReadsFor(old(fd.unread), maxlen))
    ensures n >= 0 ==> ServerRead(n, out[..], old(fd.unread), fd.unread, maxlen)
    ensures n < 0 ==> n == -1 && BrokenOff(out[..], old(fd.unread), fd.unread, maxlen)
  {
    hide LineLen, EndOf, LibRead, ServerRead, BrokenOff, Reading, Smooth, ReadCount, Spoiled, After, ReadsFor;
    ghost var s, schedule := fd.unread, fd.schedule;
    NoReads(schedule);
    ReadingStarts(out[..], s, maxlen);
    n := 1;
    var ptr := 0;
    while n < maxlen
      invariant n == ptr + 1 && ptr <= Limit(maxlen) && Reading(out[..], s, fd.unread, maxlen, ptr)
      invariant !Spoiled(schedule, ptr) && fd.schedule == After(schedule, ptr)
      invariant Smooth(old(fd.schedule)) ==> Smooth(fd.schedule)
    {
      ghost var was, rest := out[..], fd.unread;
      OneMoreRead(schedule, ptr);
      AnotherRead(was, s, rest, maxlen, ptr);
      ReadingBreaks(was, s, rest, maxlen, ptr);
      var rc, data, eintr := fd.Read(1);
      if rc == 1 {
        ByteRead(was, s, rest, maxlen, ptr);
        Put(out, ptr, data[0]);
        if data[0] == NEWLINE {
          Put(out, ptr + 1, 0);
          return;
        }
      } else if rc == 0 {
        LineOver(was, s, rest, maxlen, ptr);
        if n == 1 {
          return 0;
        }
        Put(out, ptr, 0);
        return;
      } else {
        SpoiledStays(schedule, ptr + 1, ReadsFor(s, maxlen));
        return -1;
      }
      n, ptr := n + 1, ptr + 1;
    }
    ghost var was := out[..];
    LineOver(was, s, fd.unread, maxlen, ptr);
    Put(out, ptr, 0);
  }

  /** A caller of server/readline.c until the end of the input: the lines of the buffered readers. */
  method AllLinesSimple(fd: Source, out: array<byte>, maxlen: nat) returns (ghost lines: seq<seq<byte>>)
    requires 2 <= maxlen <= out.Length && Smooth(fd.schedule)
    modifies fd, out
    ensures lines == Pieces(old(fd.unread), NEWLINE, maxlen - 1) && fd.unread == []
  {
    hide Pieces, LineLen, EndOf, LineStored, Smooth;
    ghost var s := fd.unread;
    lines := [];
    NextLine(s, maxlen);
    ghost var all := Pieces(s, NEWLINE, maxlen - 1);
    assert [] + all == all;
    var n := ReadLineSimple(fd, out, maxlen);
    while n > 0
      invariant Smooth(fd.schedule) && n == ServerCount(s, maxlen)
      invariant (n > 0 ==> LineStored(out[..], s, maxlen)) && fd.unread == s[LineLen(s, maxlen)..]
      invariant lines + Pieces(s, NEWLINE, maxlen - 1) == all
      decreases |s|
    {
      NextLine(s, maxlen);
      LineIsStored(out[..], s, maxlen);
      lines := lines + [out[..LineLen(s, maxlen)]];
      s := fd.unread;
      NextLine(s, maxlen);
      n := ReadLineSimple(fd, out, maxlen);
    }
    NextLine(s, maxlen);
  }

  /** With room for a byte there is at least one read. */
  lemma FirstRead(s: seq<byte>, maxlen: nat)
    requires maxlen >= 2
    ensures ReadsFor(s, maxlen) > 0
  {
    AnotherRead(seq(maxlen, _ => 0), s, s, maxlen, 0);
  }

  /** An interrupted read that is made again by the buffered readers makes the byte-at-a-time one give up. */
  method OneInterruption(s: seq<byte>, more: seq<Reply>, maxlen: nat)
    returns (lib: int, r: int, simple: int, line: seq<byte>)
    requires 2 <= maxlen && Unbroken(more)
    ensures lib == LibCount(s, maxlen) && r == ServerCount(s, maxlen) && line == s[..LineLen(s, maxlen)]
    ensures simple == -1
  {
    hide LineLen, LibCount, ServerCount, ReadsFor, ReadCount;
    var schedule := [Interrupted] + more;
    assert schedule[0] == Interrupted;
    StillUnbroken(more);
    var fd := new Source(s, schedule);
    var reader := new Rline(fd);
    var out := new byte[maxlen];
    lib := reader.ReadLine(out, maxlen);
    LineIsStored(out[..], s, maxlen);
    line := out[..LineLen(s, maxlen)];
    fd := new Source(s, schedule);
    reader := new Rline(fd);
    r := reader.ReadLineR(out, maxlen);
    FirstRead(s, maxlen);
    fd := new Source(s, schedule);
    simple := ReadLineSimple(fd, out, maxlen);
  }

  lemma StillUnbroken(more: seq<Reply>)
    requires Unbroken(more)
    ensures Unbroken([Interrupted] + more)
  {
  }
}
