/** str_cli of strclinonb.c: a nonblocking pump with one buffer from stdin to the socket and one from the socket to
    stdout. select, read and write are given by a schedule. */
module Pump {
  import opened Common

  /** What a read finds: nothing yet, the end of the stream, some bytes, or an error. */
  datatype Source = NothingYet | AtEof | Bytes(data: seq<byte>) | Broken

  /** How much a write can take: nothing, up to n bytes, or an error. */
  datatype Sink = Full | Room(n: nat) | Refused

  /** One turn of the loop: which descriptors select finds ready, and what the calls then meet. */
  datatype Turn = Turn(stdinReady: bool, socketReadable: bool, socketWritable: bool, stdoutWritable: bool,
                       stdin: Source, socketIn: Source, stdout: Sink, socketOut: Sink)

  /** A buffer with its two pointers as offsets from its base; data is what lies between them. */
  datatype Channel = Channel(out: nat, in_: nat, data: seq<byte>)

  /** Returned is the normal end, Terminated the complaint that the server ended first, Exited a system error. */
  datatype Ending = Running | Returned | Terminated | Exited

  datatype State = State(
    to: Channel, fr: Channel, stdineof: bool, ending: Ending,
    stdinRead: seq<byte>, socketWritten: seq<byte>,   // histories of the four streams
    socketRead: seq<byte>, stdoutWritten: seq<byte>,
    sawEof: bool,                                     // stdin really was at its end
    shutdowns: nat                                    // calls of Shutdown
  )

  function Init(): State {
    State(Channel(0, 0, []), Channel(0, 0, []), false, Running, [], [], [], [], false, 0)
  }

  /** The bytes that read returns into what is left of a buffer. */
  function Got(src: Source, in_: nat): (got: seq<byte>)
    requires in_ <= MAXLINE
    ensures |got| <= MAXLINE - in_
  {
    if src.Bytes? then src.data[..Min(|src.data|, MAXLINE - in_)] else []
  }

  function Filled(c: Channel, bytes: seq<byte>): Channel {
    Channel(c.out, c.in_ + |bytes|, c.data + bytes)
  }

  /** After a write of n bytes; an empty buffer goes back to its base. */
  function Drained(c: Channel, n: nat): Channel
    requires n <= |c.data|
  {
    if c.out + n == c.in_ then Channel(0, 0, []) else Channel(c.out + n, c.in_, c.data[n..])
  }

  predicate Ordered(c: Channel) {
    c.out <= c.in_ <= MAXLINE && |c.data| == c.in_ - c.out
  }

  predicate Proper(s: State) {
    Ordered(s.to) && Ordered(s.fr)
  }

  function ReadStdin(s: State, src: Source): State
    requires Proper(s)
  {
    var got := Got(src, s.to.in_);
    if src.Broken? then s.(ending := Exited)
    else if src.NothingYet? then s
    else if |got| == 0 then
      s.(stdineof := true, sawEof := s.sawEof || src.AtEof?,
         shutdowns := s.shutdowns + if s.to.out == s.to.in_ then 1 else 0)
    else s.(to := Filled(s.to, got), stdinRead := s.stdinRead + got)
  }

  function ReadSocket(s: State, src: Source): State
    requires Proper(s)
  {
    var got := Got(src, s.fr.in_);
    if src.Broken? then s.(ending := Exited)
    else if src.NothingYet? then s
    else if |got| == 0 then s.(ending := if s.stdineof then Returned else Terminated)
    else s.(fr := Filled(s.fr, got), socketRead := s.socketRead + got)
  }

  function WriteStdout(s: State, sink: Sink): State
    requires Proper(s)
  {
    if |s.fr.data| == 0 || sink.Full? then s
    else if sink.Refused? then s.(ending := Exited)
    else
      var n := Min(sink.n, |s.fr.data|);
      s.(fr := Drained(s.fr, n), stdoutWritten := s.stdoutWritten + s.fr.data[..n])
  }

  function WriteSocket(s: State, sink: Sink): State
    requires Proper(s)
  {
    if |s.to.data| == 0 || sink.Full? then s
    else if sink.Refused? then s.(ending := Exited)
    else
      var n := Min(sink.n, |s.to.data|);
      var to := Drained(s.to, n);
      s.(to := to, socketWritten := s.socketWritten + s.to.data[..n],
         shutdowns := s.shutdowns + if to.out == to.in_ && s.stdineof then 1 else 0)
  }

  function StdinStage(s: State, t: Turn): (s1: State)
    requires Proper(s)
    ensures Proper(s1)
  {
    if !s.stdineof && s.to.in_ < MAXLINE && t.stdinReady then ReadStdin(s, t.stdin) else s
  }

  function SocketStage(s: State, s1: State, t: Turn): (s2: State)
    requires Proper(s1)
    ensures Proper(s2)
  {
    if s.fr.in_ < MAXLINE && t.socketReadable then ReadSocket(s1, t.socketIn) else s1
  }

  /** A read that brought something lets the matching write be tried at once. */
  function StdoutStage(s: State, s1: State, s2: State, t: Turn): (s3: State)
    requires Proper(s2)
    ensures Proper(s3)
  {
    if (s.fr.out != s.fr.in_ && t.stdoutWritable) || s2.fr.in_ != s1.fr.in_ then WriteStdout(s2, t.stdout) else s2
  }

  function SocketOutStage(s: State, s1: State, s3: State, t: Turn): (s4: State)
    requires Proper(s3)
    ensures Proper(s4)
  {
    if (s.to.out != s.to.in_ && t.socketWritable) || s1.to.in_ != s.to.in_ then WriteSocket(s3, t.socketOut) else s3
  }

  /** One turn of the loop, which ends where a stage ends the program. */
  function Pass(s: State, t: Turn): (s': State)
    requires Proper(s)
    ensures Proper(s')
  {
    hide StdinStage, SocketStage, StdoutStage, SocketOutStage, Proper;
    var s1 := StdinStage(s, t);
    if !s.ending.Running? then s
    else if !s1.ending.Running? then s1
    else
      var s2 := SocketStage(s, s1, t);
      if !s2.ending.Running? then s2
      else
        var s3 := StdoutStage(s, s1, s2, t);
        if !s3.ending.Running? then s3 else SocketOutStage(s, s1, s3, t)
  }

  lemma PassIs(s: State, t: Turn)
    requires Proper(s)
    ensures
      var s1 := StdinStage(s, t);
      var s2 := SocketStage(s, s1, t);
      var s3 := StdoutStage(s, s1, s2, t);
      s.ending.Running? ==>
        Pass(s, t) == if !s1.ending.Running? then s1
                      else if !s2.ending.Running? then s2
                      else if !s3.ending.Running? then s3
                      else SocketOutStage(s, s1, s3, t)
  {
    hide StdinStage, SocketStage, StdoutStage, SocketOutStage, Proper;
  }

  /** A write of n bytes takes the first n of what is pending, or all of it, and leaves the rest; the FIN goes out when
      nothing is left and stdin is at its end. Nothing is written when the socket is full or there is nothing to write;
      a failed write ends the program. */
  ghost predicate SendsFirst(s: State, s': State, sink: Sink) {
    var n := if !sink.Room? then 0 else if sink.n <= |s.to.data| then sink.n else |s.to.data|;
    && s'.socketWritten == s.socketWritten + s.to.data[..n] && s'.to.data == s.to.data[n..]
    && s'.shutdowns == s.shutdowns + (if s.to.data != [] && n == |s.to.data| && s.stdineof then 1 else 0)
    && s'.ending == (if s.to.data != [] && sink.Refused? then Exited else s.ending)
  }

  lemma WritesFirst(s: State, sink: Sink)
    requires Proper(s)
    ensures SendsFirst(s, WriteSocket(s, sink), sink)
  {
    assert s.to.data[..0] == [] && s.to.data[0..] == s.to.data && s.socketWritten + [] == s.socketWritten;
    assert s.to.data[|s.to.data|..] == [];
  }

  class Client {
    const to: array<byte>
    const fr: array<byte>
    var toiptr: nat
    var tooptr: nat
    var friptr: nat
    var froptr: nat
    var stdineof: bool
    var ending: Ending
    ghost var log: State  // the histories; its other fields are not used

    ghost predicate Valid()
      reads this, to, fr
    {
      && to.Length == fr.Length == MAXLINE && to != fr
      && tooptr <= toiptr <= MAXLINE && froptr <= friptr <= MAXLINE
    }

    ghost function View(): State
      requires Valid()
      reads this, to, fr
    {
      log.(to := Channel(tooptr, toiptr, to[tooptr..toiptr]), fr := Channel(froptr, friptr, fr[froptr..friptr]),
           stdineof := stdineof, ending := ending)
    }

    constructor ()
      ensures Valid() && View() == Init() && fresh(to) && fresh(fr)
    {
      to := new byte[MAXLINE](_ => 0);
      fr := new byte[MAXLINE](_ => 0);
      toiptr, tooptr, friptr, froptr := 0, 0, 0, 0;
      stdineof, ending := false, Running;
      log := Init();
    }

    /** What read does to the buffer. */
    method Store(buf: array<byte>, at: nat, bytes: seq<byte>)
      requires at + |bytes| <= buf.Length
      modifies buf
      ensures buf[..at] == old(buf[..at]) && buf[at..at + |bytes|] == bytes
    {
      forall k | 0 <= k < |bytes| {
        buf[at + k] := bytes[k];
      }
    }

    /** The read from stdin; whether Shutdown was called is in the log. */
    method HandleStdin(src: Source)
      requires Valid()
      modifies this, to
      ensures Valid() && View() == ReadStdin(old(View()), src)
    {
      hide Got, Filled;
      if src.Broken? {
        ending := Exited;
      } else if !src.NothingYet? {
        var got := Got(src, toiptr);
        if |got| == 0 {
          stdineof := true;
          log := log.(sawEof := log.sawEof || src.AtEof?);
          if tooptr == toiptr {
            log := log.(shutdowns := log.shutdowns + 1);
          }
        } else {
          TakeIn(got);
        }
      }
    }

    method TakeIn(got: seq<byte>)
      requires Valid() && toiptr + |got| <= MAXLINE
      modifies this, to
      ensures Valid()
      ensures View() == old(View()).(to := Filled(old(View().to), got), stdinRead := old(log.stdinRead) + got)
    {
      ghost var was := to[tooptr..toiptr];
      Store(to, toiptr, got);
      toiptr := toiptr + |got|;
      assert to[tooptr..toiptr] == to[..toiptr - |got|][tooptr..] + to[toiptr - |got|..toiptr] == was + got;
      log := log.(stdinRead := log.stdinRead + got);
    }

    /** The read from the socket. */
    method HandleSocket(src: Source)
      requires Valid()
      modifies this, fr
      ensures Valid() && View() == ReadSocket(old(View()), src)
    {
      hide Got;
      if src.Broken? {
        ending := Exited;
      } else if !src.NothingYet? {
        var got := Got(src, friptr);
        var n := |got|;
        ghost var was, s := fr[froptr..friptr], View();
        if n == 0 {
          ending := if stdineof then Returned else Terminated;
        } else {
          Store(fr, friptr, got);
          friptr := friptr + n;
          assert fr[froptr..friptr] == fr[..friptr - n][froptr..] + fr[friptr - n..friptr] == was + got;
          log := log.(socketRead := log.socketRead + got);
          assert View() == s.(fr := Filled(s.fr, got), socketRead := s.socketRead + got);
        }
      }
    }

    /** The write to stdout. */
    method FlushStdout(sink: Sink)
      requires Valid()
      modifies this
      ensures Valid() && View() == WriteStdout(old(View()), sink)
    {
      var n := friptr - froptr;
      if n > 0 {
        match sink {
          case Full =>
          case Refused =>
            ending := Exited;
          case Room(room) =>
            var nwritten := Min(room, n);
            log := log.(stdoutWritten := log.stdoutWritten + fr[froptr..friptr][..nwritten]);
            froptr := froptr + nwritten;
            if froptr == friptr {
              froptr, friptr := 0, 0;
            }
        }
      }
    }

    /** The write to the socket, and the FIN once stdin is exhausted and everything has been written. */
    method FlushSocket(sink: Sink)
      requires Valid()
      modifies this
      ensures Valid() && View() == WriteSocket(old(View()), sink)
      ensures SendsFirst(old(View()), View(), sink)
    {
      hide SendsFirst;
      WritesFirst(View(), sink);
      var n := toiptr - tooptr;
      if n > 0 {
        match sink {
          case Full =>
          case Refused =>
            ending := Exited;
          case Room(room) =>
            var nwritten := Min(room, n);
            log := log.(socketWritten := log.socketWritten + to[tooptr..toiptr][..nwritten]);
            tooptr := tooptr + nwritten;
            if tooptr == toiptr {
              tooptr, toiptr := 0, 0;
              if stdineof {
                log := log.(shutdowns := log.shutdowns + 1);
              }
            }
        }
      }
    }

    lemma ViewIsProper()
      requires Valid()
      ensures Proper(View())
    {
    }

    /** One turn of the loop of str_cli. */
    method RunTurn(t: Turn)
      requires Valid() && ending.Running?
      modifies this, to, fr
      ensures Valid() && View() == Pass(old(View()), t)
    {
      hide ReadStdin, ReadSocket, WriteStdout, WriteSocket, Filled, Drained, Pass, Proper;
      ghost var s := View();
      ViewIsProper();
      PassIs(s, t);
      var stdinSet := !stdineof && toiptr < MAXLINE && t.stdinReady;
      var socketSet := friptr < MAXLINE && t.socketReadable;
      var socketWrite := tooptr != toiptr && t.socketWritable;
      var stdoutWrite := froptr != friptr && t.stdoutWritable;
      if stdinSet {
        var before := toiptr;
        HandleStdin(t.stdin);
        if !ending.Running? {
          return;
        }
        socketWrite := socketWrite || toiptr != before;
      }
      ghost var s1 := View();
      assert s1 == StdinStage(s, t);
      if socketSet {
        var before := friptr;
        HandleSocket(t.socketIn);
        if !ending.Running? {
          return;
        }
        stdoutWrite := stdoutWrite || friptr != before;
      }
      ghost var s2 := View();
      assert s2 == SocketStage(s, s1, t);
      if stdoutWrite {
        FlushStdout(t.stdout);
        if !ending.Running? {
          return;
        }
      }
      ghost var s3 := View();
      assert s3 == StdoutStage(s, s1, s2, t);
      if socketWrite {
        FlushSocket(t.socketOut);
      }
    }
  }

  /** Both directions conserve every byte, in order; an empty buffer is at its base; a FIN has been sent exactly when
      stdin is exhausted and nothing of it is left to write; and stdin is taken to be exhausted only when it is. */
  ghost predicate Inv(s: State) {
    && Proper(s)
    && s.stdinRead == s.socketWritten + s.to.data && s.socketRead == s.stdoutWritten + s.fr.data
    && (s.to.out == s.to.in_ ==> s.to.in_ == 0) && (s.fr.out == s.fr.in_ ==> s.fr.in_ == 0)
    && s.shutdowns == (if s.stdineof && |s.to.data| == 0 then 1 else 0)
    && s.stdineof == s.sawEof
    && (s.ending.Returned? ==> s.stdineof)
  }

  /** A stream that is not at its end and does not block has at least one byte to give. */
  predicate Honest(src: Source) {
    src.Bytes? ==> src.data != []
  }

  lemma ReadStdinKeeps(s: State, src: Source)
    requires Inv(s) && Honest(src) && !s.stdineof && s.to.in_ < MAXLINE && s.ending.Running?
    ensures Inv(ReadStdin(s, src))
  {
  }

  lemma ReadSocketKeeps(s: State, src: Source)
    requires Inv(s) && Honest(src) && s.fr.in_ < MAXLINE && s.ending.Running?
    ensures Inv(ReadSocket(s, src))
    ensures ReadSocket(s, src).ending.Returned? <==> s.stdineof && src.AtEof?
    ensures ReadSocket(s, src).ending.Terminated? <==> !s.stdineof && src.AtEof?
  {
  }

  /** Writing moves bytes from the front of the channel to the end of the history. */
  lemma DrainMoves(history: seq<byte>, c: Channel, n: nat)
    requires Ordered(c) && n <= |c.data|
    ensures
      var c' := Drained(c, n);
      && (history + c.data[..n]) + c'.data == history + c.data
      && Ordered(c') && (c'.out == c'.in_ <==> |c'.data| == 0) && (c'.out == c'.in_ ==> c'.in_ == 0)
  {
    assert c.data == c.data[..n] + c.data[n..];
    assert (history + c.data[..n]) + c.data[n..] == history + (c.data[..n] + c.data[n..]);
    assert n == |c.data| ==> c.data[n..] == [] && (history + c.data[..n]) + [] == history + c.data[..n];
  }

  lemma WriteStdoutKeeps(s: State, sink: Sink)
    requires Inv(s) && s.ending.Running?
    ensures Inv(WriteStdout(s, sink))
  {
    hide Drained;
    if sink.Room? {
      DrainMoves(s.stdoutWritten, s.fr, Min(sink.n, |s.fr.data|));
    }
  }

  lemma WriteSocketKeeps(s: State, sink: Sink)
    requires Inv(s) && s.ending.Running?
    ensures Inv(WriteSocket(s, sink))
  {
    hide Drained;
    if sink.Room? {
      DrainMoves(s.socketWritten, s.to, Min(sink.n, |s.to.data|));
    }
  }

  ghost predicate HonestTurn(t: Turn) {
    Honest(t.stdin) && Honest(t.socketIn)
  }

  lemma StdinStageKeeps(s: State, t: Turn)
    requires Inv(s) && HonestTurn(t) && s.ending.Running?
    ensures var s1 := StdinStage(s, t);
            && Inv(s1) && s1.fr == s.fr && s1.socketRead == s.socketRead && s1.stdoutWritten == s.stdoutWritten
            && !s1.ending.Returned? && !s1.ending.Terminated?
  {
    hide Inv;
    InvIsProper(s);
    if StdinStage(s, t) != s {
      ReadStdinKeeps(s, t.stdin);
    }
  }

  lemma SocketStageKeeps(s: State, s1: State, t: Turn)
    requires Inv(s1) && HonestTurn(t) && s1.ending.Running? && s1.fr == s.fr
    ensures var s2 := SocketStage(s, s1, t);
            && Inv(s2) && s2.sawEof == s1.sawEof && (s2.fr.in_ == s1.fr.in_ ==> s2.fr == s1.fr)
            && (s2.ending.Returned? || s2.ending.Terminated? ==>
                  t.socketIn.AtEof? && (s2.ending.Returned? <==> s2.sawEof)
                  && s2.fr == s1.fr && s2.socketRead == s1.socketRead && s2.stdoutWritten == s1.stdoutWritten)
  {
    if SocketStage(s, s1, t) != s1 {
      ReadSocketKeeps(s1, t.socketIn);
    }
  }

  lemma StdoutStageKeeps(s: State, s1: State, s2: State, t: Turn)
    requires Inv(s2) && s2.ending.Running? && s1.fr == s.fr
    requires s2.fr.in_ == s1.fr.in_ ==> s2.fr == s1.fr
    ensures var s3 := StdoutStage(s, s1, s2, t);
            && Inv(s3) && s3.sawEof == s2.sawEof && !s3.ending.Returned? && !s3.ending.Terminated?
            && (PromptStdout(t) && s3.ending.Running? ==> s3.fr.out == s3.fr.in_)
  {
    WriteStdoutKeeps(s2, t.stdout);
  }

  lemma SocketOutStageKeeps(s: State, s1: State, s3: State, t: Turn)
    requires Inv(s3) && s3.ending.Running?
    ensures var s4 := SocketOutStage(s, s1, s3, t);
            Inv(s4) && s4.fr == s3.fr && s4.sawEof == s3.sawEof && !s4.ending.Returned? && !s4.ending.Terminated?
  {
    hide Inv, Drained;
    InvIsProper(s3);
    WriteSocketKeeps(s3, t.socketOut);
  }

  /** Stdout is writable and takes whatever it is offered. */
  ghost predicate PromptStdout(t: Turn) {
    t.stdoutWritable && t.stdout.Room? && t.stdout.n >= MAXLINE
  }

  /** Every turn keeps the invariant; a turn that ends the program other than by a system error has met the end of the
      server's stream and wrote nothing more to stdout; and stdout that takes everything leaves the buffer empty. */
  lemma PassKeeps(s: State, t: Turn)
    requires Inv(s) && HonestTurn(t)
    ensures Inv(Pass(s, t))
    ensures
      var s' := Pass(s, t);
      s.ending.Running? && (s'.ending.Returned? || s'.ending.Terminated?) ==>
        && t.socketIn.AtEof? && (s'.ending.Returned? <==> s'.sawEof)
        && s'.fr == s.fr && s'.socketRead == s.socketRead && s'.stdoutWritten == s.stdoutWritten
    ensures
      var s' := Pass(s, t);
      s.ending.Running? && PromptStdout(t) && s'.ending.Running? ==> s'.fr.out == s'.fr.in_
  {
    hide StdinStage, SocketStage, StdoutStage, SocketOutStage, Inv, HonestTurn, PromptStdout;
    InvIsProper(s);
    if s.ending.Running? {
      var s1 := StdinStage(s, t);
      StdinStageKeeps(s, t);
      if s1.ending.Running? {
        var s2 := SocketStage(s, s1, t);
        SocketStageKeeps(s, s1, t);
        if s2.ending.Running? {
          var s3 := StdoutStage(s, s1, s2, t);
          StdoutStageKeeps(s, s1, s2, t);
          if s3.ending.Running? {
            SocketOutStageKeeps(s, s1, s3, t);
          }
        }
      }
    }
  }

  lemma InvIsProper(s: State)
    requires Inv(s)
    ensures Proper(s)
  {
  }

  function Run(turns: seq<Turn>): (s: State)
    ensures Proper(s)
  {
    if turns == [] then Init() else Pass(Run(turns[..|turns| - 1]), turns[|turns| - 1])
  }

  lemma {:induction false} RunKeeps(turns: seq<Turn>)
    requires forall t :: t in turns ==> HonestTurn(t)
    ensures Inv(Run(turns))
  {
    hide Pass, HonestTurn;
    if turns != [] {
      var front, last := turns[..|turns| - 1], turns[|turns| - 1];
      assert last in turns && forall t :: t in front ==> t in turns;
      RunKeeps(front);
      PassKeeps(Run(front), last);
    }
  }

  /** In every schedule of short reads, short writes and would-blocks, nothing is lost, repeated or reordered in
      either direction, and the FIN is sent at most once, only when stdin is at its end and every byte of it has
      been written. */
  lemma BytesConserved(turns: seq<Turn>)
    requires forall t :: t in turns ==> HonestTurn(t)
    ensures
      var s := Run(turns);
      && s.stdinRead == s.socketWritten + s.to.data && s.socketRead == s.stdoutWritten + s.fr.data
      && s.shutdowns <= 1
      && (s.shutdowns == 1 <==> s.sawEof && s.socketWritten == s.stdinRead)
      && (s.ending.Returned? ==> s.sawEof)
  {
    RunKeeps(turns);
    var s := Run(turns);
    assert |s.to.data| == 0 <==> s.socketWritten == s.stdinRead by {
      hide Run, Inv;
      assert |s.stdinRead| == |s.socketWritten| + |s.to.data|;
    }
  }

  /** Once the FIN is sent, no turn writes to the socket or reads stdin again, and none sends a second FIN. */
  lemma SilentAfterFin(turns: seq<Turn>, t: Turn)
    requires (forall u :: u in turns ==> HonestTurn(u)) && HonestTurn(t) && Run(turns).shutdowns == 1
    ensures
      var s, s' := Run(turns), Pass(Run(turns), t);
      s'.socketWritten == s.socketWritten && s'.stdinRead == s.stdinRead && s'.shutdowns == 1
  {
    hide Run, WriteStdout;
    RunKeeps(turns);
    StdoutLeavesSocketAlone();
  }

  lemma StdoutLeavesSocketAlone()
    ensures forall s: State, sink: Sink :: Proper(s) ==>
      var s' := WriteStdout(s, sink);
      && s'.to == s.to && s'.stdineof == s.stdineof && s'.socketWritten == s.socketWritten
      && s'.stdinRead == s.stdinRead && s'.shutdowns == s.shutdowns
  {
  }

  /** The loop never waits for nothing: each direction that is still open can read or has something to write. */
  lemma EachDirectionCanMove(turns: seq<Turn>)
    requires forall t :: t in turns ==> HonestTurn(t)
    ensures
      var s := Run(turns);
      && (!s.stdineof ==> s.to.in_ < MAXLINE || s.to.out != s.to.in_)
      && (s.fr.in_ < MAXLINE || s.fr.out != s.fr.in_)
  {
    hide Run;
    RunKeeps(turns);
  }

  /** The turn that meets the end of the server's stream returns at once, without trying the write that is still
      due: the output is complete exactly when fr was empty when the turn began. */
  lemma ReturnMayDropOutput(turns: seq<Turn>, t: Turn)
    requires (forall u :: u in turns ==> HonestTurn(u)) && HonestTurn(t)
    ensures
      var s, s' := Run(turns), Pass(Run(turns), t);
      s.ending.Running? && s'.ending.Returned? ==>
        s'.fr == s.fr && (s'.stdoutWritten == s'.socketRead <==> s.fr.out == s.fr.in_)
  {
    hide Run, Inv, WriteStdout, WriteSocket;
    RunKeeps(turns);
    var s, s' := Run(turns), Pass(Run(turns), t);
    PassKeeps(s, t);
    FrConserved(s');
  }

  lemma FrConserved(s: State)
    requires Inv(s)
    ensures s.stdoutWritten == s.socketRead <==> s.fr.out == s.fr.in_
  {
    assert |s.socketRead| == |s.stdoutWritten| + |s.fr.data|;
  }

  /** If stdout takes what it is offered in every turn, a normal return has written everything the server sent. */
  lemma {:induction false} PromptStdoutLosesNothing(turns: seq<Turn>)
    requires forall t :: t in turns ==> HonestTurn(t) && PromptStdout(t)
    ensures var s := Run(turns);
            && (s.ending.Running? ==> s.fr.out == s.fr.in_)
            && (s.ending.Returned? ==> s.stdoutWritten == s.socketRead)
  {
    hide Pass, Inv, HonestTurn, PromptStdout;
    if turns != [] {
      var front, last := turns[..|turns| - 1], turns[|turns| - 1];
      assert last in turns && forall t :: t in front ==> t in turns;
      PromptStdoutLosesNothing(front);
      RunKeeps(front);
      if Run(front).ending.Running? {
        PassKeeps(Run(front), last);
        if Run(turns).ending.Returned? {
          ReturnMayDropOutput(front, last);
        }
      } else {
        EndedStays(Run(front), last);
      }
    }
  }

  lemma EndedStays(s: State, t: Turn)
    requires Proper(s) && !s.ending.Running?
    ensures Pass(s, t) == s
  {
  }

  /** And it need not be empty: stdout is not writable when the server's last byte and its FIN arrive. */
  lemma OutputDroppedForExample()
    ensures
      var first := Turn(true, true, true, false, AtEof, Bytes([7]), Full, Full);
      var second := Turn(false, true, false, false, NothingYet, AtEof, Full, Full);
      var s := Run([first, second]);
      s.ending.Returned? && s.socketRead == [7] && s.stdoutWritten == []
  {
    hide Run, Pass;
    var first := Turn(true, true, true, false, AtEof, Bytes([7]), Full, Full);
    var second := Turn(false, true, false, false, NothingYet, AtEof, Full, Full);
    RunOfTwo(first, second);
    LastByteArrives(first);
    EofArrives(Pass(Init(), first), second);
  }

  lemma LastByteArrives(t: Turn)
    requires t == Turn(true, true, true, false, AtEof, Bytes([7]), Full, Full)
    ensures var s := Pass(Init(), t);
            s == Init().(stdineof := true, sawEof := true, shutdowns := 1, fr := Channel(0, 1, [7]), socketRead := [7])
  {
    hide Pass;
    var s1 := Init().(stdineof := true, sawEof := true, shutdowns := 1);
    var s2 := s1.(fr := Channel(0, 1, [7]), socketRead := [7]);
    assert [7][..1] == [7];
    assert StdinStage(Init(), t) == s1;
    assert SocketStage(Init(), s1, t) == s2;
    PassIs(Init(), t);
  }

  lemma EofArrives(s: State, t: Turn)
    requires Proper(s) && s.ending.Running? && s.stdineof && s.fr.in_ < MAXLINE
    requires t == Turn(false, true, false, false, NothingYet, AtEof, Full, Full)
    ensures Pass(s, t) == s.(ending := Returned)
  {
    hide Pass;
    PassIs(s, t);
  }

  lemma RunOfTwo(first: Turn, second: Turn)
    ensures Run([first, second]) == Pass(Pass(Init(), first), second)
  {
    hide Pass;
    assert [first, second][..1] == [first] && [first][..0] == [];
    assert Run([first]) == Pass(Run([]), first);
  }
}
