/** What one turn of the pump reads, writes and keeps, said of its streams and of what select and the calls meet. */
module PumpTurns {
  import opened Common
  import opened Pump

  // Each call is made when select finds its descriptor ready and the buffer has room or bytes; a read that brought
  // something makes the matching write be tried as well.

  predicate AsksStdin(s: State, t: Turn) {
    !s.stdineof && s.to.in_ < 4096 && t.stdinReady
  }

  predicate AsksSocket(s: State, t: Turn) {
    s.fr.in_ < 4096 && t.socketReadable
  }

  /** The bytes a read delivers: as many of those waiting as fit behind the ones that are there. */
  function Delivered(asked: bool, src: Source, in_: nat): seq<byte>
    requires in_ <= 4096
  {
    if !asked || !src.Bytes? then []
    else if |src.data| <= 4096 - in_ then src.data
    else src.data[..4096 - in_]
  }

  /** What the turn reads from stdin, and what from the socket. */
  function FromStdin(s: State, t: Turn): seq<byte>
    requires Proper(s)
  {
    Delivered(AsksStdin(s, t), t.stdin, s.to.in_)
  }

  function FromSocket(s: State, t: Turn): seq<byte>
    requires Proper(s)
  {
    Delivered(AsksSocket(s, t), t.socketIn, s.fr.in_)
  }

  /** Does the turn offer the socket, or stdout, what is pending for it? */
  predicate OffersSocket(s: State, t: Turn)
    requires Proper(s)
  {
    (s.to.data != [] && t.socketWritable) || FromStdin(s, t) != []
  }

  predicate OffersStdout(s: State, t: Turn)
    requires Proper(s)
  {
    (s.fr.data != [] && t.stdoutWritable) || FromSocket(s, t) != []
  }

  /** The bytes that a call of write takes off the front. */
  function Taken(offered: bool, pending: seq<byte>, sink: Sink): (n: nat)
    ensures n <= |pending|
  {
    if !offered || !sink.Room? then 0 else if sink.n <= |pending| then sink.n else |pending|
  }

  // ----- the stages -----

  lemma StdinPart(s: State, t: Turn)
    requires Proper(s) && HonestTurn(t) && s.ending.Running?
    ensures
      var s1 := StdinStage(s, t);
      var got := FromStdin(s, t);
      && s1.stdinRead == s.stdinRead + got && s1.to.data == s.to.data + got && s1.to.in_ == s.to.in_ + |got|
      && s1.to.out == s.to.out && s1.fr == s.fr && s1.socketRead == s.socketRead
      && s1.socketWritten == s.socketWritten && s1.stdoutWritten == s.stdoutWritten
      && (s1.stdineof <==> s.stdineof || (AsksStdin(s, t) && t.stdin.AtEof?))
      && (s1.ending == if AsksStdin(s, t) && t.stdin.Broken? then Exited else Running)
  {
  }

  lemma SocketPart(s: State, s1: State, t: Turn)
    requires Proper(s) && Proper(s1) && HonestTurn(t) && s1.ending.Running? && s1.fr == s.fr
    ensures
      var s2 := SocketStage(s, s1, t);
      var got := FromSocket(s, t);
      && s2.socketRead == s1.socketRead + got && s2.fr.data == s1.fr.data + got && s2.fr.in_ == s1.fr.in_ + |got|
      && s2.fr.out == s1.fr.out && s2.to == s1.to && s2.stdinRead == s1.stdinRead && s2.stdineof == s1.stdineof
      && s2.socketWritten == s1.socketWritten && s2.stdoutWritten == s1.stdoutWritten
      && s2.ending == if !AsksSocket(s, t) then Running
                      else if t.socketIn.Broken? then Exited
                      else if !t.socketIn.AtEof? then Running
                      else if s1.stdineof then Returned else Terminated
    ensures AsksSocket(s, t) && t.socketIn.AtEof? ==> SocketStage(s, s1, t).fr == s1.fr
  {
  }

  lemma StdoutPart(s: State, s1: State, s2: State, t: Turn)
    requires Proper(s) && Proper(s2) && s2.ending.Running? && s1.fr == s.fr
    requires s2.fr.in_ == s.fr.in_ + |FromSocket(s, t)| && s2.fr.data == s.fr.data + FromSocket(s, t)
    ensures
      var s3 := StdoutStage(s, s1, s2, t);
      var n := Taken(OffersStdout(s, t), s2.fr.data, t.stdout);
      && s3.stdoutWritten == s2.stdoutWritten + s2.fr.data[..n] && s3.fr.data == s2.fr.data[n..]
      && (n > 0 ==> s3.fr.in_ == if n == |s2.fr.data| then 0 else s2.fr.in_) && (n == 0 ==> s3.fr.in_ == s2.fr.in_)
      && s3.to == s2.to && s3.stdinRead == s2.stdinRead && s3.socketRead == s2.socketRead
      && s3.socketWritten == s2.socketWritten && s3.stdineof == s2.stdineof
      && s3.ending == if OffersStdout(s, t) && t.stdout.Refused? then Exited else Running
  {
    hide FromSocket;
    assert s2.fr.data[..0] == [] && s2.fr.data[0..] == s2.fr.data;
    assert s2.stdoutWritten + [] == s2.stdoutWritten;
    assert s2.fr.data[|s2.fr.data|..] == [];
  }

  lemma SocketOutPart(s: State, s1: State, s3: State, t: Turn)
    requires Proper(s) && Proper(s3) && s3.ending.Running? && s3.to == s1.to
    requires s1.to.in_ == s.to.in_ + |FromStdin(s, t)| && s1.to.data == s.to.data + FromStdin(s, t)
    ensures
      var s4 := SocketOutStage(s, s1, s3, t);
      var n := Taken(OffersSocket(s, t), s3.to.data, t.socketOut);
      && s4.socketWritten == s3.socketWritten + s3.to.data[..n] && s4.to.data == s3.to.data[n..]
      && (n > 0 ==> s4.to.in_ == if n == |s3.to.data| then 0 else s3.to.in_) && (n == 0 ==> s4.to.in_ == s3.to.in_)
      && s4.fr == s3.fr && s4.stdinRead == s3.stdinRead && s4.socketRead == s3.socketRead
      && s4.stdoutWritten == s3.stdoutWritten && s4.stdineof == s3.stdineof
      && s4.ending == if OffersSocket(s, t) && t.socketOut.Refused? then Exited else Running
  {
    hide FromStdin;
    assert s3.to.data[..0] == [] && s3.to.data[0..] == s3.to.data;
    assert s3.socketWritten + [] == s3.socketWritten;
    assert s3.to.data[|s3.to.data|..] == [];
  }

  // ----- the turn -----

  /** How a turn ends: a failed read or write is a system error, and the end of the server's stream ends the program,
      normally if stdin is at its end too. The four calls are made in this order, up to the first that ends it. */
  function EndingOf(s: State, t: Turn): Ending
    requires Proper(s)
  {
    if AsksStdin(s, t) && t.stdin.Broken? then Exited
    else if AsksSocket(s, t) && t.socketIn.Broken? then Exited
    else if AsksSocket(s, t) && t.socketIn.AtEof? then
      if s.stdineof || (AsksStdin(s, t) && t.stdin.AtEof?) then Returned else Terminated
    else if OffersStdout(s, t) && t.stdout.Refused? then Exited
    else if OffersSocket(s, t) && t.socketOut.Refused? then Exited
    else Running
  }

  /** Every turn of the running loop reads from stdin and the socket what they deliver, as far as it fits, and ends the
      program exactly when one of its calls does. A turn that goes on has written the first bytes of what was pending in
      each direction, as many as the other side took, and keeps the rest; one that met the end of the server's stream
      has written nothing. */
  lemma TurnMoves(s: State, t: Turn)
    requires Proper(s) && HonestTurn(t) && s.ending.Running?
    ensures
      var s' := Pass(s, t);
      && s'.ending == EndingOf(s, t)
      && s'.stdinRead == s.stdinRead + FromStdin(s, t)
      && (!(AsksStdin(s, t) && t.stdin.Broken?) ==> s'.socketRead == s.socketRead + FromSocket(s, t))
      && (s'.stdineof <==> s.stdineof || (AsksStdin(s, t) && t.stdin.AtEof?))
    ensures
      var s' := Pass(s, t);
      s'.ending.Running? ==>
        var up, down := s.to.data + FromStdin(s, t), s.fr.data + FromSocket(s, t);
        var sent, shown := Taken(OffersSocket(s, t), up, t.socketOut), Taken(OffersStdout(s, t), down, t.stdout);
        && s'.socketWritten == s.socketWritten + up[..sent] && s'.to.data == up[sent..]
        && s'.stdoutWritten == s.stdoutWritten + down[..shown] && s'.fr.data == down[shown..]
        && s'.to.in_ == (if 0 < sent == |up| then 0 else s.to.in_ + |FromStdin(s, t)|)
        && s'.fr.in_ == (if 0 < shown == |down| then 0 else s.fr.in_ + |FromSocket(s, t)|)
    ensures
      var s' := Pass(s, t);
      s'.ending.Returned? || s'.ending.Terminated? ==>
        && s'.socketWritten == s.socketWritten && s'.to.data == s.to.data + FromStdin(s, t)
        && s'.stdoutWritten == s.stdoutWritten && s'.fr.data == s.fr.data
  {
    hide StdinStage, SocketStage, StdoutStage, SocketOutStage, FromStdin, FromSocket, OffersSocket, OffersStdout, Pass,
         AsksStdin, AsksSocket, HonestTurn, Taken;
    PassIs(s, t);
    var s1 := StdinStage(s, t);
    StdinPart(s, t);
    if s1.ending.Running? {
      var s2 := SocketStage(s, s1, t);
      SocketPart(s, s1, t);
      if s2.ending.Running? {
        var s3 := StdoutStage(s, s1, s2, t);
        StdoutPart(s, s1, s2, t);
        if s3.ending.Running? {
          SocketOutPart(s, s1, s3, t);
        }
      }
    }
  }

  // ----- peers that keep up -----

  /** The socket is writable and takes whatever it is offered. */
  ghost predicate PromptSocket(t: Turn) {
    t.socketWritable && t.socketOut.Room? && t.socketOut.n >= 4096
  }

  lemma PromptTurn(s: State, t: Turn)
    requires Inv(s) && HonestTurn(t) && PromptSocket(t) && s.ending.Running? && s.to.data == []
    ensures var s' := Pass(s, t); (s'.ending.Running? || s'.ending.Returned?) ==> s'.to.data == []
  {
    hide Pass, Inv, HonestTurn, OffersStdout;
    InvIsProper(s);
    TurnMoves(s, t);
    assert s.to.data + FromStdin(s, t) == FromStdin(s, t);
  }

  /** If the socket takes what it is offered in every turn, then while the loop runs, and when it returns, all that was
      read from stdin has been sent; and the FIN has been sent exactly when stdin is at its end. */
  lemma {:induction false} PromptSocketSendsEverything(turns: seq<Turn>)
    requires forall t :: t in turns ==> HonestTurn(t) && PromptSocket(t)
    ensures
      var s := Run(turns);
      s.ending.Running? || s.ending.Returned? ==>
        s.to.data == [] && s.socketWritten == s.stdinRead && s.shutdowns == if s.stdineof then 1 else 0
  {
    hide Pass, HonestTurn, PromptSocket;
    RunKeeps(turns);
    if turns != [] {
      var front, last := turns[..|turns| - 1], turns[|turns| - 1];
      assert last in turns && forall t :: t in front ==> t in turns;
      PromptSocketSendsEverything(front);
      RunKeeps(front);
      if Run(front).ending.Running? {
        PromptTurn(Run(front), last);
      } else {
        EndedStays(Run(front), last);
      }
    }
  }
}
