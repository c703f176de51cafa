/** The parent of serv05.c and the children of child05.c as one state machine. The parent's select, accept and per-child
    check are steps of their own; children take theirs in between. */
module PreforkProtocol {
  import opened Handover
  import opened Prefork

  datatype Doing = Reading | AtWork(fd: int)

  /** A child and its stream pipe: what it does, the descriptors in the pipe to it, and the ready bytes in the pipe
      from it. */
  datatype Child = Child(doing: Doing, inbox: seq<int>, ready: nat)

  const Waiting: Child := Child(Reading, [], 0)

  predicate Idle(c: Child) {
    c.doing.Reading? && |c.inbox| == 0 && c.ready == 0
  }

  predicate Handed(c: Child) {
    c.doing.Reading? && |c.inbox| == 1 && c.ready == 0
  }

  predicate Serving(c: Child) {
    c.doing.AtWork? && |c.inbox| == 0 && c.ready == 0
  }

  predicate Ready(c: Child) {
    c.doing.Reading? && |c.inbox| == 0 && c.ready == 1
  }

  /** Idle, with a descriptor in its pipe, serving, or with a ready byte in its pipe; no two of them go together. */
  predicate InOnePlace(c: Child) {
    Idle(c) || Handed(c) || Serving(c) || Ready(c)
  }

  /** The connections a child has been given and has not finished. */
  function Load(c: Child): nat {
    |c.inbox| + if c.doing.AtWork? then 1 else 0
  }

  /** The one connection of a child that has one. */
  function FdOf(c: Child): int
    requires Busy(c)
  {
    if c.doing.AtWork? then c.doing.fd else c.inbox[0]
  }

  datatype Phase =
    | AtSelect
    | Accepting(rset: set<nat>, nsel: int)         // select has returned with the listening socket readable
    | Scanning(rset: set<nat>, i: nat, nsel: int)  // checking the pipe of child i

  datatype State = State(
    status: seq<nat>,      // cptr[i].child_status
    counts: seq<nat>,      // cptr[i].child_count
    navail: int,
    phase: Phase,
    quit: bool,            // err_quit("no available children")
    children: seq<Child>,
    accepted: seq<int>,    // history
    handed: seq<Taken>,    // history
    finished: nat          // history: connections served and closed
  )

  datatype Step =
    | Select(connection: bool)  // `connection`: a connection is waiting to be accepted
    | Accept(fd: int)
    | Check                     // one iteration of the scan
    | Receive(i: nat)           // child i gets its descriptor
    | Finish(i: nat)            // child i has served and writes its ready byte

  function Init(nchildren: nat): State {
    State(seq(nchildren, _ => 0), seq(nchildren, _ => 0), nchildren, AtSelect, false,
          seq(nchildren, _ => Waiting), [], [], 0)
  }

  function Given(c: Child, fd: int): Child {
    c.(inbox := c.inbox + [fd])
  }

  function Received(c: Child): Child
    requires |c.inbox| > 0
  {
    c.(doing := AtWork(c.inbox[0]), inbox := c.inbox[1..])
  }

  function Finished(c: Child): Child {
    c.(doing := Reading, ready := c.ready + 1)
  }

  function Heard(c: Child): Child
    requires c.ready > 0
  {
    c.(ready := c.ready - 1)
  }

  function ReadySet(children: seq<Child>): set<nat> {
    set i | 0 <= i < |children| && children[i].ready > 0
  }

  predicate Busy(c: Child) {
    Handed(c) || Serving(c)
  }

  function IdleCount(children: seq<Child>): nat {
    if children == [] then 0 else (if Idle(children[0]) then 1 else 0) + IdleCount(children[1..])
  }

  function BusyCount(children: seq<Child>): nat {
    if children == [] then 0 else Load(children[0]) + BusyCount(children[1..])
  }

  ghost predicate Sized(s: State) {
    |s.status| == |s.counts| == |s.children|
  }

  function Next(s: State, step: Step): (s': State)
    requires |s.status| == |s.counts| == |s.children|
    ensures |s'.status| == |s'.counts| == |s'.children| == |s.children|
  {
    if s.quit then s
    else
      match step
      case Select(connection) =>
        var rset := ReadySet(s.children);
        if !s.phase.AtSelect? then s
        else if connection && s.navail > 0 then s.(phase := Accepting(rset, |rset| + 1))
        else if rset != {} then s.(phase := Scanning(rset, 0, |rset|))
        else s
      case Accept(fd) =>
        if !s.phase.Accepting? then s
        else
          var i := FirstAvailable(s.status);
          if i == |s.status| then s.(quit := true, accepted := s.accepted + [fd])
          else
            s.(status := s.status[i := 1], counts := s.counts[i := s.counts[i] + 1], navail := s.navail - 1,
               children := s.children[i := Given(s.children[i], fd)], accepted := s.accepted + [fd],
               handed := s.handed + [Taken(i, fd)],
               phase := if s.phase.nsel == 1 then AtSelect else Scanning(s.phase.rset, 0, s.phase.nsel - 1))
      case Check =>
        if !s.phase.Scanning? then s
        else if s.phase.i >= |s.children| then s.(phase := AtSelect)
        else if s.phase.i !in s.phase.rset then s.(phase := s.phase.(i := s.phase.i + 1))
        else if s.children[s.phase.i].ready == 0 then s  // Read would block
        else
          s.(status := s.status[s.phase.i := 0], navail := s.navail + 1,
             children := s.children[s.phase.i := Heard(s.children[s.phase.i])],
             phase := if s.phase.nsel == 1 then AtSelect else Scanning(s.phase.rset, s.phase.i + 1, s.phase.nsel - 1))
      case Receive(i) =>
        if i < |s.children| && s.children[i].doing.Reading? && |s.children[i].inbox| > 0 then
          s.(children := s.children[i := Received(s.children[i])])
        else s
      case Finish(i) =>
        if i < |s.children| && s.children[i].doing.AtWork? then
          s.(children := s.children[i := Finished(s.children[i])], finished := s.finished + 1)
        else s
  }

  function Run(nchildren: nat, steps: seq<Step>): (s: State)
    ensures |s.status| == |s.counts| == |s.children| == nchildren
  {
    if steps == [] then Init(nchildren) else Next(Run(nchildren, steps[..|steps| - 1]), steps[|steps| - 1])
  }

  /** What select reported and the scan has not yet dealt with. */
  function Unseen(p: Phase): set<nat> {
    match p
    case AtSelect => {}
    case Accepting(rset, _) => rset
    case Scanning(rset, i, _) => set k | k in rset && k >= i
  }

  /** The parent's tables agree with where the children are. */
  ghost predicate TablesAgree(s: State) {
    && Sized(s)
    && (forall i :: 0 <= i < |s.children| ==> InOnePlace(s.children[i]) && (s.status[i] == 0 <==> Idle(s.children[i])))
    && s.navail == IdleCount(s.children)
    && (forall i :: i in Unseen(s.phase) ==> i < |s.children| && Ready(s.children[i]))
    && (s.phase.Accepting? ==> s.navail > 0 && s.phase.nsel == |Unseen(s.phase)| + 1)
    && (s.phase.Scanning? ==> s.phase.nsel == |Unseen(s.phase)| > 0)
  }

  /** Every accepted connection was handed to one child, and is in its pipe, being served, or finished. */
  ghost predicate HandsOver(s: State) {
    && Sized(s)
    && s.accepted == Descriptors(s.handed)
    && Sum(s.counts) == |s.handed|
    && |s.handed| == BusyCount(s.children) + s.finished
    && (forall i :: 0 <= i < |s.children| ==> s.counts[i] == GivenTo(s.handed, i))
    && (forall i :: 0 <= i < |s.children| && Busy(s.children[i]) ==> LastGiven(s.handed, i, FdOf(s.children[i])))
  }

  lemma {:induction false} CountsAfter(children: seq<Child>, i: nat, c: Child)
    requires i < |children|
    ensures IdleCount(children[i := c])
         == IdleCount(children) - (if Idle(children[i]) then 1 else 0) + (if Idle(c) then 1 else 0)
    ensures BusyCount(children[i := c])
         == BusyCount(children) - Load(children[i]) + Load(c)
  {
    if i == 0 {
      assert children[i := c][1..] == children[1..];
    } else {
      assert children[i := c][1..] == children[1..][i - 1 := c];
      CountsAfter(children[1..], i - 1, c);
    }
  }

  lemma {:induction false} IdleCountPositive(children: seq<Child>)
    requires IdleCount(children) > 0
    ensures exists i :: 0 <= i < |children| && Idle(children[i])
  {
    if !Idle(children[0]) {
      IdleCountPositive(children[1..]);
      var i :| 0 <= i < |children[1..]| && Idle(children[1..][i]);
      assert Idle(children[i + 1]);
    }
  }

  lemma SelectKeeps(s: State, connection: bool)
    requires TablesAgree(s) && !s.quit
    ensures TablesAgree(Next(s, Select(connection))) && !Next(s, Select(connection)).quit
  {
    hide IdleCount;
    var rset := ReadySet(s.children);
    assert Unseen(Scanning(rset, 0, |rset|)) == rset;
  }

  /** When a connection is accepted there is an available child. */
  lemma AcceptKeeps(s: State, fd: int)
    requires TablesAgree(s) && !s.quit && s.phase.Accepting?
    ensures TablesAgree(Next(s, Accept(fd))) && !Next(s, Accept(fd)).quit
  {
    hide IdleCount, BusyCount;
    IdleCountPositive(s.children);
    var i, rset := FirstAvailable(s.status), s.phase.rset;
    CountsAfter(s.children, i, Given(s.children[i], fd));
    assert Unseen(Scanning(rset, 0, s.phase.nsel - 1)) == rset;
  }

  /** The scan neither misses a child that select reported nor reads from one that has nothing to say. */
  lemma CheckKeeps(s: State)
    requires TablesAgree(s) && !s.quit && s.phase.Scanning?
    ensures TablesAgree(Next(s, Check)) && Next(s, Check) != s
  {
    hide IdleCount, BusyCount, Unseen;
    var Scanning(rset, i, nsel) := s.phase;
    ScanNotOver(rset, i, nsel, |s.children|);
    OneSeen(rset, i, nsel);
    NothingUnseen();
    if i in rset {
      CountsAfter(s.children, i, Heard(s.children[i]));
    }
  }

  lemma NothingUnseen()
    ensures Unseen(AtSelect) == {}
  {
  }

  /** What is left to see after one child. */
  lemma OneSeen(rset: set<nat>, i: nat, nsel: int)
    ensures
      var unseen, later := Unseen(Scanning(rset, i, nsel)), Unseen(Scanning(rset, i + 1, nsel));
      && later == unseen - {i} && later == Unseen(Scanning(rset, i + 1, nsel - 1))
      && (i in unseen <==> i in rset) && |later| == |unseen| - (if i in rset then 1 else 0)
      && (|later| == 0 <==> later == {})
  {
    var unseen, later := Unseen(Scanning(rset, i, nsel)), Unseen(Scanning(rset, i + 1, nsel));
    assert later == unseen - {i};
    if i !in rset {
      assert later == unseen;
    }
  }

  lemma ScanNotOver(rset: set<nat>, i: nat, nsel: int, n: nat)
    requires |Unseen(Scanning(rset, i, nsel))| > 0 && forall k :: k in Unseen(Scanning(rset, i, nsel)) ==> k < n
    ensures i < n
  {
    var k :| k in Unseen(Scanning(rset, i, nsel));
  }

  lemma TablesKept(s: State, step: Step)
    requires TablesAgree(s)
    ensures TablesAgree(Next(s, step)) && (!s.quit ==> !Next(s, step).quit)
  {
    hide IdleCount, BusyCount;
    if !s.quit {
      match step {
        case Select(connection) => SelectKeeps(s, connection);
        case Accept(fd) =>
          if s.phase.Accepting? {
            AcceptKeeps(s, fd);
          }
        case Check =>
          if s.phase.Scanning? {
            CheckKeeps(s);
          }
        case Receive(i) =>
          if i < |s.children| && s.children[i].doing.Reading? && |s.children[i].inbox| > 0 {
            CountsAfter(s.children, i, Received(s.children[i]));
          }
        case Finish(i) =>
          if i < |s.children| && s.children[i].doing.AtWork? {
            CountsAfter(s.children, i, Finished(s.children[i]));
          }
      }
    }
  }

  lemma AcceptHandsOver(s: State, fd: int)
    requires TablesAgree(s) && HandsOver(s) && !s.quit && s.phase.Accepting?
    ensures HandsOver(Next(s, Accept(fd)))
  {
    hide IdleCount, BusyCount, LastGiven, GivenTo, Sum;
    IdleCountPositive(s.children);
    var s', i := Next(s, Accept(fd)), FirstAvailable(s.status);
    CountsAfter(s.children, i, Given(s.children[i], fd));
    SumIncrement(s.counts, i);
    assert Descriptors(s'.handed) == Descriptors(s.handed) + [fd];
    forall j | 0 <= j < |s.children|
      ensures s'.counts[j] == GivenTo(s'.handed, j)
      ensures Busy(s'.children[j]) ==> LastGiven(s'.handed, j, FdOf(s'.children[j]))
    {
      GivenLater(s.handed, Taken(i, fd), j);
      if Busy(s'.children[j]) {
        LastGivenLater(s.handed, Taken(i, fd), j, FdOf(s'.children[j]));
      }
    }
  }

  lemma HandOverKept(s: State, step: Step)
    requires TablesAgree(s) && HandsOver(s)
    ensures HandsOver(Next(s, step))
  {
    hide IdleCount, BusyCount, LastGiven, GivenTo, Sum;
    if !s.quit {
      match step {
        case Select(_) =>
        case Accept(fd) =>
          if s.phase.Accepting? {
            AcceptHandsOver(s, fd);
          }
        case Check =>
          if s.phase.Scanning? && s.phase.i < |s.children| && s.children[s.phase.i].ready > 0 {
            CountsAfter(s.children, s.phase.i, Heard(s.children[s.phase.i]));
          }
        case Receive(i) =>
          if i < |s.children| && s.children[i].doing.Reading? && |s.children[i].inbox| > 0 {
            CountsAfter(s.children, i, Received(s.children[i]));
          }
        case Finish(i) =>
          if i < |s.children| && s.children[i].doing.AtWork? {
            CountsAfter(s.children, i, Finished(s.children[i]));
          }
      }
    }
  }

  lemma InitAgrees(nchildren: nat)
    ensures TablesAgree(Init(nchildren)) && HandsOver(Init(nchildren))
  {
    var s := Init(nchildren);
    assert Descriptors([]) == [];
    AllIdle(s.children);
    AllZero(s.counts);
  }

  lemma {:induction false} AllIdle(children: seq<Child>)
    requires forall i :: 0 <= i < |children| ==> Idle(children[i])
    ensures IdleCount(children) == |children| && BusyCount(children) == 0
  {
    if children != [] {
      AllIdle(children[1..]);
    }
  }

  lemma {:induction false} AllZero(counts: seq<nat>)
    requires forall i :: 0 <= i < |counts| ==> counts[i] == 0
    ensures Sum(counts) == 0
  {
    if counts != [] {
      AllZero(counts[1..]);
    }
  }

  /** In every run the parent's tables are right, every accepted connection is with exactly one child or finished, and
      the exit "no available children" is never taken. */
  lemma {:induction false} PoolStaysConsistent(nchildren: nat, steps: seq<Step>)
    ensures var s := Run(nchildren, steps); TablesAgree(s) && HandsOver(s) && !s.quit
  {
    if steps == [] {
      InitAgrees(nchildren);
    } else {
      hide Next, TablesAgree, HandsOver;
      var front := steps[..|steps| - 1];
      PoolStaysConsistent(nchildren, front);
      TablesKept(Run(nchildren, front), steps[|steps| - 1]);
      HandOverKept(Run(nchildren, front), steps[|steps| - 1]);
    }
  }

  /** In every reachable state: navail is the number of idle children, the child_counts add up to the connections
      accepted, and those are the ones in pipes, being served or finished. */
  lemma ConnectionsAccountedFor(nchildren: nat, steps: seq<Step>)
    ensures
      var s := Run(nchildren, steps);
      && s.navail == IdleCount(s.children) && Sum(s.counts) == |s.accepted| == BusyCount(s.children) + s.finished
      && forall i :: 0 <= i < nchildren ==> s.counts[i] == GivenTo(s.handed, i)
  {
    hide IdleCount, BusyCount, GivenTo, Sum, Run;
    PoolStaysConsistent(nchildren, steps);
  }

  lemma FirstIdleCounts(children: seq<Child>)
    requires children != []
    ensures Idle(children[0]) ==> IdleCount(children) > 0
  {
  }

  /** The server never gets stuck: whenever select would wait although a connection is waiting, some child is busy
      (there being any), and its next step is enabled. */
  lemma NeverStuck(nchildren: nat, steps: seq<Step>)
    requires nchildren > 0
    requires var s := Run(nchildren, steps); s.phase.AtSelect? && Next(s, Select(true)) == s
    ensures
      var s := Run(nchildren, steps);
      exists i :: 0 <= i < nchildren && Busy(s.children[i]) && (Next(s, Receive(i)) != s || Next(s, Finish(i)) != s)
  {
    hide Run, BusyCount;
    PoolStaysConsistent(nchildren, steps);
    var s := Run(nchildren, steps);
    FirstIdleCounts(s.children);
    assert Ready(s.children[0]) ==> 0 in ReadySet(s.children);
    assert Busy(s.children[0]);
    assert Next(s, Receive(0)) != s || Next(s, Finish(0)) != s;
  }

  /** The rest of a scan, when no child takes a step meanwhile. */
  function Scan(s: State): State
    requires |s.status| == |s.counts| == |s.children|
    decreases if s.phase.Scanning? then |s.children| - s.phase.i else 0
  {
    if s.quit || !s.phase.Scanning? || s.phase.i >= |s.children| || Next(s, Check) == s then s
    else if !Next(s, Check).phase.Scanning? then Next(s, Check)
    else Scan(Next(s, Check))
  }

  lemma ScanUnfold(s: State)
    requires TablesAgree(s) && !s.quit && s.phase.Scanning?
    ensures Scan(s) == if Next(s, Check).phase.Scanning? then Scan(Next(s, Check)) else Next(s, Check)
  {
    hide IdleCount;
    CheckKeeps(s);
    ScanNotOver(s.phase.rset, s.phase.i, s.phase.nsel, |s.children|);
  }

  /** The scan, taken one child at a time, leaves the tables as the parent's loop leaves them: every child that select
    * reported is available again, and the scan is over as soon as the last of them has been seen. */
  lemma {:induction false} ScanCollects(s: State)
    requires TablesAgree(s) && !s.quit && s.phase.Scanning?
    ensures
      var s', ready := Scan(s), Unseen(s.phase);
      && s'.phase.AtSelect? && |s'.status| == |s.status| && s'.counts == s.counts
      && s'.navail == s.navail + |ready|
      && forall i :: 0 <= i < |s.status| ==> s'.status[i] == if i in ready then 0 else s.status[i]
    decreases |s.children| - s.phase.i
  {
    hide IdleCount, BusyCount, Scan, TablesAgree;
    ScanUnfold(s);
    CheckKeeps(s);
    CheckTables(s);
    if Next(s, Check).phase.Scanning? {
      ScanCollects(Next(s, Check));
    }
  }

  lemma CheckTables(s: State)
    requires TablesAgree(s) && !s.quit && s.phase.Scanning?
    ensures
      var s', ready, i := Next(s, Check), Unseen(s.phase), s.phase.i;
      && i < |s.status| && Unseen(s'.phase) == ready - {i} && s'.counts == s.counts && !s'.quit
      && s'.navail + |Unseen(s'.phase)| == s.navail + |ready|
      && s'.status == (if i in ready then s.status[i := 0] else s.status)
      && (s'.phase.AtSelect? || (s'.phase.Scanning? && s'.phase.i == i + 1))
  {
    hide IdleCount, BusyCount, Unseen;
    var Scanning(rset, i, nsel) := s.phase;
    ScanNotOver(rset, i, nsel, |s.children|);
    OneSeen(rset, i, nsel);
    NothingUnseen();
  }
}
