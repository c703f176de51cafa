/** The main loop of dgecho01.c interleaved with its SIGIO handler and with arriving datagrams, from the moment
    FIOASYNC is set. The socket was bound before that, so it may hold datagrams for which no SIGIO was sent. */
module SigioProtocol {
  import opened SigioEcho

  datatype Phase =
    | Testing    // SIGIO blocked, before `while (nqueue == 0)`
    | Suspended  // in sigsuspend, SIGIO unblocked
    | Sending    // SIGIO unblocked, before Sendto
    | Sent       // Sendto has returned
    | Advanced   // iget has been advanced
    | Reblocked  // SIGIO blocked again, before nqueue--

  datatype State = State(
    q: Shared,
    phase: Phase,
    socket: seq<Datagram>,    // received by the kernel, not yet read
    pending: bool,            // a SIGIO is waiting to be delivered
    quit: bool,               // err_quit("receive overflow")
    arrived: seq<Datagram>,   // history
    echoed: seq<DG>           // history: what Sendto was given
  )

  datatype Step = Arrive(d: Datagram) | Handler(again: bool) | Hangup | Main

  function Init(clilen: nat, backlog: seq<Datagram>): State {
    State(Shared(seq(QSIZE, _ => DG([], [], clilen)), 0, 0, 0, seq(QSIZE + 1, _ => 0)),
          Testing, backlog, false, false, backlog, [])
  }

  /** The handler may interrupt the main loop here. */
  predicate Unblocked(p: Phase) {
    p.Suspended? || p.Sending? || p.Sent? || p.Advanced?
  }

  function Next(s: State, step: Step, clilen: nat): (s': State)
    requires Shaped(s.q)
    ensures Shaped(s'.q)
  {
    if s.quit then s
    else
      match step
      case Arrive(d) => s.(socket := s.socket + [d], pending := true, arrived := s.arrived + [d])
      case Handler(again) =>
        if !s.pending || !Unblocked(s.phase) then s
        else if s.q.nqueue + |s.socket| >= QSIZE then
          var room := QSIZE - s.q.nqueue;
          s.(q := StoreAll(s.q, s.socket[..room]), socket := s.socket[room..], quit := true)
        else
          s.(q := Handled(s.q, s.socket, clilen).(cntread := Tally(s.q.cntread, |s.socket|)), socket := [],
             pending := again,
             phase := if s.phase.Suspended? then Testing else s.phase)
      case Hangup => if s.phase.Suspended? then s.(phase := Testing) else s
      case Main =>
        match s.phase
        case Testing => s.(phase := if s.q.nqueue == 0 then Suspended else Sending)
        case Suspended => s
        case Sending => s.(phase := Sent, echoed := s.echoed + [s.q.dg[s.q.iget]])
        case Sent => s.(phase := Advanced, q := s.q.(iget := Slot(s.q.iget, 1)))
        case Advanced => s.(phase := Reblocked)
        case Reblocked => if s.q.nqueue == 0 then s else s.(phase := Testing, q := s.q.(nqueue := s.q.nqueue - 1))
  }

  /** Has the oldest queued datagram already been sent? */
  predicate HeadSent(p: Phase) {
    p.Sent? || p.Advanced? || p.Reblocked?
  }

  /** Queued datagrams that are still to be echoed. */
  function ToEcho(s: State): seq<DG>
    requires Shaped(s.q)
  {
    if HeadSent(s.phase) && s.q.nqueue > 0 then Queue(s.q)[1..] else Queue(s.q)
  }

  /** No datagram is lost, repeated or reordered. */
  ghost predicate Conserved(s: State) {
    Shaped(s.q) && Batch(s.arrived) == s.echoed + ToEcho(s) + Batch(s.socket)
  }

  /** Until a datagram arrives the backlog stays where it is, and nothing is pending; after that a datagram in the
      socket has its signal pending. */
  ghost predicate Signalled(s: State, backlog: seq<Datagram>) {
    && |backlog| <= |s.arrived|
    && (if |s.arrived| == |backlog| then
          s.socket == backlog && !s.pending && s.q.nqueue == 0 && (s.phase.Testing? || s.phase.Suspended?)
        else s.socket != [] ==> s.pending)
  }

  ghost predicate Inv(s: State, backlog: seq<Datagram>) {
    && Conserved(s)
    && s.q.nqueue < QSIZE
    && (s.phase.Sending? || HeadSent(s.phase) ==> s.q.nqueue > 0)
    && (s.phase.Suspended? ==> s.q.nqueue == 0)
    && s.q.iget == Slot(Oldest(s.q), if s.phase.Advanced? || s.phase.Reblocked? then 1 else 0)
    && Signalled(s, backlog)
  }

  lemma BatchConcat(a: seq<Datagram>, b: seq<Datagram>)
    ensures Batch(a + b) == Batch(a) + Batch(b)
  {
  }

  /** What a handler that returns has done to the state. */
  lemma HandlerEffect(s: State, again: bool, clilen: nat)
    requires Shaped(s.q) && !s.quit && s.pending && Unblocked(s.phase) && s.q.nqueue + |s.socket| < QSIZE
    ensures
      var s' := Next(s, Handler(again), clilen);
      && Shaped(s'.q) && s'.q.nqueue == s.q.nqueue + |s.socket| && s'.q.iget == s.q.iget
      && Oldest(s'.q) == Oldest(s.q) && Queue(s'.q) == Queue(s.q) + Batch(s.socket)
  {
    hide Queue, Oldest, Stored, Slot, Handled, Batch;
    var s' := Next(s, Handler(again), clilen);
    var h := Handled(s.q, s.socket, clilen);
    HandledAppends(s.q, s.socket, clilen);
    SameOldest(h, s'.q);
    SameQueue(h, s'.q);
  }

  /** What a handler that quits has done: every slot is taken, and only what no slot was left for is still unread. */
  lemma QuitEffect(s: State, again: bool, clilen: nat)
    requires Shaped(s.q) && !s.quit && s.pending && Unblocked(s.phase) && s.q.nqueue + |s.socket| >= QSIZE
    ensures
      var s' := Next(s, Handler(again), clilen);
      && s'.quit && Shaped(s'.q) && s'.q.nqueue == QSIZE && s'.q.iget == s.q.iget && Oldest(s'.q) == Oldest(s.q)
      && Queue(s'.q) + Batch(s'.socket) == Queue(s.q) + Batch(s.socket)
      && |s'.socket| == s.q.nqueue + |s.socket| - QSIZE
  {
    hide Queue, Oldest, Stored, Slot, StoreAll, Batch;
    var room := QSIZE - s.q.nqueue;
    StoreAllAppends(s.q, s.socket[..room]);
    BatchConcat(s.socket[..room], s.socket[room..]);
    assert s.socket == s.socket[..room] + s.socket[room..];
  }

  lemma TailsEqual<T>(a: seq<T>, b: seq<T>, c: seq<T>, d: seq<T>)
    requires a + b == c + d && |a| > 0 && |c| > 0
    ensures a[1..] + b == c[1..] + d
  {
    assert a[1..] + b == (a + b)[1..] && c[1..] + d == (c + d)[1..];
  }

  lemma QuitConserves(s: State, again: bool, clilen: nat)
    requires Conserved(s) && !s.quit && s.pending && Unblocked(s.phase) && s.q.nqueue + |s.socket| >= QSIZE
    requires HeadSent(s.phase) ==> s.q.nqueue > 0
    ensures Conserved(Next(s, Handler(again), clilen)) && Next(s, Handler(again), clilen).q.nqueue <= QSIZE
  {
    hide Queue, Oldest, Stored, Slot, StoreAll, Batch;
    var s' := Next(s, Handler(again), clilen);
    QuitEffect(s, again, clilen);
    if HeadSent(s.phase) {
      TailsEqual(Queue(s'.q), Batch(s'.socket), Queue(s.q), Batch(s.socket));
    }
    assert ToEcho(s') + Batch(s'.socket) == ToEcho(s) + Batch(s.socket);
    assert s.echoed + ToEcho(s) + Batch(s.socket) == s.echoed + (ToEcho(s) + Batch(s.socket));
    assert s.echoed + ToEcho(s') + Batch(s'.socket) == s.echoed + (ToEcho(s') + Batch(s'.socket));
  }

  lemma ReturnKeeps(s: State, again: bool, clilen: nat, backlog: seq<Datagram>)
    requires Inv(s, backlog) && !s.quit && s.pending && Unblocked(s.phase) && s.q.nqueue + |s.socket| < QSIZE
    ensures Inv(Next(s, Handler(again), clilen), backlog)
  {
    hide Queue, Oldest, Stored, Slot, Handled, StoreAll, Batch;
    var s' := Next(s, Handler(again), clilen);
    HandlerEffect(s, again, clilen);
    assert ToEcho(s') == ToEcho(s) + Batch(s.socket);
    EmptyBatch();
    assert s.echoed + ToEcho(s) + Batch(s.socket) == s.echoed + ToEcho(s') + [];
  }

  lemma HandlerKeeps(s: State, again: bool, clilen: nat, backlog: seq<Datagram>)
    requires Inv(s, backlog) && !s.quit
    ensures
      var s' := Next(s, Handler(again), clilen);
      Conserved(s') && s'.q.nqueue <= QSIZE && (s'.quit || Inv(s', backlog))
  {
    hide Conserved, Oldest, Slot, Handled, StoreAll;
    if s.pending && Unblocked(s.phase) {
      if s.q.nqueue + |s.socket| < QSIZE {
        ReturnKeeps(s, again, clilen, backlog);
      } else {
        InvConserves(s, backlog);
        QuitConserves(s, again, clilen);
      }
    }
  }

  lemma InvConserves(s: State, backlog: seq<Datagram>)
    ensures Inv(s, backlog) ==> Conserved(s)
  {
  }

  lemma EmptyBatch()
    ensures Batch([]) == []
  {
  }

  /** Dropping the oldest datagram from the count. */
  lemma DropHead(q: Shared)
    requires Shaped(q) && 0 < q.nqueue < QSIZE
    ensures
      var q' := q.(nqueue := q.nqueue - 1);
      Oldest(q') == Slot(Oldest(q), 1) && Queue(q') == Queue(q)[1..]
  {
    var q' := q.(nqueue := q.nqueue - 1);
    NextOldest(q);
    forall k | 0 <= k < q'.nqueue
      ensures Queue(q')[k] == Queue(q)[k + 1]
    {
      SlotSum(Oldest(q), k);
    }
  }

  lemma NextOldest(q: Shared)
    requires Shaped(q) && 0 < q.nqueue
    ensures Oldest(q.(nqueue := q.nqueue - 1)) == Slot(Oldest(q), 1)
  {
  }

  lemma SlotSum(o: nat, k: nat)
    ensures Slot(Slot(o, 1), k) == Slot(o, k + 1)
  {
  }

  lemma MainKeeps(s: State, clilen: nat, backlog: seq<Datagram>)
    requires Inv(s, backlog) && !s.quit
    ensures Inv(Next(s, Main, clilen), backlog)
  {
    hide Queue, Oldest, Stored, Slot;
    var s' := Next(s, Main, clilen);
    SameOldest(s.q, s'.q.(nqueue := s.q.nqueue));
    match s.phase {
      case Testing =>
      case Suspended =>
      case Sending =>
        HeadOfQueue(s.q);
        assert s.echoed + Queue(s.q) == s'.echoed + Queue(s.q)[1..];
      case Sent =>
        SlotZero(Oldest(s.q));
        SameQueue(s.q, s'.q);
      case Advanced =>
      case Reblocked =>
        DropHead(s.q);
        SlotZero(Oldest(s'.q));
    }
  }

  lemma SlotZero(o: nat)
    ensures o < QSIZE ==> Slot(o, 0) == o
  {
  }

  /** The slot that iget names before it is advanced holds the oldest queued datagram. */
  lemma HeadOfQueue(q: Shared)
    requires Shaped(q) && q.nqueue > 0
    ensures Queue(q)[0] == q.dg[Slot(Oldest(q), 0)]
  {
  }

  lemma ArriveKeeps(s: State, d: Datagram, clilen: nat, backlog: seq<Datagram>)
    requires Shaped(s.q)
    ensures Inv(s, backlog) && !s.quit ==> Inv(Next(s, Arrive(d), clilen), backlog)
  {
    hide Queue, Oldest, Stored, Slot, Batch;
    BatchConcat(s.arrived, [d]);
    BatchConcat(s.socket, [d]);
    var before := s.echoed + ToEcho(s);
    assert before + (Batch(s.socket) + Batch([d])) == before + Batch(s.socket) + Batch([d]);
  }

  function Run(steps: seq<Step>, clilen: nat, backlog: seq<Datagram>): (s: State)
    ensures Shaped(s.q)
  {
    if steps == [] then Init(clilen, backlog)
    else Next(Run(steps[..|steps| - 1], clilen, backlog), steps[|steps| - 1], clilen)
  }

  lemma {:induction false} RunKeeps(steps: seq<Step>, clilen: nat, backlog: seq<Datagram>)
    ensures var s := Run(steps, clilen, backlog); Conserved(s) && (s.quit || Inv(s, backlog))
  {
    if steps == [] {
      InitInv(clilen, backlog);
    } else {
      var front := steps[..|steps| - 1];
      hide Next, Inv, Conserved;
      RunKeeps(front, clilen, backlog);
      NextKeeps(Run(front, clilen, backlog), steps[|steps| - 1], clilen, backlog);
    }
  }

  lemma InitInv(clilen: nat, backlog: seq<Datagram>)
    ensures Inv(Init(clilen, backlog), backlog)
  {
    assert [] + [] + Batch(backlog) == Batch(backlog);
  }

  lemma NextKeeps(s: State, step: Step, clilen: nat, backlog: seq<Datagram>)
    requires Conserved(s) && (s.quit || Inv(s, backlog))
    ensures var s' := Next(s, step, clilen); Conserved(s') && (s'.quit || Inv(s', backlog))
  {
    hide Queue, Oldest, Slot, Handled, StoreAll, Batch;
    if !s.quit {
      match step {
        case Arrive(d) => ArriveKeeps(s, d, clilen, backlog);
        case Handler(again) => HandlerKeeps(s, again, clilen, backlog);
        case Hangup => SlotZero(Oldest(s.q));
        case Main => MainKeeps(s, clilen, backlog);
      }
    }
  }

  /** In every run, even one that ends in an overflow, the datagrams that arrived are those echoed, then those
      queued and not yet echoed, then those the kernel still holds: none is lost, repeated or reordered. Before an
      overflow the ring's indices agree with the count: iput is nqueue places after the oldest queued datagram, and
      fewer than QSIZE are queued. */
  lemma EchoedInArrivalOrder(steps: seq<Step>, clilen: nat, backlog: seq<Datagram>)
    ensures
      var s := Run(steps, clilen, backlog);
      && Batch(s.arrived) == s.echoed + ToEcho(s) + Batch(s.socket)
      && (!s.quit ==> s.q.nqueue < QSIZE) && s.q.iput == Slot(Oldest(s.q), s.q.nqueue)
  {
    hide Run, Batch, ToEcho;
    RunKeeps(steps, clilen, backlog);
    FreeSlot(Run(steps, clilen, backlog).q);
  }

  /** In every run, the k-th datagram echoed is the k-th that arrived: all of its octets, or the first 4096 of a longer
      one, sent to the address it came from. */
  lemma EchoedAsItCame(steps: seq<Step>, clilen: nat, backlog: seq<Datagram>, k: nat)
    requires k < |Run(steps, clilen, backlog).echoed|
    ensures
      var s := Run(steps, clilen, backlog);
      && k < |s.arrived| && s.echoed[k].sa == s.arrived[k].sa && s.echoed[k].salen == |s.arrived[k].sa|
      && (|s.arrived[k].data| <= 4096 ==> s.echoed[k].data == s.arrived[k].data)
      && (|s.arrived[k].data| > 4096 ==> s.echoed[k].data == s.arrived[k].data[..4096])
  {
    hide Run, ToEcho, Stored;
    RunKeeps(steps, clilen, backlog);
    var s := Run(steps, clilen, backlog);
    BatchLength(s.arrived);
    assert (s.echoed + ToEcho(s) + Batch(s.socket))[k] == s.echoed[k];
    assert Batch(s.arrived)[k] == Stored(s.arrived[k]);
    StoredFields(s.arrived[k]);
  }

  /** All the datagrams that a histogram of signals accounts for. */
  function ReadTotal(cntread: seq<nat>): nat {
    if |cntread| == 0 then 0 else ReadTotal(cntread[..|cntread| - 1]) + (|cntread| - 1) * cntread[|cntread| - 1]
  }

  lemma {:induction false} TallyTotal(cntread: seq<nat>, n: nat)
    requires n < |cntread|
    ensures ReadTotal(Tally(cntread, n)) == ReadTotal(cntread) + n
  {
    var m := |cntread| - 1;
    var front, t := cntread[..m], Tally(cntread, n);
    if n < m {
      TallyTotal(front, n);
      assert t[..m] == Tally(front, n);
    } else {
      assert t[..m] == front;
      assert m * (cntread[m] + 1) == m * cntread[m] + m;
    }
  }

  lemma {:induction false} NothingRead(n: nat)
    ensures ReadTotal(seq(n, _ => 0)) == 0
  {
    if n > 0 {
      assert seq(n, _ => 0)[..n - 1] == seq(n - 1, _ => 0);
      NothingRead(n - 1);
    }
  }

  /** Until the server quits, the histogram that SIGHUP prints accounts for every datagram that has been read. */
  lemma {:induction false} HistogramCounts(steps: seq<Step>, clilen: nat, backlog: seq<Datagram>)
    requires !Run(steps, clilen, backlog).quit
    ensures
      var s := Run(steps, clilen, backlog);
      ReadTotal(s.q.cntread) + |s.socket| == |s.arrived|
  {
    hide Handled, StoreAll, ReadTotal;
    if steps == [] {
      NothingRead(QSIZE + 1);
    } else {
      var front := Run(steps[..|steps| - 1], clilen, backlog);
      HistogramCounts(steps[..|steps| - 1], clilen, backlog);
      if front.q.nqueue + |front.socket| < QSIZE {
        TallyTotal(front.q.cntread, |front.socket|);
      }
    }
  }

  /** While a datagram is being sent its slot still counts as queued, so a handler that returns has not touched it. */
  lemma SlotBeingSentIsSpared(steps: seq<Step>, again: bool, clilen: nat, backlog: seq<Datagram>)
    requires
      var s := Run(steps, clilen, backlog);
      !s.quit && (s.phase.Sending? || s.phase.Sent?)
    ensures
      var s, s' := Run(steps, clilen, backlog), Next(Run(steps, clilen, backlog), Handler(again), clilen);
      s'.q.dg[s'.q.iget] == s.q.dg[s.q.iget]
  {
    hide Run, Queue, Oldest, Stored, Slot, Handled, StoreAll, Batch;
    RunKeeps(steps, clilen, backlog);
    var s := Run(steps, clilen, backlog);
    var s' := Next(s, Handler(again), clilen);
    if s.pending {
      if s.q.nqueue + |s.socket| < QSIZE {
        HandlerEffect(s, again, clilen);
      } else {
        QuitEffect(s, again, clilen);
        assert (Queue(s'.q) + Batch(s'.socket))[0] == (Queue(s.q) + Batch(s.socket))[0];
      }
      HeadOfQueue(s.q);
      HeadOfQueue(s'.q);
    }
  }

  /** What an overflow means. The handler quits exactly when the queued and the waiting datagrams together are at
      least QSIZE. If they are exactly QSIZE the exit is spurious: each has its slot, none is left in the socket,
      and no queued datagram has been overwritten. If they are more, no ring could hold them. A handler that returns
      leaves fewer than QSIZE queued, and what it has read is a valid index of cntread. */
  lemma OverflowsAtQsize(steps: seq<Step>, again: bool, clilen: nat, backlog: seq<Datagram>)
    requires
      var s := Run(steps, clilen, backlog);
      !s.quit && s.pending && Unblocked(s.phase)
    ensures
      var s, s' := Run(steps, clilen, backlog), Next(Run(steps, clilen, backlog), Handler(again), clilen);
      var all := Queue(s.q) + Batch(s.socket);
      && (s'.quit <==> |all| >= QSIZE) && (!s'.quit ==> s'.q.nqueue == |all| < QSIZE && |s.socket| < |s.q.cntread|)
      && Batch(s'.arrived) == s'.echoed + ToEcho(s') + Batch(s'.socket)
      && (Queue(s'.q) == all <==> |all| <= QSIZE) && (s'.socket == [] <==> |all| <= QSIZE)
      && (|all| > QSIZE <==> forall q :: Shaped(q) ==> Queue(q) != all)
  {
    hide Run, Queue, Oldest, Stored, Slot, Handled, StoreAll, Batch;
    RunKeeps(steps, clilen, backlog);
    var s := Run(steps, clilen, backlog);
    var s' := Next(s, Handler(again), clilen);
    HandlerKeeps(s, again, clilen, backlog);
    BatchLength(s.socket);
    if s.q.nqueue + |s.socket| < QSIZE {
      HandlerEffect(s, again, clilen);
    } else {
      QuitEffect(s, again, clilen);
      BatchLength(s'.socket);
    }
  }

  lemma BatchLength(batch: seq<Datagram>)
    ensures |Batch(batch)| == |batch|
  {
  }

  lemma RunSnoc(steps: seq<Step>, step: Step, clilen: nat, backlog: seq<Datagram>)
    ensures Run(steps + [step], clilen, backlog) == Next(Run(steps, clilen, backlog), step, clilen)
  {
    hide Next;
    assert (steps + [step])[..|steps|] == steps;
  }

  function Copies(d: Datagram, n: nat): seq<Datagram> {
    seq(n, _ => d)
  }

  lemma {:induction false} ArriveTogether(d: Datagram, n: nat, clilen: nat) returns (steps: seq<Step>)
    ensures Run(steps, clilen, [])
         == Init(clilen, []).(socket := Copies(d, n), pending := n > 0, arrived := Copies(d, n))
  {
    steps := [];
    if n == 0 {
      assert Copies(d, 0) == [];
    } else {
      hide Run;
      steps := ArriveTogether(d, n - 1, clilen);
      RunSnoc(steps, Arrive(d), clilen, []);
      assert Copies(d, n) == Copies(d, n - 1) + [d];
      steps := steps + [Arrive(d)];
    }
  }

  /** The spurious exit is reached: eight datagrams arrive together, the handler stores all eight, and quits. */
  lemma EightArriveTogether(d: Datagram, clilen: nat) returns (steps: seq<Step>)
    ensures
      var s := Run(steps, clilen, []);
      s.quit && s.arrived == Copies(d, 8) && s.socket == [] && s.echoed == [] && Queue(s.q) == Batch(Copies(d, 8))
  {
    hide Run, Queue, Oldest, Stored, Slot, StoreAll, Batch;
    steps := ArriveTogether(d, QSIZE, clilen);
    RunSnoc(steps, Main, clilen, []);
    steps := steps + [Main];
    var s := Run(steps, clilen, []);
    RunSnoc(steps, Handler(false), clilen, []);
    steps := steps + [Handler(false)];
    QuitEffect(s, false, clilen);
    EmptyBatch();
    var s' := Run(steps, clilen, []);
    assert s'.socket == [] && Queue(s.q) == [];
    assert Queue(s'.q) + [] == Queue(s'.q) && [] + Batch(s.socket) == Batch(s.socket);
  }

  /** Asleep in sigsuspend, with a datagram in the socket and no signal on its way. */
  predicate Stranded(s: State) {
    !s.quit && s.phase.Suspended? && s.socket != [] && !s.pending
  }

  lemma {:induction false} ArrivedSince(steps: seq<Step>, clilen: nat, backlog: seq<Datagram>)
    requires !Run(steps, clilen, backlog).quit
    ensures |Run(steps, clilen, backlog).arrived| == |backlog| <==> forall step <- steps :: !step.Arrive?
    ensures |Run(steps, clilen, backlog).arrived| >= |backlog|
  {
    hide Handled, StoreAll;
    if steps != [] {
      var front, last := steps[..|steps| - 1], steps[|steps| - 1];
      assert last in steps && forall step :: step in front ==> step in steps;
      assert forall step :: step in steps ==> step in front || step == last;
      ArrivedSince(front, clilen, backlog);
    }
  }

  /** A sleeping server has left a datagram in its socket without a signal to wake it exactly when one was there before
      FIOASYNC was set and none has arrived since. */
  lemma StrandedExactly(steps: seq<Step>, clilen: nat, backlog: seq<Datagram>)
    requires var s := Run(steps, clilen, backlog); !s.quit && s.phase.Suspended?
    ensures Stranded(Run(steps, clilen, backlog)) <==> backlog != [] && forall step <- steps :: !step.Arrive?
  {
    hide Run, Conserved;
    RunKeeps(steps, clilen, backlog);
    ArrivedSince(steps, clilen, backlog);
  }

  /** Nothing but an arrival helps: no other step, and no SIGHUP with the main loop's next test, changes anything. */
  lemma StrandedStays(steps: seq<Step>, again: bool, clilen: nat, backlog: seq<Datagram>)
    requires Stranded(Run(steps, clilen, backlog))
    ensures
      var s := Run(steps, clilen, backlog);
      && Next(s, Main, clilen) == s && Next(s, Handler(again), clilen) == s
      && Next(Next(s, Hangup, clilen), Main, clilen) == s
      && forall d :: var s' := Next(s, Arrive(d), clilen); s'.pending && s'.socket == s.socket + [d]
  {
    hide Run, Conserved;
    RunKeeps(steps, clilen, backlog);
  }

  /** Once a datagram has arrived after FIOASYNC was set, a server that sleeps with a datagram in its socket has the
      signal pending, and when the handler has returned the main loop goes on to send the oldest one. */
  lemma NoDatagramIsStranded(steps: seq<Step>, again: bool, clilen: nat, backlog: seq<Datagram>)
    requires
      var s := Run(steps, clilen, backlog);
      !s.quit && s.phase.Suspended? && s.socket != []
    requires exists step <- steps :: step.Arrive?
    ensures
      var s := Run(steps, clilen, backlog);
      var s' := Next(s, Handler(again), clilen);
      s.pending && (s'.quit || (s'.phase.Testing? && Next(s', Main, clilen).phase.Sending?))
  {
    hide Run, Queue, Oldest, Stored, Slot, Handled, StoreAll, Batch;
    RunKeeps(steps, clilen, backlog);
    ArrivedSince(steps, clilen, backlog);
    var s := Run(steps, clilen, backlog);
    if s.q.nqueue + |s.socket| < QSIZE {
      HandlerEffect(s, again, clilen);
    }
  }

  /** One round of the main loop that no signal interrupts: the oldest datagram is sent and leaves the queue. */
  method EchoOldest(server: EchoServer) returns (d: DG)
    requires server.Valid() && 0 < server.nqueue < QSIZE && server.iget == Oldest(server.View())
    modifies server`iget, server`nqueue
    ensures server.Valid() && [d] + Queue(server.View()) == old(Queue(server.View()))
    ensures d == old(server.dg[server.iget]) && server.nqueue == old(server.nqueue) - 1
    ensures server.iget == Oldest(server.View())
  {
    hide Queue, Oldest, Slot;
    ghost var q := server.View();
    d := server.Send();
    server.Advance();
    ghost var q1 := server.View();
    SameQueue(q, q1);
    DropHead(q1);
    server.nqueue := server.nqueue - 1;
    assert server.View() == q1.(nqueue := q1.nqueue - 1);
    assert Queue(q) == [Queue(q)[0]] + Queue(q)[1..];
  }
}
