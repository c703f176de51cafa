/** The prethreaded server of serv08.c and pthread08.c: an accepting thread, worker threads, one mutex and one
    condition variable. What happens between a lock and the matching unlock or wait is one step. */
module ThreadPool {
  import opened FdRing
  import opened Handover

  datatype Worker =
    | Going             // on its way to lock the mutex
    | Asleep            // in pthread_cond_wait, mutex released
    | Woken             // signalled, waiting to have the mutex back
    | Took(fd: int)     // has a descriptor, thread_count not yet advanced
    | Serving(fd: int)

  datatype Pool = Pool(
    queue: seq<int>,
    workers: seq<Worker>,
    counts: seq<nat>,      // tptr[i].thread_count
    quit: bool,            // err_quit: the ring has become full
    accepted: seq<int>,    // history: what accept returned
    taken: seq<Taken>      // history: who took what
  )

  datatype Step =
    | Accept(fd: int, wake: set<nat>)  // accept, deposit, signal; `wake` are the sleepers that the signal wakes
    | Lock(i: nat)                     // worker i gets the mutex and takes a descriptor, or waits
    | Spurious(i: nat)                 // a wait may end without a signal
    | Count(i: nat)
    | Done(i: nat)

  function Init(nthreads: nat): Pool {
    Pool([], seq(nthreads, _ => Going), seq(nthreads, _ => 0), false, [], [])
  }

  predicate IsAsleep(p: Pool, i: nat) {
    i < |p.workers| && p.workers[i].Asleep?
  }

  /** pthread_cond_signal wakes at least one of the threads that wait, if any does. */
  ghost predicate Signal(p: Pool, wake: set<nat>) {
    && (forall i :: i in wake ==> IsAsleep(p, i))
    && (wake == {} ==> forall i :: !IsAsleep(p, i))
  }

  ghost predicate Enabled(p: Pool, s: Step) {
    !p.quit &&
    match s
    case Accept(fd, wake) => Signal(p, wake)
    case Lock(i) => i < |p.workers| && (p.workers[i].Going? || p.workers[i].Woken?)
    case Spurious(i) => IsAsleep(p, i)
    case Count(i) => i < |p.workers| && i < |p.counts| && p.workers[i].Took?
    case Done(i) => i < |p.workers| && p.workers[i].Serving?
  }

  function Waking(workers: seq<Worker>, wake: set<nat>): seq<Worker> {
    seq(|workers|, i requires 0 <= i < |workers| => if i in wake then Woken else workers[i])
  }

  ghost function Next(p: Pool, s: Step): Pool {
    if !Enabled(p, s) then p
    else
      match s
      case Accept(fd, wake) =>
        if |p.queue| == MAXNCLI - 1 then p.(quit := true, accepted := p.accepted + [fd])
        else p.(queue := p.queue + [fd], workers := Waking(p.workers, wake), accepted := p.accepted + [fd])
      case Lock(i) =>
        if p.queue == [] then p.(workers := p.workers[i := Asleep])
        else p.(queue := p.queue[1..], workers := p.workers[i := Took(p.queue[0])],
                taken := p.taken + [Taken(i, p.queue[0])])
      case Spurious(i) => p.(workers := p.workers[i := Woken])
      case Count(i) => p.(workers := p.workers[i := Serving(p.workers[i].fd)], counts := p.counts[i := p.counts[i] + 1])
      case Done(i) => p.(workers := p.workers[i := Going])
  }

  ghost function Run(nthreads: nat, steps: seq<Step>): Pool {
    if steps == [] then Init(nthreads) else Next(Run(nthreads, steps[..|steps| - 1]), steps[|steps| - 1])
  }

  function WokenSet(workers: seq<Worker>): set<nat> {
    set i | 0 <= i < |workers| && workers[i].Woken?
  }

  lemma WokenAfter(workers: seq<Worker>, i: nat, w: Worker)
    requires i < |workers|
    ensures WokenSet(workers[i := w]) == WokenSet(workers) - {i} + (if w.Woken? then {i} else {})
  {
    var a, b := WokenSet(workers[i := w]), WokenSet(workers) - {i} + (if w.Woken? then {i} else {});
    forall j
      ensures j in a <==> j in b
    {
      if 0 <= j < |workers| && j != i {
        assert workers[i := w][j] == workers[j];
      }
    }
  }

  lemma WokenAfterSignal(workers: seq<Worker>, wake: set<nat>, j: nat)
    requires j in wake && j < |workers| && !workers[j].Woken?
    ensures |WokenSet(Waking(workers, wake))| > |WokenSet(workers)|
  {
    var a, b := WokenSet(workers) + {j}, WokenSet(Waking(workers, wake));
    forall i | i in a
      ensures i in b
    {
      assert Waking(workers, wake)[i].Woken?;
    }
    assert b == a + (b - a);
  }

  ghost predicate Held(w: Worker) {
    w.Took? || w.Serving?
  }

  /** FIFO: what was taken followed by what is queued is what was accepted. */
  ghost predicate Fifo(p: Pool) {
    p.accepted == Descriptors(p.taken) + p.queue && |p.queue| < MAXNCLI
  }

  /** No wakeup is lost: with a thread asleep, there are at least as many woken threads as queued descriptors. */
  ghost predicate WakeupsSuffice(p: Pool) {
    (exists i :: IsAsleep(p, i)) ==> |p.queue| <= |WokenSet(p.workers)|
  }

  /** Each worker's count, and the descriptor each worker holds, agree with what it was given. */
  ghost predicate Accounts(p: Pool) {
    && |p.counts| == |p.workers|
    && (forall i :: 0 <= i < |p.workers| ==>
      p.counts[i] + (if p.workers[i].Took? then 1 else 0) == GivenTo(p.taken, i))
    && (forall i :: 0 <= i < |p.workers| && Held(p.workers[i]) ==> LastGiven(p.taken, i, p.workers[i].fd))
    && (forall k :: 0 <= k < |p.taken| ==> p.taken[k].worker < |p.workers|)
  }

  lemma FifoKept(p: Pool, s: Step)
    requires p.quit || Fifo(p)
    ensures Next(p, s).quit || Fifo(Next(p, s))
    ensures p.quit ==> Next(p, s) == p
  {
    if Enabled(p, s) && s.Lock? && p.queue != [] {
      var p' := Next(p, s);
      assert Descriptors(p'.taken) == Descriptors(p.taken) + [p.queue[0]];
      assert p.queue == [p.queue[0]] + p.queue[1..];
    }
  }

  lemma WakeupsKeptBySignal(p: Pool, fd: int, wake: set<nat>)
    requires WakeupsSuffice(p) && Enabled(p, Accept(fd, wake))
    ensures Next(p, Accept(fd, wake)).quit || WakeupsSuffice(Next(p, Accept(fd, wake)))
  {
    hide WokenSet, Waking;
    var p' := Next(p, Accept(fd, wake));
    if i :| !p'.quit && IsAsleep(p', i) {
      StillAsleep(p.workers, wake, i);
      assert IsAsleep(p, i);
      var j :| j in wake;
      assert IsAsleep(p, j);
      WokenAfterSignal(p.workers, wake, j);
    }
  }

  lemma StillAsleep(workers: seq<Worker>, wake: set<nat>, i: nat)
    requires i < |Waking(workers, wake)| && Waking(workers, wake)[i].Asleep?
    ensures i < |workers| && workers[i].Asleep?
  {
  }

  /** A worker's own step: only a worker that was woken may stop being so, and then a descriptor is gone or none was
      left. */
  lemma WakeupsKeptByWorker(p: Pool, p': Pool, k: nat, w: Worker)
    requires WakeupsSuffice(p) && k < |p.workers| && p'.workers == p.workers[k := w]
    requires p.workers[k].Woken? && !w.Woken? ==> p'.queue == [] || |p'.queue| < |p.queue|
    requires |p'.queue| <= |p.queue| && (w.Asleep? ==> p'.queue == [])
    ensures WakeupsSuffice(p')
  {
    hide WokenSet;
    WokenAfter(p.workers, k, w);
    NotWoken(p, k);
    if i :| IsAsleep(p', i) && p'.queue != [] {
      assert IsAsleep(p, i);
    }
  }

  lemma WakeupsKept(p: Pool, s: Step)
    requires WakeupsSuffice(p)
    ensures Next(p, s).quit || WakeupsSuffice(Next(p, s))
  {
    hide WokenSet, Waking, WakeupsSuffice;
    var p' := Next(p, s);
    if Enabled(p, s) {
      match s {
        case Accept(fd, wake) => WakeupsKeptBySignal(p, fd, wake);
        case Lock(i) => WakeupsKeptByWorker(p, p', i, p'.workers[i]);
        case Spurious(i) => WakeupsKeptByWorker(p, p', i, Woken);
        case Count(i) => WakeupsKeptByWorker(p, p', i, p'.workers[i]);
        case Done(i) => WakeupsKeptByWorker(p, p', i, Going);
      }
    }
  }

  lemma NotWoken(p: Pool, k: nat)
    requires k < |p.workers|
    ensures k in WokenSet(p.workers) <==> p.workers[k].Woken?
  {
  }

  lemma AccountsKept(p: Pool, s: Step)
    requires Accounts(p)
    ensures Accounts(Next(p, s)) && |Next(p, s).workers| == |p.workers|
  {
    hide LastGiven, GivenTo;
    var p' := Next(p, s);
    if Enabled(p, s) && s.Lock? && p.queue != [] {
      var t := Taken(s.i, p.queue[0]);
      forall i | 0 <= i < |p'.workers|
        ensures p'.counts[i] + (if p'.workers[i].Took? then 1 else 0) == GivenTo(p'.taken, i)
        ensures Held(p'.workers[i]) ==> LastGiven(p'.taken, i, p'.workers[i].fd)
      {
        GivenLater(p.taken, t, i);
        if Held(p'.workers[i]) {
          LastGivenLater(p.taken, t, i, p'.workers[i].fd);
        }
      }
    }
  }

  lemma {:induction false} RunKeeps(nthreads: nat, steps: seq<Step>)
    ensures
      var p := Run(nthreads, steps);
      && |p.workers| == nthreads && Accounts(p)
      && (p.quit || (Fifo(p) && WakeupsSuffice(p)))
  {
    if steps == [] {
      var p := Init(nthreads);
      assert forall i :: !IsAsleep(p, i);
      assert Descriptors([]) == [];
    } else {
      var front, s := steps[..|steps| - 1], steps[|steps| - 1];
      RunKeeps(nthreads, front);
      var p := Run(nthreads, front);
      FifoKept(p, s);
      AccountsKept(p, s);
      if !p.quit {
        WakeupsKept(p, s);
      }
    }
  }

  /** In every reachable state that has not quit: a queued descriptor never waits while all who could take it sleep.
      Some awake worker is on its way to the queue or busy with an earlier descriptor, and if any worker sleeps, a
      woken one will take the oldest descriptor as soon as it has the mutex. */
  lemma NoLostWakeup(nthreads: nat, steps: seq<Step>, sleeper: nat)
    requires
      var p := Run(nthreads, steps);
      !p.quit && p.queue != [] && IsAsleep(p, sleeper)
    ensures
      var p := Run(nthreads, steps);
      exists i ::
        && i in WokenSet(p.workers)
        && Next(p, Lock(i)).taken == p.taken + [Taken(i, p.queue[0])]
        && Next(p, Lock(i)).queue == p.queue[1..]
  {
    RunKeeps(nthreads, steps);
    var p := Run(nthreads, steps);
    assert WokenSet(p.workers) != {};
    var i :| i in WokenSet(p.workers);
    assert Enabled(p, Lock(i));
  }

  // ----- what the workers can do on their own -----

  ghost function After(p: Pool, steps: seq<Step>): Pool
    decreases |steps|
  {
    if steps == [] then p else After(Next(p, steps[0]), steps[1..])
  }

  lemma {:induction false} AfterConcat(p: Pool, a: seq<Step>, b: seq<Step>)
    ensures After(p, a + b) == After(After(p, a), b)
    decreases |a|
  {
    hide Next;
    if a == [] {
      assert a + b == b;
    } else {
      assert (a + b)[0] == a[0] && (a + b)[1..] == a[1..] + b;
      AfterConcat(Next(p, a[0]), a[1..], b);
    }
  }

  lemma {:induction false} RunThen(nthreads: nat, steps: seq<Step>, more: seq<Step>)
    ensures Run(nthreads, steps + more) == After(Run(nthreads, steps), more)
    decreases |more|
  {
    hide Next;
    if more == [] {
      assert steps + more == steps;
    } else {
      var first := steps + [more[0]];
      assert first[..|steps|] == steps && first + more[1..] == steps + more;
      RunThen(nthreads, first, more[1..]);
    }
  }

  /** A step that worker i takes in the course of its loop. */
  predicate OwnStep(s: Step, i: nat) {
    s == Lock(i) || s == Count(i) || s == Done(i)
  }

  lemma AfterCons(p: Pool, s: Step, steps: seq<Step>)
    ensures After(p, [s] + steps) == After(Next(p, s), steps) && After(p, []) == p
  {
    assert ([s] + steps)[1..] == steps;
  }

  /** A worker that does not sleep takes the oldest descriptor, after at most two steps with the one it has. */
  lemma TakesNext(p: Pool, i: nat) returns (steps: seq<Step>)
    requires !p.quit && p.queue != [] && i < |p.workers| == |p.counts| && !p.workers[i].Asleep?
    ensures forall s <- steps :: OwnStep(s, i)
    ensures
      var q := After(p, steps);
      && q.taken == p.taken + [Taken(i, p.queue[0])] && q.queue == p.queue[1..] && q.accepted == p.accepted && !q.quit
      && q.workers == p.workers[i := Took(p.queue[0])] && |q.counts| == |p.counts|
    decreases if p.workers[i].Took? then 2 else if p.workers[i].Serving? then 1 else 0
  {
    hide After;
    var step := if p.workers[i].Took? then Count(i) else if p.workers[i].Serving? then Done(i) else Lock(i);
    steps := [];
    if step != Lock(i) {
      steps := TakesNext(Next(p, step), i);
    } else {
      AfterCons(Next(p, step), step, []);
    }
    AfterCons(p, step, steps);
    steps := [step] + steps;
  }

  lemma {:induction false} TakesAll(p: Pool, i: nat) returns (steps: seq<Step>)
    requires !p.quit && i < |p.workers| == |p.counts| && !p.workers[i].Asleep? && Fifo(p)
    ensures forall s <- steps :: OwnStep(s, i)
    ensures
      var q := After(p, steps);
      !q.quit && q.queue == [] && Descriptors(q.taken) == q.accepted == p.accepted
    decreases |p.queue|
  {
    hide After, Next;
    steps := [];
    if p.queue == [] {
      AfterCons(p, Lock(i), []);
      assert Descriptors(p.taken) + [] == Descriptors(p.taken);
    } else {
      var first := TakesNext(p, i);
      var q := After(p, first);
      assert Descriptors(q.taken) == Descriptors(p.taken) + [p.queue[0]];
      assert p.queue == [p.queue[0]] + p.queue[1..];
      var more := TakesAll(q, i);
      AfterConcat(p, first, more);
      steps := first + more;
    }
  }

  /** From every reachable state that has not quit, the steps of a single worker, with no signal from outside, are
      enough for everything accepted so far to be taken. */
  lemma AllCanBeServed(nthreads: nat, steps: seq<Step>) returns (i: nat, more: seq<Step>)
    requires nthreads > 0 && !Run(nthreads, steps).quit
    ensures forall s <- more :: OwnStep(s, i)
    ensures
      var p, q := Run(nthreads, steps), Run(nthreads, steps + more);
      !q.quit && q.queue == [] && Descriptors(q.taken) == q.accepted == p.accepted
  {
    hide Run, Next, Accounts;
    RunKeeps(nthreads, steps);
    var p := Run(nthreads, steps);
    AccountsCount(p);
    i, more := 0, [];
    if p.queue == [] {
      AfterCons(p, Lock(i), []);
      assert Descriptors(p.taken) + [] == Descriptors(p.taken);
    } else {
      if IsAsleep(p, 0) {
        assert WokenSet(p.workers) != {};
        i :| i in WokenSet(p.workers);
      }
      more := TakesAll(p, i);
    }
    RunThen(nthreads, steps, more);
  }

  lemma AccountsCount(p: Pool)
    requires Accounts(p)
    ensures |p.counts| == |p.workers|
  {
  }

  /** In every run that has not quit, descriptors are taken in the order they were accepted, each by one worker; at
      most 31 are queued; and each worker's count is the number of descriptors it has taken and entered. */
  lemma FirstComeFirstServed(nthreads: nat, steps: seq<Step>, k: nat)
    requires !Run(nthreads, steps).quit && k < |Run(nthreads, steps).taken|
    ensures
      var p := Run(nthreads, steps);
      && |p.accepted| == |p.taken| + |p.queue| && |p.counts| == nthreads && |p.queue| <= 31
      && p.taken[k].fd == p.accepted[k] && p.taken[k].worker < nthreads
      && forall i :: 0 <= i < nthreads ==> p.counts[i] <= GivenTo(p.taken, i) <= p.counts[i] + 1
  {
    RunKeeps(nthreads, steps);
  }

  /** The server quits exactly when a descriptor is accepted while 31 are queued, and loses none before that. */
  lemma QuitsWhenFull(nthreads: nat, steps: seq<Step>, fd: int, wake: set<nat>)
    requires !Run(nthreads, steps).quit && Signal(Run(nthreads, steps), wake)
    ensures
      var p := Run(nthreads, steps);
      Next(p, Accept(fd, wake)).quit <==> |p.accepted| - |p.taken| == 31
  {
    RunKeeps(nthreads, steps);
  }

  /** The accepting thread with the mutex held: the ring takes the step of the pool. */
  method AcceptInto(ring: Ring, connfd: int, ghost p: Pool, ghost wake: set<nat>) returns (quit: bool)
    requires ring.Valid() && ring.Queue() == p.queue && !p.quit && Signal(p, wake)
    modifies ring`iput, ring.clifd
    ensures ring.Valid() && quit == Next(p, Accept(connfd, wake)).quit
    ensures !quit ==> ring.Queue() == Next(p, Accept(connfd, wake)).queue
  {
    quit := ring.Deposit(connfd);
  }

  /** Worker i with the mutex held: it waits for the condition, or takes the descriptor that the pool gives it. */
  method TakeFrom(ring: Ring, ghost p: Pool, ghost i: nat) returns (waits: bool, connfd: int)
    requires ring.Valid() && ring.Queue() == p.queue && Enabled(p, Lock(i))
    modifies ring`iget
    ensures ring.Valid() && ring.Queue() == Next(p, Lock(i)).queue
    ensures Next(p, Lock(i)).workers[i] == if waits then Asleep else Took(connfd)
  {
    waits, connfd := ring.iget == ring.iput, 0;
    if !waits {
      ghost var queue := ring.Queue();
      connfd := ring.Take();
      assert queue[1..] == ring.Queue();
    }
  }
}
