/** The signal-driven UDP echo server of dgecho01.c: a ring of datagrams filled by the SIGIO handler and emptied by the
    main loop, which blocks SIGIO only around its test and its decrement of nqueue. */
module SigioEcho {
  import opened Common

  const QSIZE: nat := 8
  const MAXDG: nat := 4096

  /** A datagram with its sender's address. */
  datatype Datagram = Datagram(data: seq<byte>, sa: seq<byte>)

  /** A queue element: the datagram, and the length dg_salen that recvfrom updates. */
  datatype DG = DG(data: seq<byte>, sa: seq<byte>, salen: nat)

  /** The variables shared by the handler and the main loop. */
  datatype Shared = Shared(dg: seq<DG>, iget: nat, iput: nat, nqueue: nat, cntread: seq<nat>)

  ghost predicate Shaped(q: Shared) {
    |q.dg| == QSIZE && q.iput < QSIZE && q.iget < QSIZE && q.nqueue <= QSIZE && |q.cntread| == QSIZE + 1
  }

  /** As much of a datagram as fits a queue element. */
  function Cut(d: Datagram): Datagram {
    if |d.data| <= MAXDG then d else Datagram(d.data[..MAXDG], d.sa)
  }

  function Stored(d: Datagram): DG {
    DG(Cut(d).data, d.sa, |d.sa|)
  }

  /** The slot of the oldest queued datagram. */
  function Oldest(q: Shared): (i: nat)
    requires q.iput < QSIZE && q.nqueue <= QSIZE
    ensures i < QSIZE
  {
    (q.iput + QSIZE - q.nqueue) % QSIZE
  }

  /** The queued datagrams, oldest first. */
  function Queue(q: Shared): (r: seq<DG>)
    requires Shaped(q)
    ensures |r| == q.nqueue
  {
    Span(q.dg, Oldest(q), q.nqueue)
  }

  /** n slots from the one at o on, around the ring. */
  function Span(dg: seq<DG>, o: nat, n: nat): (s: seq<DG>)
    requires |dg| == QSIZE
    ensures |s| == n && forall k :: 0 <= k < n ==> s[k] == dg[Slot(o, k)]
  {
    seq(n, k requires 0 <= k < n => dg[Slot(o, k)])
  }

  /** The slot k places after o. */
  function Slot(o: nat, k: nat): (i: nat)
    ensures i < QSIZE
  {
    (o + k) % QSIZE
  }

  function Batch(batch: seq<Datagram>): seq<DG> {
    seq(|batch|, k requires 0 <= k < |batch| => Stored(batch[k]))
  }

  /** The slot at iput follows the queued ones and, unless the queue is full, is none of them. */
  lemma FreeSlot(q: Shared)
    requires Shaped(q)
    ensures Slot(Oldest(q), q.nqueue) == q.iput
    ensures q.nqueue < QSIZE ==> forall k :: 0 <= k < q.nqueue ==> Slot(Oldest(q), k) != q.iput
    ensures q.nqueue < QSIZE ==> Oldest(q.(iput := Slot(q.iput, 1), nqueue := q.nqueue + 1)) == Oldest(q)
  {
    assert Oldest(q) == if q.nqueue <= q.iput then q.iput - q.nqueue else q.iput + QSIZE - q.nqueue;
  }

  /** Writing to the free slot leaves the queue alone; advancing iput and nqueue then appends what was written. */
  lemma WriteFree(q: Shared, x: DG)
    requires Shaped(q) && q.nqueue < QSIZE
    ensures Queue(q.(dg := q.dg[q.iput := x])) == Queue(q)
    ensures
      var q' := q.(dg := q.dg[q.iput := x], iput := Slot(q.iput, 1), nqueue := q.nqueue + 1);
      Shaped(q') && Oldest(q') == Oldest(q) && Queue(q') == Queue(q) + [x]
  {
    hide Slot, Oldest;
    var dg, o := q.dg[q.iput := x], Oldest(q);
    FreeSlot(q);
    SameOldest(q, q.(dg := dg));
    SameOldest(q.(iput := Slot(q.iput, 1), nqueue := q.nqueue + 1),
               q.(dg := dg, iput := Slot(q.iput, 1), nqueue := q.nqueue + 1));
    assert Span(dg, o, q.nqueue) == Span(q.dg, o, q.nqueue);
    assert Span(dg, o, q.nqueue + 1) == Span(q.dg, o, q.nqueue) + [x];
  }

  /** The queue after the handler has stored a datagram. */
  function Store(q: Shared, d: Datagram): Shared
    requires Shaped(q) && q.nqueue < QSIZE
  {
    q.(dg := q.dg[q.iput := Stored(d)], iput := Slot(q.iput, 1), nqueue := q.nqueue + 1)
  }

  /** The queue after the handler has stored one datagram after the other. */
  function StoreAll(q: Shared, batch: seq<Datagram>): (q': Shared)
    requires Shaped(q) && q.nqueue + |batch| <= QSIZE
    ensures Shaped(q') && q'.cntread == q.cntread
    decreases |batch|
  {
    if |batch| == 0 then q else StoreAll(Store(q, batch[0]), batch[1..])
  }

  /** Storing a batch appends it to the queue and touches no slot that was queued. */
  lemma {:induction false} StoreAllAppends(q: Shared, batch: seq<Datagram>)
    requires Shaped(q) && q.nqueue + |batch| <= QSIZE
    ensures
      var q' := StoreAll(q, batch);
      && q'.nqueue == q.nqueue + |batch| && q'.iget == q.iget && q'.cntread == q.cntread
      && Oldest(q') == Oldest(q) && Queue(q') == Queue(q) + Batch(batch)
    decreases |batch|
  {
    hide Queue, Oldest, Stored, Slot;
    if |batch| == 0 {
      assert Batch(batch) == [];
    } else {
      WriteFree(q, Stored(batch[0]));
      StoreAllAppends(Store(q, batch[0]), batch[1..]);
      assert Batch(batch) == [Stored(batch[0])] + Batch(batch[1..]);
    }
  }

  /** What a handler that does not quit leaves behind: the datagrams stored, and the free slot's address length
      reset by the last attempt to read. */
  function Handled(q: Shared, batch: seq<Datagram>, clilen: nat): (q': Shared)
    requires Shaped(q) && q.nqueue + |batch| < QSIZE
    ensures Shaped(q') && q'.cntread == q.cntread
  {
    var q1 := StoreAll(q, batch);
    q1.(dg := q1.dg[q1.iput := q1.dg[q1.iput].(salen := clilen)])
  }

  lemma HandledAppends(q: Shared, batch: seq<Datagram>, clilen: nat)
    requires Shaped(q) && q.nqueue + |batch| < QSIZE
    ensures
      var q' := Handled(q, batch, clilen);
      && Shaped(q') && q'.nqueue == q.nqueue + |batch| && q'.iget == q.iget && q'.cntread == q.cntread
      && Oldest(q') == Oldest(q) && Queue(q') == Queue(q) + Batch(batch)
  {
    hide Queue, Oldest, Stored, Slot, StoreAll;
    var q1 := StoreAll(q, batch);
    var x := q1.dg[q1.iput].(salen := clilen);
    StoreAllAppends(q, batch);
    WriteFree(q1, x);
    SameOldest(q1, q1.(dg := q1.dg[q1.iput := x]));
  }

  /** What a queue element holds of a datagram: its first 4096 octets, or all of them, and its sender. */
  lemma StoredFields(d: Datagram)
    ensures Stored(d).data == (if |d.data| <= 4096 then d.data else d.data[..4096])
    ensures Stored(d).sa == d.sa && Stored(d).salen == |d.sa|
  {
  }

  /** The k-th datagram of a batch is in the slot k places after iput, and the queued ones are where they were. */
  lemma {:induction false} StoredSlots(q: Shared, batch: seq<Datagram>)
    requires Shaped(q) && q.nqueue + |batch| <= QSIZE
    ensures
      var q' := StoreAll(q, batch);
      && q'.nqueue == q.nqueue + |batch| && q'.iput == Slot(q.iput, |batch|)
      && (forall k :: 0 <= k < |batch| ==> q'.dg[Slot(q.iput, k)] == Stored(batch[k]))
      && (forall k :: |batch| <= k < QSIZE ==> q'.dg[Slot(q.iput, k)] == q.dg[Slot(q.iput, k)])
    decreases |batch|
  {
    hide Stored, Slot;
    if |batch| == 0 {
      SlotSmall(q.iput);
    } else {
      var q1 := Store(q, batch[0]);
      StoredSlots(q1, batch[1..]);
      SlotFacts(q.iput, |batch| - 1);
      forall k | 0 <= k < QSIZE
        ensures StoreAll(q, batch).dg[Slot(q.iput, k)]
             == if k < |batch| then Stored(batch[k]) else q.dg[Slot(q.iput, k)]
      {
        SlotFacts(q.iput, if k == 0 then 7 else k - 1);
        SlotsDiffer(q.iput, k);
      }
    }
  }

  lemma SlotSmall(o: nat)
    requires o < QSIZE
    ensures Slot(o, 0) == o
  {
  }

  lemma SlotFacts(o: nat, k: nat)
    requires o < QSIZE
    ensures Slot(Slot(o, 1), k) == Slot(o, k + 1)
    ensures Slot(o, 8) == o == Slot(o, 0)
  {
  }

  lemma SlotsApart(o: nat, k: nat, n: nat)
    requires o < QSIZE && k < n <= QSIZE
    ensures n < QSIZE ==> Slot(o, k) != Slot(o, n)
  {
  }

  lemma SlotIsMod(o: nat, n: nat)
    ensures Slot(o, n) == (o + n) % 8
  {
  }

  lemma SlotsDiffer(o: nat, k: nat)
    requires o < QSIZE && k < QSIZE
    ensures Slot(o, k) == o <==> k == 0
  {
  }

  lemma HandledIs(q: Shared, batch: seq<Datagram>, clilen: nat, q1: Shared)
    requires Shaped(q) && q.nqueue + |batch| < QSIZE && StoreAll(q, batch) == q1
    ensures Shaped(q1) && Handled(q, batch, clilen) == q1.(dg := q1.dg[q1.iput := q1.dg[q1.iput].(salen := clilen)])
  {
  }

  /** The histogram of how many datagrams a signal brought. */
  function Tally(cntread: seq<nat>, nread: nat): seq<nat>
    requires nread < |cntread|
  {
    cntread[nread := cntread[nread] + 1]
  }

  /** A queue element that holds a datagram, cut to 4096 octets, with its sender. */
  predicate HoldsDatagram(x: DG, d: Datagram) {
    && x.data == (if |d.data| <= 4096 then d.data else d.data[..4096])
    && x.sa == d.sa && x.salen == |d.sa|
  }

  /** What the handler leaves behind, field by field: each datagram that it had room for is in the slot it was due, iput
      and nqueue have moved on, and the queued datagrams are still in front. A handler that returns has counted one more
      signal that brought so many datagrams. */
  ghost predicate HandlerLeaves(q: Shared, q': Shared, batch: seq<Datagram>)
    requires Shaped(q) && Shaped(q')
  {
    && q'.nqueue == Min(q.nqueue + |batch|, 8) && q'.iput == (q.iput + q'.nqueue - q.nqueue) % 8 && q'.iget == q.iget
    && (forall k :: 0 <= k < |batch| && q.nqueue + k < 8 ==> HoldsDatagram(q'.dg[(q.iput + k) % 8], batch[k]))
    && Queue(q) <= Queue(q')
    && forall i :: 0 <= i <= 8 ==>
         q'.cntread[i] == q.cntread[i] + if i == |batch| && q.nqueue + |batch| < 8 then 1 else 0
  }

  lemma SlotsHold(q: Shared, dg: seq<DG>, batch: seq<Datagram>)
    requires Shaped(q) && |dg| == QSIZE
    requires forall k :: 0 <= k < |batch| && q.nqueue + k < 8 ==> dg[Slot(q.iput, k)] == Stored(batch[k])
    ensures forall k :: 0 <= k < |batch| && q.nqueue + k < 8 ==> HoldsDatagram(dg[(q.iput + k) % 8], batch[k])
  {
    hide Stored;
    forall k | 0 <= k < |batch| && q.nqueue + k < 8
      ensures HoldsDatagram(dg[(q.iput + k) % 8], batch[k])
    {
      assert dg[Slot(q.iput, k)] == Stored(batch[k]);
      StoredFields(batch[k]);
    }
  }

  lemma HandledLeaves(q: Shared, batch: seq<Datagram>, clilen: nat)
    requires Shaped(q) && q.nqueue + |batch| < QSIZE
    ensures HandlerLeaves(q, Handled(q, batch, clilen).(cntread := Tally(q.cntread, |batch|)), batch)
  {
    hide Stored, Slot, StoreAll, Queue, Oldest, HoldsDatagram, Batch;
    var h := Handled(q, batch, clilen);
    StoredSlots(q, batch);
    HandledAppends(q, batch, clilen);
    SameQueue(h, h.(cntread := Tally(q.cntread, |batch|)));
    SlotIsMod(q.iput, |batch|);
    forall k | 0 <= k < |batch|
      ensures h.dg[Slot(q.iput, k)] == Stored(batch[k])
    {
      SlotsApart(q.iput, k, |batch|);
    }
    SlotsHold(q, h.dg, batch);
  }

  lemma FilledLeaves(q: Shared, batch: seq<Datagram>)
    requires Shaped(q) && q.nqueue + |batch| >= QSIZE
    ensures HandlerLeaves(q, StoreAll(q, batch[..QSIZE - q.nqueue]), batch)
  {
    hide Stored, Slot, StoreAll, Queue, Oldest, HoldsDatagram, Batch;
    var fit := batch[..QSIZE - q.nqueue];
    StoredSlots(q, fit);
    StoreAllAppends(q, fit);
    SlotIsMod(q.iput, |fit|);
    forall k | 0 <= k < |batch| && q.nqueue + k < 8
      ensures StoreAll(q, fit).dg[Slot(q.iput, k)] == Stored(batch[k])
    {
      assert fit[k] == batch[k];
    }
    SlotsHold(q, StoreAll(q, fit).dg, batch);
  }

  class EchoServer {
    const dg: array<DG>
    const cntread: array<nat>
    const clilen: nat
    var iget: nat
    var iput: nat
    var nqueue: nat

    ghost predicate Valid()
      reads this, dg, cntread
    {
      dg.Length == QSIZE && cntread.Length == QSIZE + 1 && Shaped(View())
    }

    ghost function View(): Shared
      reads this, dg, cntread
    {
      Shared(dg[..], iget, iput, nqueue, cntread[..])
    }

    constructor (clilen: nat)
      ensures Valid() && fresh(dg) && fresh(cntread) && Queue(View()) == [] && iget == iput == 0
    {
      dg := new DG[QSIZE](_ => DG([], [], clilen));
      cntread := new nat[QSIZE + 1](_ => 0);
      this.clilen := clilen;
      iget, iput, nqueue := 0, 0, 0;
    }

    /** sig_io: reads until the socket is empty, or quits when the queue is full before another read. The datagrams
        that recvfrom would return before EWOULDBLOCK are `batch`; one that quits has stored as many as there was
        room for. */
    method SigIo(batch: seq<Datagram>) returns (quit: bool)
      requires Valid()
      modifies this`iput, this`nqueue, dg, cntread
      ensures Valid()
      ensures quit <==> old(nqueue) + |batch| >= QSIZE
      ensures !quit ==>
        View() == Handled(old(View()), batch, clilen).(cntread := Tally(old(cntread[..]), |batch|))
      ensures quit ==> View() == StoreAll(old(View()), batch[..QSIZE - old(nqueue)])
      ensures HandlerLeaves(old(View()), View(), batch)
    {
      hide Stored, Slot, StoreAll, Queue, Oldest, Handled, HandlerLeaves;
      var nread := 0;
      ghost var q0, fit := View(), Min(|batch|, QSIZE - nqueue);
      assert batch[0..fit] == batch[..fit];
      while true
        invariant Valid() && 0 <= nread <= fit && nqueue == q0.nqueue + nread
        invariant StoreAll(View(), batch[nread..fit]) == StoreAll(q0, batch[..fit])
        decreases |batch| - nread
      {
        if nqueue >= QSIZE {
          NothingStored(View(), batch[nread..fit]);
          FilledLeaves(q0, batch);
          return true;
        }
        ghost var q := View();
        dg[iput] := dg[iput].(salen := clilen);
        if nread == |batch| {
          NothingStored(q, batch[nread..fit]);
          assert batch[..fit] == batch;
          assert View() == q.(dg := q.dg[q.iput := q.dg[q.iput].(salen := clilen)]);
          HandledIs(q0, batch, clilen, q);
          HandledLeaves(q0, batch, clilen);
          break;
        }
        dg[iput] := Stored(batch[nread]);
        nread := nread + 1;
        nqueue := nqueue + 1;
        iput := iput + 1;
        if iput >= QSIZE {
          iput := 0;
        }
        NextSlot(q.iput);
        assert View() == Store(q, batch[nread - 1]);
        StoredFirst(q, batch[nread - 1..fit]);
        assert batch[nread - 1..fit][1..] == batch[nread..fit];
      }
      ghost var q := View();
      cntread[nread] := cntread[nread] + 1;
      quit := false;
      assert View() == q.(cntread := Tally(q.cntread, |batch|));
    }

    /** The datagram that the main loop gives to Sendto: the oldest, as long as iget points at it. */
    method Send() returns (d: DG)
      requires Valid()
      ensures d == View().dg[iget]
      ensures nqueue > 0 && iget == Oldest(View()) ==> d == Queue(View())[0]
    {
      d := dg[iget];
      assert nqueue > 0 && iget == Oldest(View()) ==> Slot(Oldest(View()), 0) == iget;
    }

    /** Moves iget one slot around the ring. */
    method Advance()
      requires Valid()
      modifies this`iget
      ensures Valid() && View() == old(View()).(iget := Slot(old(iget), 1))
    {
      iget := iget + 1;
      if iget >= QSIZE {
        iget := 0;
      }
    }
  }

  lemma NothingStored(q: Shared, batch: seq<Datagram>)
    requires Shaped(q) && |batch| == 0
    ensures StoreAll(q, batch) == q
  {
  }

  lemma StoredFirst(q: Shared, batch: seq<Datagram>)
    requires Shaped(q) && |batch| > 0 && q.nqueue + |batch| <= QSIZE
    ensures StoreAll(q, batch) == StoreAll(Store(q, batch[0]), batch[1..])
  {
  }

  lemma NextSlot(i: nat)
    requires i < QSIZE
    ensures Slot(i, 1) == if i + 1 >= QSIZE then 0 else i + 1
  {
  }

  lemma SameOldest(q: Shared, q': Shared)
    requires q.iput < QSIZE && q.nqueue <= QSIZE && q'.iput == q.iput && q'.nqueue == q.nqueue
    ensures Oldest(q') == Oldest(q)
  {
  }

  lemma SameQueue(q: Shared, q': Shared)
    requires Shaped(q) && Shaped(q') && q'.dg == q.dg && q'.iput == q.iput && q'.nqueue == q.nqueue
    ensures Queue(q') == Queue(q) && Oldest(q') == Oldest(q)
  {
  }
}
