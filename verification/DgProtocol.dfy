/** The client of dg_send_recv.c, the echo server of dg_echo.c, and a network that loses, duplicates, delays and
    reorders datagrams, as one state machine. A datagram once sent may be delivered at any later time, any number of
    times, or never. */
module DgProtocol {
  import opened Common
  import opened Rtt
  import opened DgSendRecv

  /** A transmission: of which request, when, and with which rtt_base. */
  datatype Sent = Sent(req: nat, at: nat, base: nat)

  datatype Phase = Idle | Waiting(inbytes: nat)

  /** A call that has returned: for which request, what data and which round-trip sample. */
  datatype Returned = Returned(req: nat, data: seq<byte>, sample: nat, at: nat)

  datatype World = World(
    client: Client,
    phase: Phase,
    requests: seq<seq<byte>>,    // the data of every request so far; request k is requests[k - 1]
    sends: set<Sent>,            // every transmission so far
    toServer: set<seq<byte>>,    // datagrams the network may still deliver to the server
    toClient: set<seq<byte>>,    // and to the client
    returned: seq<Returned>
  )

  datatype Step =
    | Request(data: seq<byte>, inbytes: nat, t0: nat, t1: nat)  // dg_send_recv is called; first transmission
    | Alarm(now: nat)                                           // SIGALRM: retransmit or give up
    | Deliver(d: seq<byte>, now: nat)                           // recvmsg returns a datagram
    | Serve(d: seq<byte>)                                       // dg_echo receives a datagram and sends it back

  const Init: World := World(Client(false, Estimator(0.0, 0.0, 0.0, 0.0, 0, 0), 0), Idle, [], {}, {}, {}, [])

  /** Transmit the latest request. */
  function Transmit(w: World, now: nat): World
    requires w.client.seqno < TWO_TO_THE_32 && w.requests != []
  {
    w.(sends := w.sends + {Sent(|w.requests|, now, w.client.est.base)},
       toServer := w.toServer + {Outgoing(w.client, now, w.requests[|w.requests| - 1])})
  }

  /** One step; a step that is not enabled changes nothing. */
  function Next(w: World, s: Step): (w': World)
    requires w.client.seqno < TWO_TO_THE_32 && (w.phase.Waiting? ==> w.requests != [])
    ensures w'.client.seqno < TWO_TO_THE_32 && (w'.phase.Waiting? ==> w'.requests != [])
  {
    match s
    case Request(data, inbytes, t0, t1) =>
      if w.phase.Waiting? then w
      else Transmit(w.(client := Begin(w.client, t0), phase := Waiting(inbytes), requests := w.requests + [data]), t1)
    case Alarm(now) =>
      if w.phase.Idle? then w
      else
        var c := OnAlarm(w.client);
        if c.inited then Transmit(w.(client := c), now) else w.(client := c, phase := Idle)
    case Deliver(d, now) =>
      if w.phase.Idle? || d !in w.toClient || !Matches(w.client, d) then w
      else
        w.(client := OnReply(w.client, d, now), phase := Idle,
           returned := w.returned +
             [Returned(|w.requests|, Payload(d, w.phase.inbytes), Sample(w.client, d, now), now)])
    case Serve(d) =>
      if d !in w.toServer then w else w.(toClient := w.toClient + {Take(d, MAXLINE)})
  }

  function Run(steps: seq<Step>): (w: World)
    ensures w.client.seqno < TWO_TO_THE_32 && (w.phase.Waiting? ==> w.requests != [])
  {
    if steps == [] then Init else Next(Run(steps[..|steps| - 1]), steps[|steps| - 1])
  }

  /** The datagram that a transmission put on the wire. */
  function Datagram(w: World, s: Sent): seq<byte>
    requires 1 <= s.req <= |w.requests|
  {
    Wire(s.req % TWO_TO_THE_32, Timestamp(s.base, s.at), w.requests[s.req - 1])
  }

  ghost predicate KnownSend(w: World, s: Sent) {
    s in w.sends && 1 <= s.req <= |w.requests|
  }

  /** Where every datagram comes from, and with which base the request under way has been sent. */
  ghost predicate Inv(w: World) {
    && w.client.seqno == |w.requests| % TWO_TO_THE_32
    && (w.phase.Waiting? ==> w.requests != [] && w.client.inited)
    && (forall s :: s in w.sends ==> 1 <= s.req <= |w.requests|)
    && (forall s :: s in w.sends && w.phase.Waiting? && s.req == |w.requests| ==> s.base == w.client.est.base)
    && (forall d :: d in w.toServer ==> exists s :: KnownSend(w, s) && d == Datagram(w, s))
    && (forall d :: d in w.toClient ==> exists s :: KnownSend(w, s) && d == Take(Datagram(w, s), MAXLINE))
  }

  lemma TransmitKeeps(w: World, now: nat)
    requires Inv(w) && w.phase.Waiting?
    ensures Inv(Transmit(w, now))
  {
    hide Wire, Timestamp, Take;
    var w' := Transmit(w, now);
    var s := Sent(|w.requests|, now, w.client.est.base);
    assert KnownSend(w', s) && Datagram(w', s) == Outgoing(w.client, now, w.requests[|w.requests| - 1]);
    SameDatagrams(w, w');
  }

  /** Old datagrams keep their origin when transmissions and requests are added. */
  lemma SameDatagrams(w: World, w': World)
    requires w.sends <= w'.sends && |w.requests| <= |w'.requests| && w'.requests[..|w.requests|] == w.requests
    ensures forall s :: KnownSend(w, s) ==> KnownSend(w', s) && Datagram(w, s) == Datagram(w', s)
  {
    hide Wire, Timestamp;
    forall s | KnownSend(w, s)
      ensures KnownSend(w', s) && Datagram(w, s) == Datagram(w', s)
    {
      assert w'.requests[s.req - 1] == w'.requests[..|w.requests|][s.req - 1];
    }
  }

  lemma NextKeeps(w: World, s: Step)
    requires Inv(w)
    ensures Inv(Next(w, s))
  {
    hide Wire, Timestamp, Take, FromWord32, Sampled, Payload, Datagram;
    match s {
      case Request(data, inbytes, t0, t1) =>
        if w.phase.Idle? {
          var w1 := w.(client := Begin(w.client, t0), phase := Waiting(inbytes), requests := w.requests + [data]);
          SameDatagrams(w, w1);
          TransmitKeeps(w1, t1);
        }
      case Alarm(now) =>
        if w.phase.Waiting? {
          var w1 := w.(client := OnAlarm(w.client));
          SameDatagrams(w, w1);
          SameDatagrams(w, w1.(phase := Idle));
          if w1.client.inited {
            TransmitKeeps(w1, now);
          }
        }
      case Deliver(d, now) =>
        SameDatagrams(w, Next(w, s));
      case Serve(d) =>
        SameDatagrams(w, Next(w, s));
    }
  }

  lemma {:induction false} RunKeeps(steps: seq<Step>)
    ensures Inv(Run(steps))
  {
    if steps != [] {
      RunKeeps(steps[..|steps| - 1]);
      NextKeeps(Run(steps[..|steps| - 1]), steps[|steps| - 1]);
    }
  }

  /** A transmission seen again in its echo: the header fields and the data as far as they fit. */
  lemma EchoOf(seqno: nat, ts: nat, data: seq<byte>, inbytes: nat)
    requires seqno < TWO_TO_THE_32 && ts < TWO_TO_THE_32
    ensures
      var d := Take(Wire(seqno, ts, data), MAXLINE);
      && |d| >= HEADER && FromWord32(d[..4]) == seqno && FromWord32(d[4..8]) == ts
      && Payload(d, inbytes) == Take(Take(data, MAXLINE - HEADER), inbytes)
  {
    hide FromWord32, Word32;
    Word32RoundTrip(seqno);
    Word32RoundTrip(ts);
    var wire := Wire(seqno, ts, data);
    var d := Take(wire, MAXLINE);
    assert d == Word32(seqno) + (Word32(ts) + Take(data, MAXLINE - HEADER));
    assert d[..4] == Word32(seqno) && d[4..] == Word32(ts) + Take(data, MAXLINE - HEADER);
    assert d[4..8] == d[4..][..4] == Word32(ts) && d[8..] == d[4..][4..] == Take(data, MAXLINE - HEADER);
  }

  /** A reply is accepted exactly when it echoes a request whose number is the current one modulo 2^32. */
  lemma AcceptedWhen(w: World, s: Sent)
    requires Inv(w) && KnownSend(w, s)
    ensures Matches(w.client, Take(Datagram(w, s), MAXLINE)) <==> s.req % TWO_TO_THE_32 == |w.requests| % TWO_TO_THE_32
  {
    EchoOf(s.req % TWO_TO_THE_32, Timestamp(s.base, s.at), w.requests[s.req - 1], 0);
  }

  /** What a successful call promises: the echo of its own request, as far as the server's and the caller's buffers hold
      it, and the milliseconds, modulo 2^32, since one of its own transmissions, the one whose echo was accepted. */
  ghost predicate TrueReply(w: World, d: seq<byte>, r: Returned, inbytes: nat) {
    && 1 <= r.req == |w.requests|
    && r.data == Take(Take(w.requests[r.req - 1], MAXLINE - HEADER), inbytes)
    && (exists s ::
      && KnownSend(w, s) && s.req == r.req && d == Take(Datagram(w, s), MAXLINE)
      && r.sample == (r.at - s.at) % TWO_TO_THE_32)
  }

  /** In every run of at most 2^32 requests, whatever the network does, a call that succeeds returns the echo of the
      current request and never that of an earlier one, and feeds a true sample to the estimator. */
  lemma RepliesAreCurrent(steps: seq<Step>, d: seq<byte>, now: nat)
    requires |Run(steps).requests| <= TWO_TO_THE_32
    ensures
      var w, w' := Run(steps), Next(Run(steps), Deliver(d, now));
      w' == w ||
      (w.phase.Waiting? && |w'.returned| == |w.returned| + 1 &&
       TrueReply(w, d, w'.returned[|w.returned|], w.phase.inbytes))
  {
    RunKeeps(steps);
    var w := Run(steps);
    hide *;
    if w.phase.Waiting? && d in w.toClient && Matches(w.client, d) {
      ReplyIsCurrent(w, d, now);
    }
    DeliverResult(w, d, now);
  }

  lemma DeliverResult(w: World, d: seq<byte>, now: nat)
    requires w.client.seqno < TWO_TO_THE_32 && (w.phase.Waiting? ==> w.requests != [])
    ensures
      var w' := Next(w, Deliver(d, now));
      if w.phase.Waiting? && d in w.toClient && Matches(w.client, d) then
        w'.returned == w.returned
          + [Returned(|w.requests|, Payload(d, w.phase.inbytes), Sample(w.client, d, now), now)]
      else w' == w
  {
  }

  lemma ReplyIsCurrent(w: World, d: seq<byte>, now: nat)
    requires Inv(w) && |w.requests| <= TWO_TO_THE_32
    requires w.phase.Waiting? && d in w.toClient && Matches(w.client, d)
    ensures TrueReply(w, d, Returned(|w.requests|, Payload(d, w.phase.inbytes), Sample(w.client, d, now), now),
                      w.phase.inbytes)
  {
    hide Wire, Timestamp, Take, FromWord32, Payload;
    var s :| KnownSend(w, s) && d == Take(Datagram(w, s), MAXLINE);
    AcceptedWhen(w, s);
    SameResidue(s.req, |w.requests|);
    EchoOf(s.req % TWO_TO_THE_32, Timestamp(s.base, s.at), w.requests[s.req - 1], w.phase.inbytes);
    ElapsedTime(s.base, s.at, now);
  }

  lemma SameResidue(a: nat, b: nat)
    requires 1 <= a <= b <= TWO_TO_THE_32 && a % TWO_TO_THE_32 == b % TWO_TO_THE_32
    ensures a == b
  {
  }

  lemma RunSnoc(steps: seq<Step>, s: Step)
    ensures Run(steps + [s]) == Next(Run(steps), s)
  {
    hide Next;
    assert (steps + [s])[..|steps|] == steps;
  }

  /** A request whose replies are all lost: four alarms and the client gives up. */
  lemma GiveUp(steps: seq<Step>, data: seq<byte>) returns (more: seq<Step>)
    requires Run(steps).phase.Idle?
    ensures Run(more).phase.Idle? && Run(more).requests == Run(steps).requests + [data]
    ensures Run(steps).toClient <= Run(more).toClient
  {
    hide Run, Outgoing, Timestamp;
    more := steps + [Request(data, 1, 0, 0)];
    RunSnoc(steps, Request(data, 1, 0, 0));
    more := AlarmsUntilIdle(more, 3);
  }

  lemma {:induction false} AlarmsUntilIdle(steps: seq<Step>, left: nat) returns (more: seq<Step>)
    requires Run(steps).phase.Waiting? && left <= MAXNREXMT && Run(steps).client.est.nrexmt == MAXNREXMT - left
    ensures Run(more).phase.Idle? && Run(more).requests == Run(steps).requests
    ensures Run(steps).toClient <= Run(more).toClient
    decreases left
  {
    hide Run, Outgoing, Timestamp;
    more := steps + [Step.Alarm(0)];
    RunSnoc(steps, Step.Alarm(0));
    if left > 0 {
      more := AlarmsUntilIdle(more, left - 1);
    }
  }

  /** A run whose first request is echoed too late and whose n further requests all fail. */
  lemma {:induction false} LongRun(n: nat) returns (steps: seq<Step>)
    ensures Run(steps).phase.Idle? && |Run(steps).requests| == n + 1
    ensures Take(Wire(1, 0, [0]), MAXLINE) in Run(steps).toClient
  {
    hide Wire, Take;
    if n == 0 {
      hide Run;
      var sent := [Request([0], 1, 0, 0)];
      var served := sent + [Serve(Wire(1, 0, [0]))];
      EmptyRun();
      RunSnoc([], Request([0], 1, 0, 0));
      assert [] + [Request([0], 1, 0, 0)] == sent;
      RunSnoc(sent, Serve(Wire(1, 0, [0])));
      steps := AlarmsUntilIdle(served, 3);
    } else {
      steps := LongRun(n - 1);
      steps := GiveUp(steps, [1]);
    }
  }

  lemma EmptyRun()
    ensures Run([]) == Init
  {
  }

  /** The bound is exact: after 2^32 more requests the sequence number comes round again, and a late echo of the first
      request is returned as the answer to request 2^32 + 1. */
  lemma StaleReplyAfterWrapAround() returns (steps: seq<Step>, d: seq<byte>)
    ensures
      var w, w' := Run(steps), Next(Run(steps), Deliver(d, 0));
      && |w.requests| == TWO_TO_THE_32 + 1 && w.requests[TWO_TO_THE_32] == [1]
      && |w'.returned| == |w.returned| + 1
      && w'.returned[|w.returned|].req == TWO_TO_THE_32 + 1 && w'.returned[|w.returned|].data == [0]
  {
    hide Run, Wire, Take, FromWord32, Payload, Outgoing, Timestamp;
    var early := LongRun(TWO_TO_THE_32 - 1);
    RunKeeps(early);
    steps := early + [Request([1], 1, 0, 0)];
    RunSnoc(early, Request([1], 1, 0, 0));
    d := Take(Wire(1, 0, [0]), MAXLINE);
    EchoOf(1, 0, [0], 1);
    assert Take(Take([0], MAXLINE - HEADER), 1) == [0] by {
      TakeAll();
    }
  }

  lemma TakeAll()
    ensures Take(Take([0 as byte], MAXLINE - HEADER), 1) == [0]
  {
  }
}
