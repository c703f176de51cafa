/** dg_send_recv: one reliable request and reply over UDP, and the protocol it makes with the echo server. */
module DgSendRecv {
  import opened Common
  import opened Rtt

  const HEADER: nat := 8

  /** A uint32_t as it lies in memory. */
  function Word32(x: nat): (b: seq<byte>)
    requires x < TWO_TO_THE_32
    ensures |b| == 4
  {
    var y := x / 256;
    var z := y / 256;
    [x % 256, y % 256, z % 256, z / 256]
  }

  function FromWord32(b: seq<byte>): (x: nat)
    requires |b| == 4
    ensures x < TWO_TO_THE_32
  {
    b[0] as int + 256 * (b[1] as int + 256 * (b[2] as int + 256 * b[3] as int))
  }

  lemma Word32RoundTrip(x: nat)
    requires x < TWO_TO_THE_32
    ensures FromWord32(Word32(x)) == x
  {
  }

  /** struct hdr and the caller's data, gathered by sendmsg. */
  function Wire(seqno: nat, ts: nat, data: seq<byte>): seq<byte>
    requires seqno < TWO_TO_THE_32 && ts < TWO_TO_THE_32
  {
    Word32(seqno) + Word32(ts) + data
  }

  function Take(d: seq<byte>, n: nat): seq<byte> {
    if |d| <= n then d else d[..n]
  }

  /** The static state that survives from one call to the next. */
  datatype Client = Client(inited: bool, est: Estimator, seqno: nat)

  /** What holds between calls: once initialised, the estimators are sane. */
  ghost predicate Quiet(c: Client) {
    c.seqno < TWO_TO_THE_32 && (c.inited ==> Sane(c.est))
  }

  /** The state in which a request is first sent. */
  function Begin(c: Client, now: nat): Client {
    Client(true, (if c.inited then c.est else Initial(now)).(nrexmt := 0), (c.seqno + 1) % TWO_TO_THE_32)
  }

  /** The datagram sent, or sent again, at time now. */
  function Outgoing(c: Client, now: nat, data: seq<byte>): seq<byte>
    requires c.seqno < TWO_TO_THE_32
  {
    Wire(c.seqno, Timestamp(c.est.base, now), data)
  }

  function OnAlarm(c: Client): Client {
    c.(est := c.est.(rto := 2.0 * c.est.rto, nrexmt := c.est.nrexmt + 1), inited := c.est.nrexmt < MAXNREXMT)
  }

  /** Is the datagram the reply that is being waited for? */
  predicate Matches(c: Client, d: seq<byte>) {
    |d| >= HEADER && FromWord32(d[..4]) == c.seqno
  }

  /** What recvmsg scatters into the caller's buffer of the given size. */
  function Payload(d: seq<byte>, inbytes: nat): seq<byte>
    requires |d| >= HEADER
  {
    Take(d, HEADER + inbytes)[HEADER..]
  }

  function Sample(c: Client, d: seq<byte>, now: nat): nat
    requires |d| >= HEADER
  {
    (Timestamp(c.est.base, now) - FromWord32(d[4..8])) % TWO_TO_THE_32
  }

  function OnReply(c: Client, d: seq<byte>, now: nat): Client
    requires |d| >= HEADER
  {
    c.(est := Sampled(c.est, Sample(c, d, now)))
  }

  /** What can interrupt or complete recvmsg: the alarm, or a datagram; with the time at which it happens. */
  datatype Event = Alarm(now: nat) | Arrival(d: seq<byte>, now: nat)

  datatype Outcome = Reply(data: seq<byte>) | TimedOut | StillWaiting

  /** A call's result: the state left behind, what it returned, the datagrams sent and the alarms set. */
  datatype CallResult = CallResult(c: Client, outcome: Outcome, sent: seq<seq<byte>>, alarms: seq<int>)

  /** Whole seconds nearest to the time-out. */
  function Seconds(rto: real): int {
    (rto + 0.5).Floor
  }

  /** What a call that has sent `sent` and set `alarms` does with a schedule of events. */
  function Await(c: Client, data: seq<byte>, inbytes: nat, events: seq<Event>,
                 sent: seq<seq<byte>>, alarms: seq<int>): CallResult
    requires c.seqno < TWO_TO_THE_32
    decreases |events|
  {
    if events == [] then CallResult(c, StillWaiting, sent, alarms)
    else
      match events[0]
      case Alarm(now) =>
        var c' := OnAlarm(c);
        if !c'.inited then CallResult(c', TimedOut, sent, alarms)
        else Await(c', data, inbytes, events[1..], sent + [Outgoing(c', now, data)], alarms + [Seconds(c'.est.rto)])
      case Arrival(d, now) =>
        if Matches(c, d) then CallResult(OnReply(c, d, now), Reply(Payload(d, inbytes)), sent, alarms)
        else Await(c, data, inbytes, events[1..], sent, alarms)
  }

  function Call(c: Client, data: seq<byte>, inbytes: nat, t0: nat, t1: nat, events: seq<Event>): CallResult {
    var c' := Begin(c, t0);
    Await(c', data, inbytes, events, [Outgoing(c', t1, data)], [Seconds(c'.est.rto)])
  }

  lemma AwaitUnfold(c: Client, data: seq<byte>, inbytes: nat, e: Event, events: seq<Event>,
                    sent: seq<seq<byte>>, alarms: seq<int>)
    requires c.seqno < TWO_TO_THE_32
    ensures e.Alarm? ==>
      var c' := OnAlarm(c);
      Await(c, data, inbytes, [e] + events, sent, alarms) ==
      if !c'.inited then CallResult(c', TimedOut, sent, alarms)
      else Await(c', data, inbytes, events, sent + [Outgoing(c', e.now, data)], alarms + [Seconds(c'.est.rto)])
    ensures e.Arrival? ==>
      Await(c, data, inbytes, [e] + events, sent, alarms) ==
      if Matches(c, e.d) then CallResult(OnReply(c, e.d, e.now), Reply(Payload(e.d, inbytes)), sent, alarms)
      else Await(c, data, inbytes, events, sent, alarms)
  {
    hide Outgoing, OnReply, Payload, FromWord32, Matches, Seconds;
    assert ([e] + events)[1..] == events;
  }

  lemma CallUnfold(c: Client, data: seq<byte>, inbytes: nat, t0: nat, t1: nat, events: seq<Event>)
    ensures
      var c' := Begin(c, t0);
      Call(c, data, inbytes, t0, t1, events)
      == Await(c', data, inbytes, events, [Outgoing(c', t1, data)], [Seconds(c'.est.rto)])
  {
    hide Begin, Outgoing, Await;
  }

  lemma WaitingStill(c: Client, data: seq<byte>, inbytes: nat, sent: seq<seq<byte>>, alarms: seq<int>)
    requires c.seqno < TWO_TO_THE_32
    ensures Await(c, data, inbytes, [], sent, alarms) == CallResult(c, StillWaiting, sent, alarms)
  {
  }

  lemma PayloadIs(d: seq<byte>, inbytes: nat, n: nat)
    requires n == if |d| <= HEADER + inbytes then |d| else HEADER + inbytes
    ensures n >= HEADER <==> |d| >= HEADER
    ensures n >= HEADER ==> Payload(d, inbytes) == d[HEADER..n]
  {
  }

  /** The caller's side of the connection: rttinfo, rttinit and sendhdr of dg_send_recv.c. */
  class DgClient {
    const rttinfo: RttInfo
    var rttinit: bool
    var sendSeq: nat

    constructor ()
      ensures Valid() && !rttinit && sendSeq == 0 && fresh(rttinfo)
    {
      rttinfo := new RttInfo();
      rttinit, sendSeq := false, 0;
    }

    ghost predicate Valid()
      reads this
    {
      sendSeq < TWO_TO_THE_32
    }

    ghost function View(): Client
      reads this, rttinfo
    {
      Client(rttinit, rttinfo.View(), sendSeq)
    }

    /** dg_send_recv, with its time-outs, retransmissions and skipped replies. */
    method SendRecv(data: seq<byte>, inbytes: nat, t0: nat, t1: nat, events: seq<Event>)
      returns (outcome: Outcome, sent: seq<seq<byte>>, alarms: seq<int>)
      requires Valid()
      modifies this, rttinfo
      ensures Valid()
      ensures CallResult(View(), outcome, sent, alarms) == Call(old(View()), data, inbytes, t0, t1, events)
    {
      hide FromWord32, Wire, Timestamp, Sampled, Call, Await, Payload;
      ghost var was := View();
      CallUnfold(was, data, inbytes, t0, t1, events);
      if !rttinit {
        rttinfo.Init(t0);
        rttinit := true;
      }
      sendSeq := (sendSeq + 1) % TWO_TO_THE_32;
      rttinfo.NewPack();
      assert View() == Begin(was, t0);
      var ts := rttinfo.Ts(t1);
      var seconds := rttinfo.Start();
      sent, alarms := [Wire(sendSeq, ts, data)], [seconds];
      var i := 0;
      assert events[0..] == events;
      while i < |events|
        invariant 0 <= i <= |events| && Valid() && rttinit
        invariant Call(was, data, inbytes, t0, t1, events)
               == Await(View(), data, inbytes, events[i..], sent, alarms)
      {
        ghost var c := View();
        assert events[i..] == [events[i]] + events[i + 1..];
        AwaitUnfold(c, data, inbytes, events[i], events[i + 1..], sent, alarms);
        match events[i] {
          case Alarm(now) =>
            var rc := rttinfo.Timeout();
            if rc < 0 {
              rttinit := false;
              assert View() == OnAlarm(c);
              return TimedOut, sent, alarms;
            }
            assert View() == OnAlarm(c);
            ts := rttinfo.Ts(now);
            seconds := rttinfo.Start();
            sent, alarms := sent + [Wire(sendSeq, ts, data)], alarms + [seconds];
          case Arrival(d, now) =>
            var n := if |d| <= HEADER + inbytes then |d| else HEADER + inbytes;
            PayloadIs(d, inbytes, n);
            if !(n < HEADER || FromWord32(d[..4]) != sendSeq) {
              ts := rttinfo.Ts(now);
              rttinfo.Stop((ts - FromWord32(d[4..8])) % TWO_TO_THE_32);
              assert View() == OnReply(c, d, now);
              assert Matches(c, d) && d[HEADER..n] == Payload(d, inbytes);
              return Reply(d[HEADER..n]), sent, alarms;
            }
        }
        i := i + 1;
      }
      assert events[i..] == [];
      WaitingStill(View(), data, inbytes, sent, alarms);
      outcome := StillWaiting;
    }
  }

  function Sum(xs: seq<int>): int {
    if xs == [] then 0 else Sum(xs[..|xs| - 1]) + xs[|xs| - 1]
  }

  lemma SumSnoc(xs: seq<int>, x: int)
    ensures Sum(xs + [x]) == Sum(xs) + x
  {
    assert (xs + [x])[..|xs|] == xs;
  }

  function Doubled(k: nat): int {
    if k == 0 then 1 else 2 * Doubled(k - 1)
  }

  /** A time-out after k doublings. */
  function Backoff(k: nat, rto: real): real {
    if k == 0 then rto else 2.0 * Backoff(k - 1, rto)
  }

  /** A datagram that carries the current request: its sequence number and its data, under some time stamp. */
  ghost predicate Carries(d: seq<byte>, seqno: nat, data: seq<byte>)
    requires seqno < TWO_TO_THE_32
  {
    exists ts :: 0 <= ts < TWO_TO_THE_32 && d == Wire(seqno, ts, data)
  }

  /** A call in progress: so many transmissions, each with its alarm, and a time-out doubled that often. */
  ghost predicate Trying(c: Client, data: seq<byte>, sent: seq<seq<byte>>, alarms: seq<int>, rto0: real) {
    var k := c.est.nrexmt;
    && c.seqno < TWO_TO_THE_32 && k <= MAXNREXMT && c.inited
    && |sent| == |alarms| == k + 1
    && 0.0 <= c.est.srtt && 0.0 <= c.est.rttvar
    && RXTMIN <= rto0 <= RXTMAX && c.est.rto == Backoff(k, rto0)
    && (forall x :: x in alarms ==> 2 <= x)
    && Sum(alarms) <= 60 * (2 * Doubled(k) - 1)
    && (forall d :: d in sent ==> Carries(d, c.seqno, data))
  }

  lemma SecondsInRange(rto0: real, k: nat)
    requires RXTMIN <= rto0 <= RXTMAX && k <= MAXNREXMT
    ensures 2 <= Seconds(Backoff(k, rto0)) <= 60 * Doubled(k)
  {
    assert Doubled(0) == 1 && Doubled(1) == 2 && Doubled(2) == 4 && Doubled(3) == 8;
    assert Backoff(0, rto0) == rto0 && Backoff(2, rto0) == 4.0 * rto0 && Backoff(3, rto0) == 8.0 * rto0;
  }

  lemma {:induction false} AwaitBounded(c: Client, data: seq<byte>, inbytes: nat, events: seq<Event>,
                                        sent: seq<seq<byte>>, alarms: seq<int>, rto0: real)
    requires Trying(c, data, sent, alarms, rto0)
    ensures
      var r := Await(c, data, inbytes, events, sent, alarms);
      && |sent| <= |r.sent| == |r.alarms| <= 4 && (r.outcome.TimedOut? ==> |r.sent| == 4)
      && (forall x :: x in r.alarms ==> 2 <= x) && Sum(r.alarms) <= 900
      && (forall d :: d in r.sent ==> Carries(d, c.seqno, data))
      && (r.outcome.StillWaiting? || Quiet(r.c)) && r.c.seqno == c.seqno
    decreases |events|
  {
    hide Wire, Timestamp, FromWord32, Payload;
    assert Doubled(0) == 1 && Doubled(1) == 2 && Doubled(2) == 4 && Doubled(3) == 8;
    if events != [] {
      match events[0] {
        case Alarm(now) =>
          var c' := OnAlarm(c);
          if c'.inited {
            var k := c'.est.nrexmt;
            SecondsInRange(rto0, k);
            SumSnoc(alarms, Seconds(c'.est.rto));
            assert Carries(Outgoing(c', now, data), c'.seqno, data);
            AwaitBounded(c', data, inbytes, events[1..], sent + [Outgoing(c', now, data)],
                         alarms + [Seconds(c'.est.rto)], rto0);
          }
        case Arrival(d, now) =>
          if !Matches(c, d) {
            AwaitBounded(c, data, inbytes, events[1..], sent, alarms, rto0);
          }
      }
    }
  }

  /** However replies, losses and alarms fall, one call makes at most four transmissions, all of the same request, gives
      up only after the fourth, sets only positive alarms and waits at most 900 seconds; and a call that has returned
      leaves a time-out between 2 and 60 seconds for the next one. */
  lemma CallBounded(c: Client, data: seq<byte>, inbytes: nat, t0: nat, t1: nat, events: seq<Event>)
    requires Quiet(c)
    ensures
      var r := Call(c, data, inbytes, t0, t1, events);
      && 1 <= |r.sent| == |r.alarms| <= 4 && (r.outcome.TimedOut? ==> |r.sent| == 4)
      && (forall x :: x in r.alarms ==> 2 <= x) && Sum(r.alarms) <= 900
      && r.c.seqno == (c.seqno + 1) % TWO_TO_THE_32
      && (forall d :: d in r.sent ==> Carries(d, r.c.seqno, data))
      && (r.outcome.StillWaiting? || Quiet(r.c))
  {
    hide Trying, Wire, Timestamp, Await, Begin, Seconds, Carries, Sum;
    var c' := Begin(c, t0);
    BeginTrying(c, data, t0, t1);
    AwaitBounded(c', data, inbytes, events, [Outgoing(c', t1, data)], [Seconds(c'.est.rto)], c'.est.rto);
  }

  lemma BeginTrying(c: Client, data: seq<byte>, t0: nat, t1: nat)
    requires Quiet(c)
    ensures
      var c' := Begin(c, t0);
      && Trying(c', data, [Outgoing(c', t1, data)], [Seconds(c'.est.rto)], c'.est.rto)
      && c'.seqno == (c.seqno + 1) % TWO_TO_THE_32
  {
    hide Wire, Timestamp, Seconds, Sum, Backoff;
    var c' := Begin(c, t0);
    var d, seconds := Outgoing(c', t1, data), Seconds(c'.est.rto);
    FirstAlarm(c'.est.rto);
    assert Carries(d, c'.seqno, data);
  }

  lemma FirstAlarm(rto: real)
    requires RXTMIN <= rto <= RXTMAX
    ensures Backoff(0, rto) == rto && 2 <= Seconds(rto) && Sum([Seconds(rto)]) == Seconds(rto) <= 60 && Doubled(0) == 1
  {
    SecondsInRange(rto, 0);
    SumSnoc([], Seconds(rto));
    assert [] + [Seconds(rto)] == [Seconds(rto)];
  }

  // ----- the estimators and the alarms of a call -----

  /** The estimators a call begins with: those of the last call, or the initial ones on the first call and after giving
      up. */
  function Before(c: Client): (real, real, real) {
    if c.inited then (c.est.srtt, c.est.rttvar, c.est.rto) else (0.0, 0.75, 3.0)
  }

  /** The k-th alarm is the nearest whole number of seconds to the time-out, doubled k times. */
  ghost predicate AlarmsDouble(alarms: seq<int>, rto: real) {
    forall k :: 0 <= k < |alarms| && k < 4 ==>
      alarms[k] as real - 0.5 <= [1.0, 2.0, 4.0, 8.0][k] * rto < alarms[k] as real + 0.5
  }

  /** A reply makes one sample of what the call began with. */
  ghost predicate OneSampleFrom(e: Estimator, srtt: real, rttvar: real) {
    && 0.0 <= e.rtt && e.srtt == srtt + (e.rtt - srtt) / 8.0
    && e.rttvar == rttvar + ((if e.rtt < srtt then srtt - e.rtt else e.rtt - srtt) - rttvar) / 4.0
    && TimeoutFits(e)
  }

  /** A call in progress, of which the estimators have not changed but for the doubled time-out. */
  ghost predicate Unsampled(c: Client, alarms: seq<int>, srtt: real, rttvar: real, rto: real) {
    && c.seqno < TWO_TO_THE_32 && c.inited && c.est.nrexmt <= MAXNREXMT && |alarms| == c.est.nrexmt + 1
    && c.est.srtt == srtt && c.est.rttvar == rttvar
    && c.est.rto == [1.0, 2.0, 4.0, 8.0][c.est.nrexmt] * rto && AlarmsDouble(alarms, rto)
  }

  /** What a call leaves of the estimators. */
  ghost predicate Estimates(r: CallResult, srtt: real, rttvar: real, rto: real) {
    && AlarmsDouble(r.alarms, rto)
    && (r.outcome.Reply? ==> r.c.inited && OneSampleFrom(r.c.est, srtt, rttvar))
    && (r.outcome.TimedOut? ==> !r.c.inited)
  }

  lemma MoreAlarms(alarms: seq<int>, rto: real)
    requires AlarmsDouble(alarms, rto) && |alarms| < 4
    ensures AlarmsDouble(alarms + [Seconds([1.0, 2.0, 4.0, 8.0][|alarms|] * rto)], rto)
  {
  }

  lemma SampledOnce(e: Estimator, ms: nat)
    ensures OneSampleFrom(Sampled(e, ms), e.srtt, e.rttvar)
  {
  }

  lemma DoubledAgain(c: Client, alarms: seq<int>, srtt: real, rttvar: real, rto: real)
    requires Unsampled(c, alarms, srtt, rttvar, rto)
    ensures var c' := OnAlarm(c); c'.inited ==> Unsampled(c', alarms + [Seconds(c'.est.rto)], srtt, rttvar, rto)
  {
    hide AlarmsDouble, Seconds;
    if c.est.nrexmt < MAXNREXMT {
      MoreAlarms(alarms, rto);
    }
  }

  lemma {:induction false} AwaitEstimates(c: Client, data: seq<byte>, inbytes: nat, events: seq<Event>,
                                          sent: seq<seq<byte>>, alarms: seq<int>, srtt: real, rttvar: real, rto: real)
    requires Unsampled(c, alarms, srtt, rttvar, rto)
    ensures Estimates(Await(c, data, inbytes, events, sent, alarms), srtt, rttvar, rto)
    decreases |events|
  {
    hide Wire, Timestamp, FromWord32, Payload, AlarmsDouble, OneSampleFrom, Sampled, Seconds;
    if events != [] {
      match events[0] {
        case Alarm(now) =>
          var c' := OnAlarm(c);
          DoubledAgain(c, alarms, srtt, rttvar, rto);
          if c'.inited {
            AwaitEstimates(c', data, inbytes, events[1..], sent + [Outgoing(c', now, data)],
                           alarms + [Seconds(c'.est.rto)], srtt, rttvar, rto);
          }
        case Arrival(d, now) =>
          if Matches(c, d) {
            SampledOnce(c.est, Sample(c, d, now));
          } else {
            AwaitEstimates(c, data, inbytes, events[1..], sent, alarms, srtt, rttvar, rto);
          }
      }
    }
  }

  /** The estimators survive from call to call: each call starts from what the last one left, its alarms follow the
      time-out it found and double, and a reply moves mean and deviation by one sample. Only a call that gives up makes
      the next one start anew. */
  lemma CallEstimates(c: Client, data: seq<byte>, inbytes: nat, t0: nat, t1: nat, events: seq<Event>)
    ensures
      var r := Call(c, data, inbytes, t0, t1, events);
      var (srtt, rttvar, rto) := Before(c);
      && AlarmsDouble(r.alarms, rto)
      && (r.outcome.Reply? ==> r.c.inited && OneSampleFrom(r.c.est, srtt, rttvar))
      && (r.outcome.TimedOut? ==> !r.c.inited)
  {
    hide Await, Wire, Timestamp, AlarmsDouble, OneSampleFrom, Seconds;
    var c' := Begin(c, t0);
    var (srtt, rttvar, rto) := Before(c);
    NoAlarms(rto);
    MoreAlarms([], rto);
    assert 1.0 * rto == rto && [] + [Seconds(rto)] == [Seconds(rto)];
    AwaitEstimates(c', data, inbytes, events, [Outgoing(c', t1, data)], [Seconds(c'.est.rto)], srtt, rttvar, rto);
  }

  lemma NoAlarms(rto: real)
    ensures AlarmsDouble([], rto)
  {
  }
}
