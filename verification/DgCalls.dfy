/** The loop of dg_send_recv within the protocol: a call sees the alarms and the deliveries among the steps of a
    run, while the server goes on serving, and what is proved of all runs carries over to what the call returns. */
module DgCalls {
  import opened Common
  import opened Rtt
  import opened DgSendRecv
  import opened DgProtocol

  /** Steps that can follow while a call is in progress: a datagram is delivered only when the network has it by
      then. */
  ghost predicate Feasible(before: seq<Step>, steps: seq<Step>)
    decreases |steps|
  {
    |steps| == 0
    || (!steps[0].Request? && (steps[0].Deliver? ==> steps[0].d in Run(before).toClient)
        && Feasible(before + [steps[0]], steps[1..]))
  }

  /** What the call sees of the steps. */
  function Events(steps: seq<Step>): seq<Event>
    decreases |steps|
  {
    if |steps| == 0 then []
    else
      var rest := Events(steps[1..]);
      match steps[0]
      case Alarm(now) => [Event.Alarm(now)] + rest
      case Deliver(d, now) => [Arrival(d, now)] + rest
      case _ => rest
  }

  lemma EventsUnfold(steps: seq<Step>)
    ensures |steps| == 0 ==> Events(steps) == []
    ensures |steps| > 0 && steps[0].Serve? ==> Events(steps) == Events(steps[1..])
    ensures |steps| > 0 && steps[0].Alarm? ==> Events(steps) == [Event.Alarm(steps[0].now)] + Events(steps[1..])
    ensures |steps| > 0 && steps[0].Deliver? ==>
              Events(steps) == [Arrival(steps[0].d, steps[0].now)] + Events(steps[1..])
  {
  }

  lemma RunOn(before: seq<Step>, steps: seq<Step>)
    requires |steps| > 0
    ensures Run(before + [steps[0]]) == Next(Run(before), steps[0])
    ensures before + [steps[0]] + steps[1..] == before + steps
  {
    hide Next, Run;
    RunSnoc(before, steps[0]);
  }

  /** What a call leaves in the world: its client, its datagrams and what it returned. */
  ghost predicate Result(w: World, w': World, r: CallResult, sent: seq<seq<byte>>) {
    && w'.client == r.c && (w'.phase.Waiting? <==> r.outcome.StillWaiting?)
    && |r.sent| >= |sent| && w'.toServer == w.toServer + (set d | d in r.sent[|sent|..])
    && (if r.outcome.Reply? then
          |w'.returned| == |w.returned| + 1 && w'.returned[|w.returned|].data == r.outcome.data
          && w'.returned[|w.returned|].req == |w.requests|
        else w'.returned == w.returned)
    && w'.requests == w.requests && w.toClient <= w'.toClient
  }

  /** Between calls only the server acts. */
  lemma {:induction false} IdleStays(before: seq<Step>, steps: seq<Step>)
    requires Run(before).phase.Idle? && Feasible(before, steps)
    ensures var w, w' := Run(before), Run(before + steps);
            w' == w.(toClient := w'.toClient) && w.toClient <= w'.toClient
    decreases |steps|
  {
    hide Run, Take;
    if |steps| == 0 {
      assert before + steps == before;
    } else {
      RunOn(before, steps);
      IdleStays(before + [steps[0]], steps[1..]);
    }
  }

  lemma {:induction false} AwaitExtends(c: Client, data: seq<byte>, inbytes: nat, events: seq<Event>,
                                        sent: seq<seq<byte>>, alarms: seq<int>)
    requires c.seqno < TWO_TO_THE_32
    ensures var r := Await(c, data, inbytes, events, sent, alarms); |r.sent| >= |sent| && r.sent[..|sent|] == sent
    decreases |events|
  {
    hide Outgoing, OnReply, Payload, FromWord32, Matches, Sample;
    if |events| > 0 {
      match events[0] {
        case Alarm(now) =>
          var c' := OnAlarm(c);
          if c'.inited {
            var more := sent + [Outgoing(c', now, data)];
            AwaitExtends(c', data, inbytes, events[1..], more, alarms + [Seconds(c'.est.rto)]);
            var r := Await(c', data, inbytes, events[1..], more, alarms + [Seconds(c'.est.rto)]);
            assert r.sent[..|sent|] == r.sent[..|more|][..|sent|] == sent;
          }
        case Arrival(d, now) =>
          if !Matches(c, d) {
            AwaitExtends(c, data, inbytes, events[1..], sent, alarms);
          }
      }
    }
  }

  /** The reply was accepted at step i, when the protocol made sure that it is the echo of the request under way. */
  ghost predicate AcceptedAt(before: seq<Step>, steps: seq<Step>, i: nat, r: CallResult, inbytes: nat) {
    && i < |steps| && steps[i].Deliver? && r.outcome.Reply?
    && var w := Run(before + steps[..i]);
       && w.phase == Waiting(inbytes) && |steps[i].d| >= HEADER && r.c == OnReply(w.client, steps[i].d, steps[i].now)
       && w.requests == Run(before).requests
       && TrueReply(w, steps[i].d, Returned(|w.requests|, r.outcome.data, Sample(w.client, steps[i].d, steps[i].now),
                                            steps[i].now), inbytes)
  }

  lemma AcceptedLater(before: seq<Step>, steps: seq<Step>, i: nat, r: CallResult, inbytes: nat)
    requires |steps| > 0 && Run(before + [steps[0]]).requests == Run(before).requests
    requires AcceptedAt(before + [steps[0]], steps[1..], i, r, inbytes)
    ensures AcceptedAt(before, steps, i + 1, r, inbytes)
  {
    hide Run, TrueReply, OnReply, Sample;
    assert before + [steps[0]] + steps[1..][..i] == before + steps[..i + 1];
  }

  /** From a point within a call on, the loop and the state machine stay together. */
  ghost predicate Together(before: seq<Step>, steps: seq<Step>, sent: seq<seq<byte>>, alarms: seq<int>)
    requires Run(before).phase.Waiting? && Run(before).requests != []
  {
    var w := Run(before);
    var r := Await(w.client, w.requests[|w.requests| - 1], w.phase.inbytes, Events(steps), sent, alarms);
    && Result(w, Run(before + steps), r, sent)
    && (r.outcome.Reply? && |w.requests| <= TWO_TO_THE_32 ==>
          exists i :: AcceptedAt(before, steps, i, r, w.phase.inbytes))
  }

  lemma {:induction false} AwaitInWorld(before: seq<Step>, steps: seq<Step>, sent: seq<seq<byte>>, alarms: seq<int>)
    requires Run(before).phase.Waiting? && Run(before).requests != [] && Feasible(before, steps)
    ensures Together(before, steps, sent, alarms)
    decreases |steps|
  {
    hide Outgoing, OnReply, Payload, FromWord32, Matches, Sample, Take, Wire, Timestamp, Sampled, OnAlarm, Seconds, Run,
         Together;
    var w := Run(before);
    if |steps| == 0 {
      AtEnd(before, sent, alarms);
    } else {
      RunOn(before, steps);
      var w1, on, more := Next(w, steps[0]), before + [steps[0]], steps[1..];
      if steps[0].Alarm? {
        if w1.phase.Idle? {
          AtTimeOut(before, steps, sent, alarms);
        } else {
          var d, seconds := Outgoing(w1.client, steps[0].now, w.requests[|w.requests| - 1]), Seconds(w1.client.est.rto);
          AwaitInWorld(on, more, sent + [d], alarms + [seconds]);
          AtAlarm(before, steps, sent, alarms);
        }
      } else if steps[0].Deliver? && Matches(w.client, steps[0].d) {
        AtReply(before, steps, sent, alarms);
      } else {
        AwaitInWorld(on, more, sent, alarms);
        AtOther(before, steps, sent, alarms);
      }
    }
  }

  lemma AtEnd(before: seq<Step>, sent: seq<seq<byte>>, alarms: seq<int>)
    requires Run(before).phase.Waiting? && Run(before).requests != []
    ensures Together(before, [], sent, alarms)
  {
    hide Run, Await, AcceptedAt;
    assert before + [] == before;
    EventsUnfold([]);
    NothingAwaited(Run(before), sent, alarms);
  }

  /** The fourth alarm. */
  lemma AtTimeOut(before: seq<Step>, steps: seq<Step>, sent: seq<seq<byte>>, alarms: seq<int>)
    requires Run(before).phase.Waiting? && Run(before).requests != [] && Feasible(before, steps)
    requires |steps| > 0 && steps[0].Alarm? && Next(Run(before), steps[0]).phase.Idle?
    ensures Together(before, steps, sent, alarms)
  {
    hide Run, Await, AcceptedAt, Events, Outgoing, Seconds, Matches, OnReply, Payload;
    var w := Run(before);
    RunOn(before, steps);
    EventsUnfold(steps);
    AwaitUnfold(w.client, w.requests[|w.requests| - 1], w.phase.inbytes, Event.Alarm(steps[0].now), Events(steps[1..]),
                sent, alarms);
    IdleStays(before + [steps[0]], steps[1..]);
  }

  /** An alarm that sends the request again. */
  lemma AtAlarm(before: seq<Step>, steps: seq<Step>, sent: seq<seq<byte>>, alarms: seq<int>)
    requires Run(before).phase.Waiting? && Run(before).requests != []
    requires |steps| > 0 && steps[0].Alarm? && Next(Run(before), steps[0]).phase.Waiting?
    requires
      var w1 := Next(Run(before), steps[0]);
      && Run(before + [steps[0]]) == w1 && w1.requests != []
      && Together(before + [steps[0]], steps[1..],
                  sent + [Outgoing(w1.client, steps[0].now, w1.requests[|w1.requests| - 1])],
                  alarms + [Seconds(w1.client.est.rto)])
    ensures Together(before, steps, sent, alarms)
  {
    hide Run, Await, AcceptedAt, Events, Outgoing, Seconds, Matches, OnReply, Payload;
    var w, w1 := Run(before), Next(Run(before), steps[0]);
    var d, seconds := Outgoing(w1.client, steps[0].now, w.requests[|w.requests| - 1]), Seconds(w1.client.est.rto);
    assert before + [steps[0]] + steps[1..] == before + steps;
    EventsUnfold(steps);
    AwaitUnfold(w.client, w.requests[|w.requests| - 1], w.phase.inbytes, Event.Alarm(steps[0].now), Events(steps[1..]),
                sent, alarms);
    SentFirst(w1, Events(steps[1..]), sent, d, alarms + [seconds]);
    var r := Await(w1.client, w1.requests[|w1.requests| - 1], w1.phase.inbytes, Events(steps[1..]), sent + [d],
                   alarms + [seconds]);
    Later(before, steps, r, w.phase.inbytes);
  }

  /** The reply. */
  lemma AtReply(before: seq<Step>, steps: seq<Step>, sent: seq<seq<byte>>, alarms: seq<int>)
    requires Run(before).phase.Waiting? && Run(before).requests != [] && Feasible(before, steps)
    requires |steps| > 0 && steps[0].Deliver? && Matches(Run(before).client, steps[0].d)
    ensures Together(before, steps, sent, alarms)
  {
    hide Run, Await, AcceptedAt, Events, Outgoing, Seconds, Matches, OnReply, Payload, Sample, OnAlarm, Feasible;
    var w := Run(before);
    RunOn(before, steps);
    FeasibleFirst(before, steps);
    EventsUnfold(steps);
    AwaitUnfold(w.client, w.requests[|w.requests| - 1], w.phase.inbytes, Arrival(steps[0].d, steps[0].now),
                Events(steps[1..]), sent, alarms);
    MatchesHeader(w.client, steps[0].d);
    IdleStays(before + [steps[0]], steps[1..]);
    if |w.requests| <= TWO_TO_THE_32 {
      Accepting(before, steps, sent, alarms);
    }
  }

  lemma FeasibleFirst(before: seq<Step>, steps: seq<Step>)
    requires |steps| > 0 && Feasible(before, steps)
    ensures !steps[0].Request? && (steps[0].Deliver? ==> steps[0].d in Run(before).toClient)
    ensures Feasible(before + [steps[0]], steps[1..])
  {
    hide Run;
  }

  lemma MatchesHeader(c: Client, d: seq<byte>)
    requires Matches(c, d)
    ensures |d| >= HEADER
  {
  }

  /** A datagram that is skipped, or a step of the server. */
  lemma AtOther(before: seq<Step>, steps: seq<Step>, sent: seq<seq<byte>>, alarms: seq<int>)
    requires Run(before).phase.Waiting? && Run(before).requests != []
    requires |steps| > 0 && (steps[0].Serve? || (steps[0].Deliver? && !Matches(Run(before).client, steps[0].d)))
    requires
      var w1 := Next(Run(before), steps[0]);
      Run(before + [steps[0]]) == w1 && Together(before + [steps[0]], steps[1..], sent, alarms)
    ensures Together(before, steps, sent, alarms)
  {
    hide Run, Await, AcceptedAt, Events, Outgoing, Seconds, Matches, OnReply, Payload, Take, OnAlarm;
    var w, w1 := Run(before), Next(Run(before), steps[0]);
    assert before + [steps[0]] + steps[1..] == before + steps;
    EventsUnfold(steps);
    if steps[0].Deliver? {
      AwaitUnfold(w.client, w.requests[|w.requests| - 1], w.phase.inbytes, Arrival(steps[0].d, steps[0].now),
                  Events(steps[1..]), sent, alarms);
    }
    var r := Await(w1.client, w1.requests[|w1.requests| - 1], w1.phase.inbytes, Events(steps[1..]), sent, alarms);
    Later(before, steps, r, w.phase.inbytes);
  }

  lemma NothingAwaited(w: World, sent: seq<seq<byte>>, alarms: seq<int>)
    requires w.client.seqno < TWO_TO_THE_32 && w.phase.Waiting? && w.requests != []
    ensures Await(w.client, w.requests[|w.requests| - 1], w.phase.inbytes, [], sent, alarms)
         == CallResult(w.client, StillWaiting, sent, alarms)
  {
  }

  lemma SentFirst(w: World, events: seq<Event>, sent: seq<seq<byte>>, d: seq<byte>, alarms: seq<int>)
    requires w.client.seqno < TWO_TO_THE_32 && w.phase.Waiting? && w.requests != []
    ensures
      var r := Await(w.client, w.requests[|w.requests| - 1], w.phase.inbytes, events, sent + [d], alarms);
      |r.sent| > |sent| && r.sent[|sent|..] == [d] + r.sent[|sent| + 1..]
  {
    hide Await;
    AwaitExtends(w.client, w.requests[|w.requests| - 1], w.phase.inbytes, events, sent + [d], alarms);
    var r := Await(w.client, w.requests[|w.requests| - 1], w.phase.inbytes, events, sent + [d], alarms);
    assert r.sent[|sent|] == r.sent[..|sent| + 1][|sent|] == d;
  }

  lemma Later(before: seq<Step>, steps: seq<Step>, r: CallResult, inbytes: nat)
    requires |steps| > 0 && Run(before + [steps[0]]).requests == Run(before).requests
    ensures (exists i :: AcceptedAt(before + [steps[0]], steps[1..], i, r, inbytes)) ==>
            (exists i :: AcceptedAt(before, steps, i, r, inbytes))
  {
    hide Run, AcceptedAt;
    if i :| AcceptedAt(before + [steps[0]], steps[1..], i, r, inbytes) {
      AcceptedLater(before, steps, i, r, inbytes);
    }
  }

  /** The call returns at this delivery. */
  lemma Accepting(before: seq<Step>, steps: seq<Step>, sent: seq<seq<byte>>, alarms: seq<int>)
    requires Run(before).phase.Waiting? && 0 < |Run(before).requests| <= TWO_TO_THE_32
    requires |steps| > 0 && steps[0].Deliver? && steps[0].d in Run(before).toClient
        && Matches(Run(before).client, steps[0].d)
    ensures
      var w := Run(before);
      var r := Await(w.client, w.requests[|w.requests| - 1], w.phase.inbytes, Events(steps), sent, alarms);
      AcceptedAt(before, steps, 0, r, w.phase.inbytes)
  {
    hide Run, Payload, FromWord32, Sample, Sampled, TrueReply, Inv, Events, OnReply;
    RunKeeps(before);
    EventsUnfold(steps);
    assert before + steps[..0] == before;
    ReplyIsCurrent(Run(before), steps[0].d, steps[0].now);
  }

  /** The datagram is the echo of this transmission. */
  ghost predicate AnsweredBy(w: World, d: seq<byte>, s: Sent) {
    KnownSend(w, s) && d == Take(Datagram(w, s), MAXLINE)
  }

  /** A successful call returned the echo of its own request, as far as the buffers of server and caller hold it,
      and the round trip it measured is the time, modulo 2^32 milliseconds, since the transmission whose echo it
      accepted. */
  ghost predicate Answered(before: seq<Step>, steps: seq<Step>, data: seq<byte>, inbytes: nat, r: CallResult) {
    && r.outcome.Reply? && r.outcome.data == Take(Take(data, MAXLINE - HEADER), inbytes)
    && exists i, s ::
      && 0 <= i < |steps| && steps[i].Deliver? && AnsweredBy(Run(before + steps[..i]), steps[i].d, s)
      && s.req == |Run(before).requests|
      && r.c.est.rtt == ((steps[i].now - s.at) % TWO_TO_THE_32) as real / 1000.0
  }

  /** In any run: a call made between the steps `before` and seeing the alarms and deliveries among `steps` does
      what the state machine does; and, if it is one of the first 2^32, a reply it returns answers its own request. */
  lemma CallInWorld(before: seq<Step>, data: seq<byte>, inbytes: nat, t0: nat, t1: nat, steps: seq<Step>)
    requires Run(before).phase.Idle? && Feasible(before + [Request(data, inbytes, t0, t1)], steps)
    ensures
      var sending := before + [Request(data, inbytes, t0, t1)];
      var r := Call(Run(before).client, data, inbytes, t0, t1, Events(steps));
      && Result(Run(before).(requests := Run(before).requests + [data]), Run(sending + steps), r, [])
      && (r.outcome.Reply? && |Run(before).requests| < TWO_TO_THE_32 ==> Answered(sending, steps, data, inbytes, r))
  {
    hide Outgoing, Await, Begin, Run, Events, Answered, Feasible, AcceptedAt, Seconds;
    var w, sending := Run(before), before + [Request(data, inbytes, t0, t1)];
    RunSnoc(before, Request(data, inbytes, t0, t1));
    var w1 := Next(w, Request(data, inbytes, t0, t1));
    var c' := Begin(w.client, t0);
    var d := Outgoing(c', t1, data);
    AwaitInWorld(sending, steps, [d], [Seconds(c'.est.rto)]);
    assert [] + [d] == [d];
    SentFirst(w1, Events(steps), [], d, [Seconds(c'.est.rto)]);
    var r := Call(w.client, data, inbytes, t0, t1, Events(steps));
    assert r.sent[0..] == [d] + r.sent[1..];
    if r.outcome.Reply? && |w.requests| < TWO_TO_THE_32 {
      var i :| AcceptedAt(sending, steps, i, r, inbytes);
      TrueIsAnswered(sending, steps, data, inbytes, r, i);
    }
  }

  lemma TrueIsAnswered(before: seq<Step>, steps: seq<Step>, data: seq<byte>, inbytes: nat, r: CallResult, i: nat)
    requires |Run(before).requests| > 0 && Run(before).requests[|Run(before).requests| - 1] == data
    requires AcceptedAt(before, steps, i, r, inbytes)
    ensures Answered(before, steps, data, inbytes, r)
  {
    hide Run, Datagram, Take;
    var w := Run(before + steps[..i]);
    var s :| AnsweredBy(w, steps[i].d, s) && s.req == |w.requests|
             && Sample(w.client, steps[i].d, steps[i].now) == (steps[i].now - s.at) % TWO_TO_THE_32;
    assert AnsweredBy(Run(before + steps[..i]), steps[i].d, s);
  }

  /** The server's buffer holds 4088 octets behind the header, and the caller's as many as it says. */
  lemma EchoedPart(data: seq<byte>, inbytes: nat)
    ensures Take(Take(data, MAXLINE - HEADER), inbytes) == data[..Min(Min(|data|, 4088), inbytes)]
  {
  }

  /** dg_send_recv, called on a client that is at rest after the steps `before`. */
  method CallServer(client: DgClient, data: seq<byte>, inbytes: nat, t0: nat, t1: nat, events: seq<Event>,
                    ghost before: seq<Step>, ghost steps: seq<Step>)
    returns (outcome: Outcome)
    requires client.Valid() && client.View() == Run(before).client && Run(before).phase.Idle?
    requires Feasible(before + [Request(data, inbytes, t0, t1)], steps) && events == Events(steps)
    modifies client, client.rttinfo
    ensures client.Valid() && client.View() == Run(before + [Request(data, inbytes, t0, t1)] + steps).client
    ensures Run(before + [Request(data, inbytes, t0, t1)] + steps).phase.Idle? <==> !outcome.StillWaiting?
    ensures outcome.Reply? && |Run(before).requests| < TWO_TO_THE_32 ==>
              outcome.data == data[..Min(Min(|data|, 4088), inbytes)]
  {
    hide Run, Call, Feasible, Events, Take;
    EchoedPart(data, inbytes);
    CallInWorld(before, data, inbytes, t0, t1, steps);
    var sent, alarms;
    outcome, sent, alarms := client.SendRecv(data, inbytes, t0, t1, events);
  }

  /** And calls do succeed: whatever has happened before, the echo of the first transmission may come straight back. */
  lemma AnswerArrives(before: seq<Step>, data: seq<byte>, inbytes: nat, t0: nat, t1: nat, now: nat)
    returns (steps: seq<Step>)
    requires Run(before).phase.Idle?
    ensures Feasible(before + [Request(data, inbytes, t0, t1)], steps)
    ensures Call(Run(before).client, data, inbytes, t0, t1, Events(steps)).outcome
         == Reply(Take(Take(data, MAXLINE - HEADER), inbytes))
  {
    hide Run, Take, Wire, FromWord32, Timestamp, Payload, Sampled, Sample;
    var sending := before + [Request(data, inbytes, t0, t1)];
    RunSnoc(before, Request(data, inbytes, t0, t1));
    var c := Run(sending).client;
    var d := Outgoing(c, t1, data);
    EchoOf(c.seqno, Timestamp(c.est.base, t1), data, inbytes);
    var echo := Take(d, MAXLINE);
    steps := [Serve(d), Deliver(echo, now)];
    RunSnoc(sending, Serve(d));
    assert steps[1..] == [Deliver(echo, now)] && [Deliver(echo, now)][1..] == [];
    assert Feasible(sending + [Serve(d)] + [Deliver(echo, now)], []);
    assert Feasible(sending + [Serve(d)], [Deliver(echo, now)]);
    EventsUnfold(steps);
    EventsUnfold(steps[1..]);
    EventsUnfold([]);
    assert Events(steps) == [Arrival(echo, now)];
  }

  /** Between calls the estimators are sane, and within one they are not negative. */
  ghost predicate Steady(w: World) {
    && w.client.seqno < TWO_TO_THE_32
    && (w.phase.Idle? ==> Quiet(w.client))
    && (w.client.inited ==> 0.0 <= w.client.est.srtt && 0.0 <= w.client.est.rttvar)
  }

  lemma StepSteady(w: World, step: Step)
    requires Steady(w) && (w.phase.Waiting? ==> w.requests != [] && w.client.inited)
    ensures Steady(Next(w, step))
  {
    hide Wire, Timestamp, Take, FromWord32, Payload, Outgoing;
  }

  lemma {:induction false} RunSteady(steps: seq<Step>)
    ensures Steady(Run(steps))
  {
    if steps != [] {
      hide Next, Steady, Inv;
      RunSteady(steps[..|steps| - 1]);
      RunKeeps(steps[..|steps| - 1]);
      WaitingMeans(Run(steps[..|steps| - 1]));
      StepSteady(Run(steps[..|steps| - 1]), steps[|steps| - 1]);
    }
  }

  lemma WaitingMeans(w: World)
    requires Inv(w)
    ensures w.phase.Waiting? ==> w.requests != [] && w.client.inited
  {
  }

  /** In every run, whatever has happened before: a call makes at most four transmissions, all of its own request,
      gives up only after the fourth, and sets only alarms of two seconds or more that total at most 900. */
  lemma CallsBounded(before: seq<Step>, data: seq<byte>, inbytes: nat, t0: nat, t1: nat, events: seq<Event>)
    requires Run(before).phase.Idle?
    ensures
      var r := Call(Run(before).client, data, inbytes, t0, t1, events);
      && 1 <= |r.sent| == |r.alarms| <= 4 && (r.outcome.TimedOut? ==> |r.sent| == 4)
      && (forall x :: x in r.alarms ==> 2 <= x) && Sum(r.alarms) <= 900
      && r.c.seqno == (Run(before).client.seqno + 1) % TWO_TO_THE_32
      && (forall d :: d in r.sent ==> Carries(d, r.c.seqno, data))
  {
    hide Run, Call, Carries, Sum;
    RunSteady(before);
    CallBounded(Run(before).client, data, inbytes, t0, t1, events);
  }
}
