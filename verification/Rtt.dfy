/** The round-trip estimator of rtt.c, with real numbers for its floats and milliseconds for the clock. */
module Rtt {
  import opened Common

  const RXTMIN: real := 2.0
  const RXTMAX: real := 60.0
  const MAXNREXMT: nat := 3

  datatype Estimator = Estimator(rtt: real, srtt: real, rttvar: real, rto: real, nrexmt: nat, base: nat)

  function MinMax(rto: real): real {
    if rto < RXTMIN then RXTMIN else if rto > RXTMAX then RXTMAX else rto
  }

  function Abs(x: real): real {
    if x < 0.0 then -x else x
  }

  function Initial(now: nat): Estimator {
    Estimator(0.0, 0.0, 0.75, 3.0, 0, now / 1000 % TWO_TO_THE_32)
  }

  /** One sample: gain 1/8 towards the sample, gain 1/4 towards its distance from the old mean. */
  function Sampled(e: Estimator, ms: nat): Estimator {
    var rtt := ms as real / 1000.0;
    var srtt := 0.875 * e.srtt + 0.125 * rtt;
    var rttvar := 0.75 * e.rttvar + 0.25 * Abs(rtt - e.srtt);
    e.(rtt := rtt, srtt := srtt, rttvar := rttvar, rto := MinMax(srtt + 4.0 * rttvar))
  }

  /** The time-out is the mean plus four deviations, or the end of [2, 60] that this is beyond. */
  predicate TimeoutFits(e: Estimator) {
    && (2.0 <= e.srtt + 4.0 * e.rttvar <= 60.0 ==> e.rto == e.srtt + 4.0 * e.rttvar)
    && (e.srtt + 4.0 * e.rttvar < 2.0 ==> e.rto == 2.0)
    && (e.srtt + 4.0 * e.rttvar > 60.0 ==> e.rto == 60.0)
  }

  /** A 32-bit count of milliseconds since the second held in base. */
  function Timestamp(base: nat, now: nat): (ts: nat)
    ensures ts < TWO_TO_THE_32
  {
    (now - 1000 * base) % TWO_TO_THE_32
  }

  class RttInfo {
    var rtt: real
    var srtt: real
    var rttvar: real
    var rto: real
    var nrexmt: nat
    var base: nat

    /** Static storage starts out as zeros. */
    constructor ()
      ensures View() == Estimator(0.0, 0.0, 0.0, 0.0, 0, 0)
    {
      rtt, srtt, rttvar, rto, nrexmt, base := 0.0, 0.0, 0.0, 0.0, 0, 0;
    }

    ghost function View(): Estimator
      reads this
    {
      Estimator(rtt, srtt, rttvar, rto, nrexmt, base)
    }

    /** rtt_init; the number of retransmissions is left for rtt_newpack. */
    method Init(now: nat)
      modifies this
      ensures View() == Initial(now).(nrexmt := old(nrexmt))
      ensures srtt == 0.0 && rttvar == 0.75 && rto == 3.0 && base == now / 1000 % 0x1_0000_0000
    {
      base := now / 1000 % TWO_TO_THE_32;
      rtt := 0.0;
      srtt := 0.0;
      rttvar := 0.75;
      rto := MinMax(srtt + 4.0 * rttvar);
    }

    /** rtt_ts: seconds and milliseconds are scaled apart and the sum is cut to 32 bits. */
    method Ts(now: nat) returns (ts: nat)
      ensures ts == Timestamp(base, now)
    {
      assert now == now / 1000 * 1000 + now % 1000;
      ts := ((now / 1000 - base) * 1000 + now % 1000) % TWO_TO_THE_32;
    }

    /** rtt_newpack */
    method NewPack()
      modifies this
      ensures View() == old(View()).(nrexmt := 0)
    {
      nrexmt := 0;
    }

    /** rtt_start: the nearest whole number of seconds. */
    method Start() returns (seconds: int)
      ensures seconds as real - 0.5 <= rto < seconds as real + 0.5
    {
      seconds := (rto + 0.5).Floor;
    }

    /** rtt_stop: an eighth of the way to the sample, a quarter of the way to its distance from the old mean, and the
        mean plus four deviations as the time-out, if it is not below 2 or above 60 seconds. */
    method Stop(ms: nat)
      modifies this
      ensures View() == Sampled(old(View()), ms)
      ensures rtt == ms as real / 1000.0 && srtt == old(srtt) + (rtt - old(srtt)) / 8.0
      ensures rtt >= old(srtt) ==> rttvar == old(rttvar) + (rtt - old(srtt) - old(rttvar)) / 4.0
      ensures rtt <= old(srtt) ==> rttvar == old(rttvar) + (old(srtt) - rtt - old(rttvar)) / 4.0
      ensures TimeoutFits(View()) && nrexmt == old(nrexmt) && base == old(base)
    {
      rtt := ms as real / 1000.0;
      var delta := rtt - srtt;
      srtt := srtt + delta / 8.0;
      if delta < 0.0 {
        delta := -delta;
      }
      rttvar := rttvar + (delta - rttvar) / 4.0;
      rto := MinMax(srtt + 4.0 * rttvar);
    }

    /** rtt_timeout: -1 when it is time to give up. */
    method Timeout() returns (rc: int)
      modifies this
      ensures View() == old(View()).(rto := 2.0 * old(rto), nrexmt := old(nrexmt) + 1)
      ensures rc == if old(nrexmt) >= MAXNREXMT then -1 else 0
    {
      rto := rto * 2.0;
      nrexmt := nrexmt + 1;
      if nrexmt > MAXNREXMT {
        return -1;
      }
      return 0;
    }
  }

  /** The estimator after a run of samples. */
  function AfterSamples(e: Estimator, samples: seq<nat>): Estimator {
    if samples == [] then e else Sampled(AfterSamples(e, samples[..|samples| - 1]), samples[|samples| - 1])
  }

  ghost predicate Sane(e: Estimator) {
    0.0 <= e.srtt && 0.0 <= e.rttvar && RXTMIN <= e.rto <= RXTMAX
  }

  /** Every run of samples leaves non-negative estimators and a time-out between 2 and 60 seconds. Samples of at most
      limit seconds keep the mean below limit and the deviation below the larger of limit and its initial 0.75. */
  lemma {:induction false} EstimatorsBounded(now: nat, samples: seq<nat>, limit: real)
    requires forall ms :: ms in samples ==> ms as real / 1000.0 <= limit
    requires 0.0 <= limit
    ensures
      var e := AfterSamples(Initial(now), samples);
      Sane(e) && e.srtt <= limit && e.rttvar <= if limit < 0.75 then 0.75 else limit
  {
    if samples != [] {
      var front, last := samples[..|samples| - 1], samples[|samples| - 1];
      assert last in samples && forall ms :: ms in front ==> ms in samples;
      EstimatorsBounded(now, front, limit);
    }
  }

  /** A sample leaves seven eighths of the error of the mean. */
  lemma OneSample(e: Estimator, ms: nat)
    ensures Sampled(e, ms).srtt - ms as real / 1000.0 == 0.875 * (e.srtt - ms as real / 1000.0)
  {
  }

  lemma Scaled(k: real, p: real, error: real)
    ensures k * (p * error) == (k * p) * error
  {
  }

  function Power(x: real, n: nat): real {
    if n == 0 then 1.0 else x * Power(x, n - 1)
  }

  /** n samples of the same round trip. */
  function Steady(ms: nat, n: nat): seq<nat> {
    seq(n, _ => ms)
  }

  /** A steady round trip is approached geometrically: each sample leaves seven eighths of the error. */
  lemma {:induction false} MeanConverges(e: Estimator, ms: nat, n: nat)
    ensures AfterSamples(e, Steady(ms, n)).srtt - ms as real / 1000.0
         == Power(0.875, n) * (e.srtt - ms as real / 1000.0)
  {
    hide Sampled;
    if n > 0 {
      var s := Steady(ms, n);
      assert s[..|s| - 1] == Steady(ms, n - 1);
      MeanConverges(e, ms, n - 1);
      var error, p := e.srtt - ms as real / 1000.0, Power(0.875, n - 1);
      OneSample(AfterSamples(e, s[..|s| - 1]), ms);
      Scaled(0.875, p, error);
    }
  }

  /** After every run of samples the time-out is the mean plus four deviations, cut to [2, 60] seconds; and a sample
      moves the mean by an eighth of its distance, and the deviation by a quarter of what it differs from that. */
  lemma SampleLaws(now: nat, samples: seq<nat>, ms: nat)
    ensures
      var e := AfterSamples(Initial(now), samples);
      var e' := AfterSamples(Initial(now), samples + [ms]);
      var r := ms as real / 1000.0;
      && TimeoutFits(e) && TimeoutFits(e')
      && e'.srtt - e.srtt == (r - e.srtt) / 8.0
      && e'.rttvar - e.rttvar == ((if r < e.srtt then e.srtt - r else r - e.srtt) - e.rttvar) / 4.0
  {
    assert (samples + [ms])[..|samples|] == samples;
  }

  /** What is left of a deviation v after n samples of a steady round trip, when the mean was off by d. */
  function Deviation(v: real, d: real, n: nat): real {
    Power(0.75, n) * v + 2.0 * (Power(0.875, n) * d) - 2.0 * (Power(0.75, n) * d)
  }

  lemma DeviationNext(v: real, d: real, n: nat)
    requires n > 0
    ensures Deviation(v, d, n) == 0.75 * Deviation(v, d, n - 1) + 0.25 * (Power(0.875, n - 1) * d)
  {
    hide Power;
    PowerTimes(0.75, n, v);
    PowerTimes(0.75, n, d);
    PowerTimes(0.875, n, d);
  }

  lemma DeviationAtFirst(v: real, d: real)
    ensures Deviation(v, d, 0) == v
  {
  }

  /** Under a steady round trip the deviation forgets a quarter of its value with every sample, and follows the error of
      the mean: this is its exact value after n samples. */
  lemma DeviationConverges(e: Estimator, ms: nat, n: nat)
    ensures
      var r := ms as real / 1000.0;
      AfterSamples(e, Steady(ms, n)).rttvar
        == Deviation(e.rttvar, if r < e.srtt then e.srtt - r else r - e.srtt, n)
  {
    hide *;
    AbsIs(e.srtt, ms as real / 1000.0);
    DeviationAfter(e, ms, n);
  }

  lemma {:induction false} DeviationAfter(e: Estimator, ms: nat, n: nat)
    ensures AfterSamples(e, Steady(ms, n)).rttvar == Deviation(e.rttvar, Abs(e.srtt - ms as real / 1000.0), n)
  {
    hide Deviation, Power, Sampled, Abs;
    if n == 0 {
      DeviationAtFirst(e.rttvar, Abs(e.srtt - ms as real / 1000.0));
    } else {
      hide *;
      DeviationAfter(e, ms, n - 1);
      OneMoreDeviation(e, ms, n);
      DeviationNext(e.rttvar, Abs(e.srtt - ms as real / 1000.0), n);
    }
  }

  lemma OneMoreDeviation(e: Estimator, ms: nat, n: nat)
    requires n > 0
    ensures AfterSamples(e, Steady(ms, n)).rttvar
         == 0.75 * AfterSamples(e, Steady(ms, n - 1)).rttvar
            + 0.25 * (Power(0.875, n - 1) * Abs(e.srtt - ms as real / 1000.0))
  {
    hide *;
    ErrorAfter(e, ms, n - 1);
    AfterOneMore(e, ms, n);
    OneDeviation(AfterSamples(e, Steady(ms, n - 1)), ms);
  }

  lemma ErrorAfter(e: Estimator, ms: nat, n: nat)
    ensures
      var r := ms as real / 1000.0;
      Abs(AfterSamples(e, Steady(ms, n)).srtt - r) == Power(0.875, n) * Abs(e.srtt - r)
  {
    hide *;
    MeanConverges(e, ms, n);
    PowersShrink(n);
    var r := ms as real / 1000.0;
    AbsScaled(Power(0.875, n), e.srtt - r, AfterSamples(e, Steady(ms, n)).srtt - r);
  }

  lemma AfterOneMore(e: Estimator, ms: nat, n: nat)
    requires n > 0
    ensures AfterSamples(e, Steady(ms, n)) == Sampled(AfterSamples(e, Steady(ms, n - 1)), ms)
  {
    hide Sampled;
    assert Steady(ms, n)[..n - 1] == Steady(ms, n - 1);
  }

  lemma PowerTimes(x: real, n: nat, y: real)
    requires n > 0
    ensures Power(x, n) * y == x * (Power(x, n - 1) * y)
  {
    Scaled(x, Power(x, n - 1), y);
  }

  lemma OneDeviation(e: Estimator, ms: nat)
    ensures Sampled(e, ms).rttvar == 0.75 * e.rttvar + 0.25 * Abs(e.srtt - ms as real / 1000.0)
  {
  }

  lemma AbsIs(mean: real, r: real)
    ensures Abs(mean - r) == if r < mean then mean - r else r - mean
  {
  }

  lemma AbsScaled(p: real, x: real, y: real)
    requires p >= 0.0 && y == p * x
    ensures Abs(y) == p * Abs(x)
  {
  }

  /** (7/8)^n is at most 7 / (n + 7), and (3/4)^n is smaller. */
  lemma {:induction false} PowersShrink(n: nat)
    ensures 0.0 < Power(0.75, n) <= Power(0.875, n) && Power(0.875, n) * (n as real + 7.0) <= 7.0
  {
    if n > 0 {
      PowersShrink(n - 1);
      var p := Power(0.875, n - 1);
      assert 0.875 * p * (n as real + 7.0) == p * (0.875 * n as real + 6.125);
      assert p * (0.875 * n as real + 6.125) <= p * (n as real + 6.0);
    }
  }

  /** Under a steady round trip the time-out tends to that round trip, or to the end of [2, 60] that it is beyond: after
      n samples the difference is at most a constant divided by n + 7. */
  lemma TimeoutTends(e: Estimator, ms: nat, n: nat)
    requires e.rttvar >= 0.0 && n > 0
    ensures
      var r := ms as real / 1000.0;
      var error := if r < e.srtt then e.srtt - r else r - e.srtt;
      var limit := if r < 2.0 then 2.0 else if r > 60.0 then 60.0 else r;
      var rto := AfterSamples(e, Steady(ms, n)).rto;
      (if rto < limit then limit - rto else rto - limit) * (n as real + 7.0) <= 7.0 * (9.0 * error + 4.0 * e.rttvar)
  {
    hide *;
    var r := ms as real / 1000.0;
    var e' := AfterSamples(e, Steady(ms, n));
    AbsIs(e.srtt, r);
    MeanConverges(e, ms, n);
    DeviationConverges(e, ms, n);
    RtoAfter(e, ms, n);
    Closing(e.srtt - r, e.rttvar, n, e'.srtt - r, e'.rttvar, r);
    Limit(e'.rto, r);
  }

  /** A mean and a deviation on their way to r and 0, and the time-out on its way to r. */
  lemma Closing(x: real, v: real, n: nat, x': real, v': real, r: real)
    requires v >= 0.0 && x' == Power(0.875, n) * x && v' == Deviation(v, Abs(x), n)
    ensures Abs(MinMax(x' + r + 4.0 * v') - MinMax(r)) * (n as real + 7.0) <= 7.0 * (9.0 * Abs(x) + 4.0 * v)
  {
    hide Power, Abs, MinMax;
    PowersShrink(n);
    Nearby(Power(0.875, n), Power(0.75, n), x, v, x', v');
    Cut(x' + r + 4.0 * v', r);
    Rate(Abs(MinMax(x' + r + 4.0 * v') - MinMax(r)), Power(0.875, n), 9.0 * Abs(x) + 4.0 * v, n as real + 7.0);
  }

  lemma Cut(m: real, r: real)
    ensures 0.0 <= Abs(MinMax(m) - MinMax(r)) <= Abs(m - r)
  {
  }

  lemma Limit(rto: real, r: real)
    ensures
      var limit := if r < 2.0 then 2.0 else if r > 60.0 then 60.0 else r;
      MinMax(r) == limit && Abs(rto - MinMax(r)) == if rto < limit then limit - rto else rto - limit
  {
  }

  lemma RtoAfter(e: Estimator, ms: nat, n: nat)
    requires n > 0
    ensures
      var e' := AfterSamples(e, Steady(ms, n));
      e'.rto == MinMax(e'.srtt + 4.0 * e'.rttvar)
  {
  }

  lemma Nearby(p: real, q: real, x: real, v: real, x': real, v': real)
    requires 0.0 <= q <= p && v >= 0.0
    requires x' == p * x && v' == q * v + 2.0 * (p * Abs(x)) - 2.0 * (q * Abs(x))
    ensures Abs(x) >= 0.0 && Abs(x' + 4.0 * v') <= p * (9.0 * Abs(x) + 4.0 * v)
  {
    var d := Abs(x);
    AbsScaled(p, x, x');
    Larger(p, q, v);
    Larger(p, q, d);
    Distributed(p, d, v);
    Together(x', v', p * d, q * d, p * v, q * v);
  }

  lemma Together(x: real, v: real, pd: real, qd: real, pv: real, qv: real)
    requires Abs(x) == pd && v == qv + 2.0 * pd - 2.0 * qd && 0.0 <= qd <= pd && 0.0 <= qv <= pv
    ensures Abs(x + 4.0 * v) <= 9.0 * pd + 4.0 * pv
  {
  }

  lemma Larger(p: real, q: real, v: real)
    requires 0.0 <= q <= p && v >= 0.0
    ensures 0.0 <= q * v <= p * v
  {
  }

  lemma Distributed(p: real, d: real, v: real)
    ensures p * (9.0 * d + 4.0 * v) == 9.0 * (p * d) + 4.0 * (p * v)
  {
  }

  lemma Rate(d: real, p: real, c: real, n: real)
    requires 0.0 <= d <= p * c && c >= 0.0 && n >= 0.0 && p * n <= 7.0
    ensures d * n <= 7.0 * c
  {
    assert d * n <= p * c * n;
    assert p * c * n == p * n * c;
    assert p * n * c <= 7.0 * c;
  }

  /** Right after rtt_init, and from then on, a stamp is the milliseconds since the second in which it was called,
      modulo 2^32, even when the seconds no longer fit the 32 bits of the base. */
  lemma StampSinceInit(start: nat, now: nat)
    ensures Timestamp(Initial(start).base, now) == (now - start + start % 1000) % 0x1_0000_0000
  {
    var sec := start / 1000;
    SameResidue(now - 1000 * sec, 1000 * (sec / TWO_TO_THE_32));
    assert sec == sec / TWO_TO_THE_32 * TWO_TO_THE_32 + sec % TWO_TO_THE_32;
  }

  lemma SameResidue(a: int, k: int)
    ensures (a + k * 0x1_0000_0000) % 0x1_0000_0000 == a % 0x1_0000_0000
  {
  }

  /** The difference of two time stamps is the time elapsed between them, modulo 2^32, whatever the base. */
  lemma ElapsedTime(base: nat, t1: nat, t2: nat)
    ensures (Timestamp(base, t2) - Timestamp(base, t1)) % TWO_TO_THE_32 == (t2 - t1) % TWO_TO_THE_32
  {
    var a, b := t1 - 1000 * base, t2 - 1000 * base;
    assert a == a / TWO_TO_THE_32 * TWO_TO_THE_32 + a % TWO_TO_THE_32;
    assert b == b / TWO_TO_THE_32 * TWO_TO_THE_32 + b % TWO_TO_THE_32;
    var k := b / TWO_TO_THE_32 - a / TWO_TO_THE_32;
    assert t2 - t1 == k * TWO_TO_THE_32 + (b % TWO_TO_THE_32 - a % TWO_TO_THE_32);
  }
}
