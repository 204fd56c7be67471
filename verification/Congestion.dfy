/** Per-path congestion control: additive increase, multiplicative decrease. Rates are real, the window an integer. */
module Congestion {
  import opened Collections
  import opened Numbers

  const MSS: nat := 1400

  datatype State = State(
    bw: real, alpha: real, beta: real, minRate: real, rate: real, lastIncrease: real,
    cwnd: nat, ssthresh: real, slowStart: bool, inFlight: nat)

  datatype Event =
    | UpdateBw(bw: real)
    | Sent(nbytes: nat)
    | Ack(nbytes: nat)
    | Success(now: real)
    | Loss

  function Scale(r: real, b: real): real {
    r * b
  }

  function Init(bw: real, alphaRatio: real, beta: real, minRatio: real, now: real): State {
    State(bw, bw * alphaRatio, beta, bw * minRatio, bw * 0.8, now, 65536, bw * 0.5, true, 0)
  }

  /** What an acknowledgement adds to the window in congestion avoidance. */
  function Growth(cwnd: nat, nbytes: nat): nat
    requires cwnd > 0
  {
    Max(1, MSS * nbytes / cwnd)
  }

  predicate WindowOk(s: State) {
    s.cwnd >= 2 * MSS
  }

  function AckStep(s: State, n: nat): State
    requires WindowOk(s)
  {
    var s' := s.(inFlight := if s.inFlight < n then 0 else s.inFlight - n);
    if s.slowStart then
      s'.(cwnd := s.cwnd + n, slowStart := !((s.cwnd + n) as real >= s.ssthresh))
    else
      s'.(cwnd := s.cwnd + Growth(s.cwnd, n))
  }

  function Step(s: State, e: Event): State
    requires WindowOk(s)
  {
    match e
    case UpdateBw(bw) => s.(bw := bw, alpha := bw * 0.05, minRate := bw * 0.1, rate := MinReal(s.rate, bw * 1.2))
    case Sent(n) => s.(inFlight := s.inFlight + n)
    case Ack(n) => AckStep(s, n)
    case Success(now) =>
      if now - s.lastIncrease >= 0.1 then s.(rate := MinReal(s.rate + s.alpha, s.bw * 1.2), lastIncrease := now) else s
    case Loss =>
      var half := Max(s.cwnd / 2, 2 * MSS);
      s.(rate := MaxReal(Scale(s.rate, s.beta), s.minRate), ssthresh := half as real, cwnd := half, slowStart := false)
  }

  // ---------- the object ----------

  class AIMDController {
    var estimatedBw: real
    var alpha: real
    const beta: real
    var minRate: real
    var sendRate: real
    var lastIncrease: real
    var cwndBytes: nat
    var ssthresh: real
    var inSlowStart: bool
    var bytesInFlight: nat

    ghost function Model(): State
      reads this
    {
      State(estimatedBw, alpha, beta, minRate, sendRate, lastIncrease, cwndBytes, ssthresh, inSlowStart, bytesInFlight)
    }

    ghost predicate Valid()
      reads this
    {
      WindowOk(Model())
    }

    constructor (bw: real, alphaRatio: real, b: real, minRatio: real, now: real)
      ensures Valid() && Model() == Init(bw, alphaRatio, b, minRatio, now)
    {
      estimatedBw, alpha, beta, minRate := bw, bw * alphaRatio, b, bw * minRatio;
      sendRate, lastIncrease := bw * 0.8, now;
      cwndBytes, ssthresh, inSlowStart, bytesInFlight := 65536, bw * 0.5, true, 0;
    }

    method UpdateEstimatedBw(bw: real)
      requires Valid()
      modifies this
      ensures Valid() && Model() == Step(old(Model()), UpdateBw(bw))
    {
      estimatedBw, alpha, minRate := bw, bw * 0.05, bw * 0.1;
      sendRate := MinReal(sendRate, bw * 1.2);
    }

    method RecordSent(nbytes: nat)
      requires Valid()
      modifies this
      ensures Valid() && Model() == Step(old(Model()), Sent(nbytes))
    {
      bytesInFlight := bytesInFlight + nbytes;
    }

    method RecordAck(nbytes: nat)
      requires Valid()
      modifies this
      ensures Valid() && Model() == Step(old(Model()), Ack(nbytes))
    {
      bytesInFlight := if bytesInFlight < nbytes then 0 else bytesInFlight - nbytes;
      if inSlowStart {
        cwndBytes := cwndBytes + nbytes;
        if cwndBytes as real >= ssthresh {
          inSlowStart := false;
        }
      } else {
        cwndBytes := cwndBytes + Growth(cwndBytes, nbytes);
      }
    }

    method OnSuccess(now: real)
      requires Valid()
      modifies this
      ensures Valid() && Model() == Step(old(Model()), Success(now))
    {
      if now - lastIncrease >= 0.1 {
        sendRate := MinReal(sendRate + alpha, estimatedBw * 1.2);
        lastIncrease := now;
      }
    }

    method OnLoss()
      requires Valid()
      modifies this
      ensures Valid() && Model() == Step(old(Model()), Loss)
    {
      sendRate := MaxReal(Scale(sendRate, beta), minRate);
      var half := Max(cwndBytes / 2, 2 * MSS);
      ssthresh, cwndBytes, inSlowStart := half as real, half, false;
    }
  }

  // ---------- every reachable state ----------

  /** The window never falls below two segments, so an acknowledgement never divides by zero. */
  function Run(s: State, es: seq<Event>): (t: State)
    requires WindowOk(s)
    ensures WindowOk(t)
  {
    if es == [] then s else Step(Run(s, es[..|es| - 1]), es[|es| - 1])
  }

  /** Parameters for which the rate is kept below 1.2 times the bandwidth. */
  ghost predicate Sane(beta: real, minRatio: real) {
    0.0 <= beta <= 1.0 && 0.0 <= minRatio <= 1.2
  }

  ghost predicate RateInv(s: State) {
    && s.bw >= 0.0 && 0.0 <= s.beta <= 1.0 && 0.0 <= s.alpha
    && 0.0 <= s.minRate <= s.bw * 1.2 && 0.0 <= s.rate <= s.bw * 1.2
  }

  lemma Scaled(r: real, b: real)
    requires 0.0 <= r && 0.0 <= b <= 1.0
    ensures 0.0 <= Scale(r, b) <= r
  {
  }

  lemma ScaleLaws(x: real, y: real, b: real, c: real)
    requires b >= 0.0
    ensures x <= y ==> Scale(x, b) <= Scale(y, b)
    ensures Scale(Scale(x, c), b) == Scale(x, Scale(c, b))
    ensures Scale(x, 1.0) == x == Scale(1.0, x)
  {
    assert x * c * b == x * (c * b);
  }

  lemma RateStep(s: State, e: Event)
    requires WindowOk(s) && RateInv(s)
    requires e.UpdateBw? ==> e.bw >= 0.0
    ensures RateInv(Step(s, e))
  {
    hide Scale;
    Scaled(s.rate, s.beta);
  }

  /** The sending rate never exceeds 1.2 times the current bandwidth estimate. */
  lemma {:induction false} RateIsCapped(bw: real, alphaRatio: real, beta: real, minRatio: real, now: real,
                                        es: seq<Event>)
    requires bw >= 0.0 && alphaRatio >= 0.0 && Sane(beta, minRatio)
    requires forall e :: e in es && e.UpdateBw? ==> e.bw >= 0.0
    ensures RateInv(Run(Init(bw, alphaRatio, beta, minRatio, now), es))
  {
    if es == [] {
      InitRate(bw, alphaRatio, minRatio);
    } else {
      assert forall e :: e in es[..|es| - 1] ==> e in es;
      assert es[|es| - 1] in es;
      RateIsCapped(bw, alphaRatio, beta, minRatio, now, es[..|es| - 1]);
      RateStep(Run(Init(bw, alphaRatio, beta, minRatio, now), es[..|es| - 1]), es[|es| - 1]);
    }
  }

  lemma InitRate(bw: real, alphaRatio: real, minRatio: real)
    requires bw >= 0.0 && alphaRatio >= 0.0 && 0.0 <= minRatio <= 1.2
    ensures 0.0 <= bw * alphaRatio && 0.0 <= bw * minRatio <= bw * 1.2
  {
  }

  // ---------- losses in a row ----------

  function Power(b: real, n: nat): real {
    if n == 0 then 1.0 else Scale(Power(b, n - 1), b)
  }

  function Losses(n: nat): (es: seq<Event>)
    ensures |es| == n
  {
    if n == 0 then [] else Losses(n - 1) + [Loss]
  }

  lemma RunMore(s: State, es: seq<Event>, e: Event)
    requires WindowOk(s)
    ensures Run(s, es + [e]) == Step(Run(s, es), e)
  {
    assert (es + [e])[..|es + [e]| - 1] == es;
  }

  lemma DecayAgain(rate: real, p: real, b: real, m: real)
    requires m >= 0.0 && 0.0 <= b <= 1.0
    ensures MaxReal(Scale(MaxReal(Scale(rate, p), m), b), m) == MaxReal(Scale(rate, Scale(p, b)), m)
  {
    hide Scale;
    Scaled(m, b);
    ScaleLaws(Scale(rate, p), m, b, p);
    ScaleLaws(rate, rate, b, p);
  }

  /** After n losses in a row the rate is beta^n of what it was, but not below the minimum. */
  lemma {:induction false} LossesDecay(s: State, n: nat)
    requires WindowOk(s) && n >= 1 && s.minRate >= 0.0 && 0.0 <= s.beta <= 1.0
    ensures var t := Run(s, Losses(n));
            && t.rate == MaxReal(Scale(s.rate, Power(s.beta, n)), s.minRate)
            && (t.bw, t.minRate, t.beta) == (s.bw, s.minRate, s.beta)
  {
    hide Scale;
    RunMore(s, Losses(n - 1), Loss);
    if n == 1 {
      ScaleLaws(s.beta, s.beta, 1.0, 1.0);
      assert Power(s.beta, 1) == s.beta;
    } else {
      LossesDecay(s, n - 1);
      DecayAgain(s.rate, Power(s.beta, n - 1), s.beta, s.minRate);
    }
  }

  // ---------- growth in congestion avoidance ----------

  function Acks(ns: seq<nat>): (es: seq<Event>)
    ensures |es| == |ns|
  {
    if ns == [] then [] else Acks(ns[..|ns| - 1]) + [Ack(ns[|ns| - 1])]
  }

  function Total(ns: seq<nat>): nat {
    if ns == [] then 0 else Total(ns[..|ns| - 1]) + ns[|ns| - 1]
  }

  lemma GrowthBound(cwnd: nat, start: nat, total: nat, n: nat)
    requires 0 < start <= cwnd
    ensures MSS * total / start + Growth(cwnd, n) <= MSS * (total + n) / start + 1
  {
    var x, y := MSS * total, MSS * n;
    FloorSmaller(y, start, cwnd);
    FloorSum(x, y, start);
    assert MSS * (total + n) == x + y;
  }

  lemma FloorSmaller(y: nat, a: nat, b: nat)
    requires 0 < a <= b
    ensures y / b <= y / a
  {
    var q := y / b;
    assert b * q + y % b == y;
    FactorMonotone(q, a, b);
    FloorAtLeast(y, a, q);
  }

  lemma FloorAtLeast(y: nat, a: nat, q: nat)
    requires a > 0 && q * a <= y
    ensures q <= y / a
  {
    FactorBelow(a, q, y / a + 1);
  }

  lemma FloorBelow(x: nat, a: nat)
    requires a > 0
    ensures x / a * a <= x
  {
    assert a * (x / a) + x % a == x;
  }

  lemma Distribute(p: nat, q: nat, a: nat)
    ensures (p + q) * a == p * a + q * a
  {
  }

  lemma FloorSum(x: nat, y: nat, a: nat)
    requires a > 0
    ensures x / a + y / a <= (x + y) / a
  {
    var p, q := x / a, y / a;
    FloorBelow(x, a);
    FloorBelow(y, a);
    Distribute(p, q, a);
    FloorAtLeast(x + y, a, p + q);
  }

  /**
   In congestion avoidance, acknowledgements of at most the starting window in all, in whatever portions, add at
   most one segment and one byte an acknowledgement; and at least one byte an acknowledgement.
   */
  lemma GrowthIsLinear(s: State, ns: seq<nat>)
    requires WindowOk(s) && !s.slowStart && Total(ns) <= s.cwnd
    ensures var t := Run(s, Acks(ns)); !t.slowStart && s.cwnd + |ns| <= t.cwnd <= s.cwnd + MSS + |ns|
  {
    GrowthByTotal(s, ns);
    FloorAtMost(MSS * Total(ns), s.cwnd, MSS);
  }

  lemma FloorAtMost(y: nat, a: nat, q: nat)
    requires a > 0 && y <= q * a
    ensures y / a <= q
  {
    FactorBelow(a, y / a, q + 1);
  }

  lemma {:induction false} GrowthByTotal(s: State, ns: seq<nat>)
    requires WindowOk(s) && !s.slowStart
    ensures var t := Run(s, Acks(ns));
            !t.slowStart && s.cwnd + |ns| <= t.cwnd <= s.cwnd + MSS * Total(ns) / s.cwnd + |ns|
  {
    if ns != [] {
      var init, n := ns[..|ns| - 1], ns[|ns| - 1];
      GrowthByTotal(s, init);
      RunMore(s, Acks(init), Ack(n));
      GrowthBound(Run(s, Acks(init)).cwnd, s.cwnd, Total(init), n);
    }
  }

  // ---------- losses and the window ----------

  /** A loss halves the window, rounded down, but leaves two segments; slow start is over, its threshold the window. */
  lemma LossHalvesWindow(s: State)
    requires WindowOk(s)
    ensures var t := Step(s, Loss);
            && (if s.cwnd >= 5600 then 2 * t.cwnd <= s.cwnd <= 2 * t.cwnd + 1 else t.cwnd == 2800)
            && !t.slowStart && t.ssthresh == t.cwnd as real && t.inFlight == s.inFlight
  {
  }

  // ---------- acknowledgements ----------

  /** In slow start the window grows by what is acknowledged, until it reaches the threshold. */
  lemma {:induction false} SlowStartAdds(s: State, ns: seq<nat>)
    requires WindowOk(s) && s.slowStart
    requires ns != [] ==> (s.cwnd + Total(ns[..|ns| - 1])) as real < s.ssthresh
    ensures var t := Run(s, Acks(ns));
            && t.cwnd == s.cwnd + Total(ns) && t.ssthresh == s.ssthresh
            && (ns != [] ==> (t.slowStart <==> t.cwnd as real < s.ssthresh)) && (ns == [] ==> t.slowStart)
  {
    if ns != [] {
      var init := ns[..|ns| - 1];
      if init != [] { assert Total(init[..|init| - 1]) <= Total(init); }
      SlowStartAdds(s, init);
      RunMore(s, Acks(init), Ack(ns[|ns| - 1]));
    }
  }

  /** In congestion avoidance one acknowledgement adds its share of a segment of 1400 bytes, at least one byte. */
  lemma AvoidanceAdds(s: State, n: nat)
    requires WindowOk(s) && !s.slowStart
    ensures var t := Step(s, Ack(n));
            var k := t.cwnd - s.cwnd;
            && k >= 1 && !t.slowStart && 1400 * n < (k + 1) * s.cwnd && (k > 1 ==> k * s.cwnd <= 1400 * n)
  {
    var q := MSS * n / s.cwnd;
    assert MSS * n == s.cwnd * q + MSS * n % s.cwnd;
    Distribute(q, 1, s.cwnd);
    if q == 0 { Distribute(1, 1, s.cwnd); }
  }

  /** What is in flight is what was sent and not acknowledged; acknowledging more than that leaves nothing. */
  lemma InFlight(s: State, sent: nat, acked: nat)
    requires WindowOk(s)
    ensures var t := Run(s, [Sent(sent), Ack(acked)]);
            if acked <= s.inFlight + sent then t.inFlight + acked == s.inFlight + sent else t.inFlight == 0
  {
    RunMore(s, [Sent(sent)], Ack(acked));
    RunMore(s, [], Sent(sent));
    assert [Sent(sent)] + [Ack(acked)] == [Sent(sent), Ack(acked)] && [] + [Sent(sent)] == [Sent(sent)];
  }

  // ---------- successes ----------

  function Successes(times: seq<real>): (es: seq<Event>)
    ensures |es| == |times|
  {
    if times == [] then [] else Successes(times[..|times| - 1]) + [Success(times[|times| - 1])]
  }

  /** Each at least 100 ms after the one before, the first 100 ms after the last increase. */
  ghost predicate Spaced(last: real, times: seq<real>) {
    && (times != [] ==> times[0] - last >= 0.1)
    && forall i :: 0 < i < |times| ==> times[i] - times[i - 1] >= 0.1
  }

  function Times(n: nat, a: real): real {
    n as real * a
  }

  lemma TimesMore(n: nat, a: real)
    ensures Times(0, a) == 0.0 && Times(n + 1, a) == Times(n, a) + a
  {
  }

  lemma SuccessAdds(s: State, now: real)
    requires WindowOk(s) && now - s.lastIncrease >= 0.1
    ensures Step(s, Success(now)) == s.(rate := MinReal(s.rate + s.alpha, s.bw * 1.2), lastIncrease := now)
  {
  }

  /** Successes at that distance add the increment each, up to the cap. */
  lemma {:induction false} SuccessesAdd(s: State, times: seq<real>, cap: real)
    requires WindowOk(s) && Spaced(s.lastIncrease, times) && s.alpha >= 0.0 && s.rate <= s.bw * 1.2 == cap
    ensures var t := Run(s, Successes(times));
            && t.rate == MinReal(s.rate + Times(|times|, s.alpha), cap)
            && t.lastIncrease == (if times == [] then s.lastIncrease else times[|times| - 1])
            && t.alpha == s.alpha && t.bw == s.bw
  {
    hide Step, Times;
    TimesMore(if times == [] then 0 else |times| - 1, s.alpha);
    if times != [] {
      var n := |times| - 1;
      SuccessesAdd(s, times[..n], cap);
      RunMore(s, Successes(times[..n]), Success(times[n]));
      SuccessAdds(Run(s, Successes(times[..n])), times[n]);
    }
  }

  /** Sooner than that a success changes nothing. */
  lemma TooSoonAddsNothing(s: State, now: real)
    requires WindowOk(s) && now - s.lastIncrease < 0.1
    ensures Step(s, Success(now)) == s
  {
  }

  lemma EstimateMoves(s: State, bw: real)
    requires WindowOk(s)
    ensures var t := Step(s, UpdateBw(bw));
            && t.rate == (if 5.0 * s.rate > 6.0 * bw then bw * 1.2 else s.rate) && t.rate <= t.bw * 1.2
            && (t.bw, t.alpha, t.minRate, t.beta) == (bw, bw * 0.05, bw * 0.1, s.beta)
            && t.cwnd == s.cwnd && t.lastIncrease == s.lastIncrease
  {
  }

  /** After a new estimate: 5 percent of it a success, never above 120 percent, never below 10 percent by losses. */
  lemma EstimateSetsRange(s: State, bw: real, times: seq<real>, n: nat)
    requires WindowOk(s) && bw >= 0.0 && Spaced(s.lastIncrease, times) && n >= 1 && 0.0 <= s.beta <= 1.0
    ensures var t := Step(s, UpdateBw(bw));
            && t.rate == (if 5.0 * s.rate > 6.0 * bw then bw * 1.2 else s.rate) && t.cwnd == s.cwnd
            && Run(t, Successes(times)).rate == MinReal(t.rate + Times(|times|, bw * 0.05), bw * 1.2)
            && Run(t, Losses(n)).rate == MaxReal(Scale(t.rate, Power(s.beta, n)), bw * 0.1)
  {
    hide Run, Times, Scale, Power, Step, MinReal, MaxReal, Spaced, Successes, Losses;
    var t := Step(s, UpdateBw(bw));
    EstimateMoves(s, bw);
    SuccessesAdd(t, times, bw * 1.2);
    LossesDecay(t, n);
  }

  /** A new controller sends at 80 percent of the estimate and starts slowly from 64 KB up to half the estimate. */
  lemma StartsInSlowStart(bw: real, alphaRatio: real, beta: real, minRatio: real, now: real, ns: seq<nat>)
    requires ns != [] ==> 2.0 * (65536 + Total(ns[..|ns| - 1])) as real < bw
    ensures var s := Init(bw, alphaRatio, beta, minRatio, now);
            && 10.0 * s.rate == 8.0 * bw && s.inFlight == 0 && s.lastIncrease == now
            && Run(s, Acks(ns)).cwnd == 65536 + Total(ns)
            && (ns != [] ==> (Run(s, Acks(ns)).slowStart <==> 2.0 * (65536 + Total(ns)) as real < bw))
  {
    SlowStartAdds(Init(bw, alphaRatio, beta, minRatio, now), ns);
  }
}
