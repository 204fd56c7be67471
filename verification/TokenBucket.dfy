/** Per-path token buckets that pace sending. Clock readings are parameters; quantities are real. */
module TokenBucket {
  import opened Numbers

  datatype State = State(
    buckets: map<int, real>,
    rates: map<int, real>,
    lastRefill: map<int, real>,
    maxBurst: map<int, real>)

  const INIT := State(map[], map[], map[], map[])

  function Lookup(m: map<int, real>, path: int, default: real): real {
    if path in m then m[path] else default
  }

  /** What flows in at a rate during some time. */
  function Flow(rate: real, time: real): real {
    rate * time
  }

  /** The tokens after some time at a rate, never more than a full bucket. */
  function Filled(tokens: real, rate: real, elapsed: real, full: real): real {
    MinReal(tokens + Flow(rate, elapsed), full)
  }

  function RefillStep(s: State, path: int, now: real): State {
    var elapsed := now - Lookup(s.lastRefill, path, now);
    if elapsed <= 0.0 then s else
      var rate := Lookup(s.rates, path, 0.0);
      var tokens := Filled(Lookup(s.buckets, path, 0.0), rate, elapsed, Lookup(s.maxBurst, path, rate * 0.05));
      s.(buckets := s.buckets[path := tokens], lastRefill := s.lastRefill[path := now])
  }

  datatype Event =
    | SetRate(path: int, rate: real, now: real)
    | Ask(path: int, now: real)                        // can_send, tokens_available, time_until_available
    | Consume(path: int, nbytes: nat, now: real)

  /** The tokens found on the path after the refill that every operation but SetRate begins with. */
  function TokensAt(s: State, path: int, now: real): real {
    Lookup(RefillStep(s, path, now).buckets, path, 0.0)
  }

  function SetRateStep(s: State, path: int, rate: real, now: real): State {
    var s' := s.(rates := s.rates[path := rate], maxBurst := s.maxBurst[path := rate * 0.05]);
    if path in s.buckets then s' else
      s'.(buckets := s.buckets[path := rate * 0.05], lastRefill := s.lastRefill[path := now])
  }

  /** The new state, and the bytes consumed. */
  function Step(s: State, e: Event): (State, nat) {
    match e
    case SetRate(path, rate, now) => (SetRateStep(s, path, rate, now), 0)
    case Ask(path, now) => (RefillStep(s, path, now), 0)
    case Consume(path, n, now) =>
      var r := RefillStep(s, path, now);
      var tokens := Lookup(r.buckets, path, 0.0);
      if tokens >= n as real then (r.(buckets := r.buckets[path := tokens - n as real]), n) else (r, 0)
  }

  // ---------- the object ----------

  class TokenBucketPacer {
    const maxWaitMs: real
    var buckets: map<int, real>
    var rates: map<int, real>
    var lastRefill: map<int, real>
    var maxBurst: map<int, real>

    ghost function Model(): State
      reads this
    {
      State(buckets, rates, lastRefill, maxBurst)
    }

    constructor (maxWait: real)
      ensures Model() == INIT && maxWaitMs == maxWait
    {
      maxWaitMs := maxWait;
      buckets, rates, lastRefill, maxBurst := map[], map[], map[], map[];
    }

    method ChangeRate(path: int, rate: real, now: real)
      modifies this
      ensures Model() == Step(old(Model()), SetRate(path, rate, now)).0
    {
      rates := rates[path := rate];
      maxBurst := maxBurst[path := rate * 0.05];
      if path !in buckets {
        buckets := buckets[path := maxBurst[path]];
        lastRefill := lastRefill[path := now];
      }
    }

    method CanSend(path: int, nbytes: nat, now: real) returns (ok: bool)
      modifies this
      ensures Model() == Step(old(Model()), Ask(path, now)).0
      ensures ok <==> TokensAt(old(Model()), path, now) >= nbytes as real
    {
      Refill(path, now);
      ok := Lookup(buckets, path, 0.0) >= nbytes as real;
    }

    method TryConsume(path: int, nbytes: nat, now: real) returns (ok: bool)
      modifies this
      ensures Model() == Step(old(Model()), Consume(path, nbytes, now)).0
      ensures Step(old(Model()), Consume(path, nbytes, now)).1 == if ok then nbytes else 0
      ensures ok <==> TokensAt(old(Model()), path, now) >= nbytes as real
    {
      Refill(path, now);
      var bucket := Lookup(buckets, path, 0.0);
      ok := bucket >= nbytes as real;
      if ok {
        buckets := buckets[path := bucket - nbytes as real];
      }
    }

    method TimeUntilAvailable(path: int, nbytes: nat, now: real) returns (ms: real)
      modifies this
      ensures Model() == Step(old(Model()), Ask(path, now)).0
      ensures ms == WaitMs(old(Model()), path, nbytes, now, maxWaitMs)
    {
      Refill(path, now);
      var deficit := nbytes as real - Lookup(buckets, path, 0.0);
      if deficit <= 0.0 {
        return 0.0;
      }
      var rate := Lookup(rates, path, 1.0);
      ms := if rate > 0.0 then deficit / rate * 1000.0 else maxWaitMs;
    }

    method Refill(path: int, now: real)
      modifies this
      ensures Model() == RefillStep(old(Model()), path, now)
    {
      var last := Lookup(lastRefill, path, now);
      var elapsed := now - last;
      if elapsed <= 0.0 {
        return;
      }
      var rate := Lookup(rates, path, 0.0);
      var maxB := Lookup(maxBurst, path, rate * 0.05);
      buckets := buckets[path := Filled(Lookup(buckets, path, 0.0), rate, elapsed, maxB)];
      lastRefill := lastRefill[path := now];
    }
  }

  /** The wait in milliseconds reported for n bytes. */
  function WaitMs(s: State, path: int, n: nat, now: real, maxWait: real): real {
    var deficit := n as real - TokensAt(s, path, now);
    var rate := Lookup(s.rates, path, 1.0);
    if deficit <= 0.0 then 0.0 else if rate > 0.0 then deficit / rate * 1000.0 else maxWait
  }

  // ---------- runs ----------

  function After(es: seq<Event>): State {
    if es == [] then INIT else Step(After(es[..|es| - 1]), es[|es| - 1]).0
  }

  /** The clock never goes back. */
  ghost predicate Ascending(es: seq<Event>) {
    forall i, j :: 0 <= i < j < |es| ==> es[i].now <= es[j].now
  }

  ghost predicate RatesAtMost(es: seq<Event>, path: int, limit: real) {
    forall i :: 0 <= i < |es| && es[i].SetRate? && es[i].path == path ==> es[i].rate <= limit
  }

  /** Bytes consumed on a path by the events from number k on. */
  function Consumed(es: seq<Event>, path: int, k: nat): nat
    requires k <= |es|
  {
    if k == |es| then 0 else
      var e := es[|es| - 1];
      Consumed(es[..|es| - 1], path, k) + if e.path == path then Step(After(es[..|es| - 1]), e).1 else 0
  }

  /** What the limit on the rates keeps true of a path at or after its last refill. */
  ghost predicate PathInv(s: State, path: int, limit: real, now: real) {
    && Lookup(s.rates, path, 0.0) <= limit
    && Lookup(s.maxBurst, path, 0.0) <= limit * 0.05
    && (path in s.maxBurst <==> path in s.rates)
    && (path in s.lastRefill ==> path in s.buckets && path in s.rates && s.lastRefill[path] <= now)
    && (path !in s.lastRefill ==> Lookup(s.buckets, path, 0.0) == 0.0)
    && Lookup(s.buckets, path, 0.0) <= limit * 0.05
  }

  lemma PathInvStep(s: State, e: Event, path: int, limit: real, before: real)
    requires limit >= 0.0 && PathInv(s, path, limit, before) && before <= e.now
    requires e.SetRate? && e.path == path ==> e.rate <= limit
    ensures PathInv(Step(s, e).0, path, limit, e.now)
  {
    hide Flow;
  }

  /** What may be consumed from the start of an interval up to the path's last refill. */
  function Allowance(s: State, path: int, limit: real, start: real): real {
    limit * 0.05
    + if path in s.lastRefill && s.lastRefill[path] > start then Flow(limit, s.lastRefill[path] - start) else 0.0
  }

  /** What was used since the start of an interval, with the tokens left, is within the allowance. */
  ghost predicate Budget(s: State, path: int, limit: real, start: real, used: nat) {
    && used as real + Lookup(s.buckets, path, 0.0) <= Allowance(s, path, limit, start)
    && used as real <= Allowance(s, path, limit, start)
    && (used == 0 || (path in s.lastRefill && s.lastRefill[path] >= start))
  }

  lemma FlowLaws(a: real, b: real, t: real, u: real)
    ensures a <= b && t >= 0.0 ==> Flow(a, t) <= Flow(b, t)
    ensures a >= 0.0 && t >= 0.0 ==> Flow(a, t) >= 0.0
    ensures Flow(a, t + u) == Flow(a, t) + Flow(a, u)
  {
  }

  lemma RefillBudget(s: State, path: int, limit: real, start: real, now: real, used: nat)
    requires limit >= 0.0 && start <= now
    requires PathInv(s, path, limit, now) && Budget(s, path, limit, start, used)
    ensures var r := RefillStep(s, path, now);
            && Budget(r, path, limit, start, used)
            && (path in r.lastRefill ==> r.lastRefill[path] >= start)
  {
    hide Flow;
    if path in s.lastRefill && now > s.lastRefill[path] {
      var last := s.lastRefill[path];
      FlowLaws(limit, limit, now - start, 0.0);
      FlowLaws(s.rates[path], limit, now - last, 0.0);
      FlowLaws(limit, limit, now - last, 0.0);
      FlowLaws(limit, limit, last - start, now - last);
      assert last - start + (now - last) == now - start;
    }
  }

  lemma BudgetStep(s: State, e: Event, path: int, limit: real, start: real, before: real, used: nat)
    requires limit >= 0.0 && start <= before <= e.now
    requires PathInv(s, path, limit, before) && Budget(s, path, limit, start, used)
    requires e.SetRate? && e.path == path ==> e.rate <= limit
    ensures Budget(Step(s, e).0, path, limit, start, used + if e.path == path then Step(s, e).1 else 0)
  {
    hide Flow;
    if e.path == path {
      if e.SetRate? {
        FlowLaws(limit, limit, e.now - start, 0.0);
      } else {
        RefillBudget(s, path, limit, start, e.now, used);
      }
    }
  }

  lemma {:induction false} PathInvRun(es: seq<Event>, path: int, limit: real, now: real)
    requires limit >= 0.0 && Ascending(es) && RatesAtMost(es, path, limit)
    requires es != [] ==> es[|es| - 1].now <= now
    ensures PathInv(After(es), path, limit, now)
  {
    if es != [] {
      var init, e := es[..|es| - 1], es[|es| - 1];
      PathInvRun(init, path, limit, e.now);
      PathInvStep(After(init), e, path, limit, e.now);
    }
  }

  lemma {:induction false} BudgetRun(es: seq<Event>, path: int, limit: real, k: nat)
    requires limit >= 0.0 && Ascending(es) && RatesAtMost(es, path, limit) && k < |es|
    ensures Budget(After(es), path, limit, es[k].now, Consumed(es, path, k))
  {
    var init, e := es[..|es| - 1], es[|es| - 1];
    PathInvRun(init, path, limit, e.now);
    if k == |init| {
      assert Consumed(init, path, k) == 0;
    } else {
      BudgetRun(init, path, limit, k);
    }
    BudgetStep(After(init), e, path, limit, es[k].now, e.now, Consumed(init, path, k));
  }

  /**
   Whatever is asked, consumed and set, with no rate of the path above the limit: the bytes consumed on the path
   in any interval are at most a burst of 50 ms plus the limit times the interval's length.
   */
  lemma ConsumptionIsPaced(es: seq<Event>, path: int, limit: real, k: nat)
    requires limit >= 0.0 && Ascending(es) && RatesAtMost(es, path, limit) && k < |es|
    ensures Consumed(es, path, k) as real <= 0.05 * limit + limit * (es[|es| - 1].now - es[k].now)
  {
    ConsumedWithinFlow(es, path, limit, k);
  }

  lemma ConsumedWithinFlow(es: seq<Event>, path: int, limit: real, k: nat)
    requires limit >= 0.0 && Ascending(es) && RatesAtMost(es, path, limit) && k < |es|
    ensures Consumed(es, path, k) as real <= 0.05 * limit + Flow(limit, es[|es| - 1].now - es[k].now)
  {
    BudgetRun(es, path, limit, k);
    PathInvRun(es, path, limit, es[|es| - 1].now);
    hide PathInv, Allowance, After, Consumed, Flow;
    AllowanceBound(After(es), path, limit, es[k].now, es[|es| - 1].now);
  }

  lemma AllowanceBound(s: State, path: int, limit: real, start: real, end: real)
    requires limit >= 0.0 && start <= end && PathInv(s, path, limit, end)
    ensures Allowance(s, path, limit, start) <= 0.05 * limit + Flow(limit, end - start)
  {
    hide Flow;
    FlowLaws(limit, limit, end - start, 0.0);
    if path in s.lastRefill {
      var last := s.lastRefill[path];
      FlowLaws(limit, limit, end - last, last - start);
      assert end - last + (last - start) == end - start;
    }
  }

  // ---------- the reported wait ----------

  /** The path has a rate and a running clock; its burst is 50 ms of the rate. */
  ghost predicate Started(s: State, path: int) {
    path in s.buckets && path in s.rates && path in s.lastRefill && path in s.maxBurst
    && s.maxBurst[path] == s.rates[path] * 0.05
  }

  /**
   After asking for the wait, with the rate unchanged and nothing consumed: at a later instant the packet can be
   sent just when it fits the burst and the wait is over.
   */
  lemma WaitIsExact(s: State, path: int, n: nat, now: real, later: real, maxWait: real)
    requires Started(s, path) && s.rates[path] > 0.0 && s.lastRefill[path] <= now < later
    ensures TokensAt(Step(s, Ask(path, now)).0, path, later) >= n as real
       <==> n as real <= s.maxBurst[path] && later >= now + WaitMs(s, path, n, now, maxWait) / 1000.0
  {
    var rate, tokens := s.rates[path], TokensAt(s, path, now);
    var deficit := n as real - tokens;
    var gap := later - now;
    assert TokensAt(Step(s, Ask(path, now)).0, path, later) == Filled(tokens, rate, gap, s.maxBurst[path]);
    hide Flow;
    FlowLaws(rate, rate, gap, 0.0);
    if deficit > 0.0 {
      WaitBound(deficit, rate, gap);
    }
  }

  lemma WaitBound(d: real, r: real, t: real)
    requires r > 0.0
    ensures d <= Flow(r, t) <==> t >= d / r * 1000.0 / 1000.0
  {
    var q := d / r;
    assert q * r == d;
    Compare(t, q, r);
  }

  // ---------- when a path never starts ----------

  /** A bucket made by a consumption of no bytes, before any rate was set. */
  ghost predicate Starved(s: State, path: int) {
    path in s.buckets && path !in s.lastRefill && s.buckets[path] == 0.0
  }

  lemma StarvedStep(s: State, e: Event, path: int)
    requires Starved(s, path)
    ensures Starved(Step(s, e).0, path)
  {
  }

  /** The event that makes the path's bucket. */
  ghost predicate Makes(es: seq<Event>, path: int, k: nat) {
    k < |es| && es[k].path == path && (es[k].SetRate? || (es[k].Consume? && es[k].nbytes == 0))
    && forall i :: 0 <= i < k && es[i].path == path ==> es[i].Ask? || (es[i].Consume? && es[i].nbytes > 0)
  }

  lemma {:induction false} NoBucketYet(es: seq<Event>, path: int)
    requires forall i :: 0 <= i < |es| && es[i].path == path ==> es[i].Ask? || (es[i].Consume? && es[i].nbytes > 0)
    ensures var s := After(es); path !in s.buckets && path !in s.lastRefill && path !in s.rates && path !in s.maxBurst
  {
    hide Step;
    if es != [] {
      var init, e := es[..|es| - 1], es[|es| - 1];
      assert forall i :: 0 <= i < |init| ==> init[i] == es[i];
      NoBucketYet(init, path);
      StillNoBucket(After(init), e, path);
    }
  }

  lemma StillNoBucket(s: State, e: Event, path: int)
    requires path !in s.buckets && path !in s.lastRefill && path !in s.rates && path !in s.maxBurst
    requires e.path == path ==> e.Ask? || (e.Consume? && e.nbytes > 0)
    ensures var t := Step(s, e).0;
            path !in t.buckets && path !in t.lastRefill && path !in t.rates && path !in t.maxBurst
  {
  }

  lemma StartedStep(s: State, e: Event, path: int)
    requires Started(s, path)
    ensures Started(Step(s, e).0, path)
  {
  }

  /**
   A path's clock starts just when a rate is set before any consumption of no bytes; otherwise the path never has
   a token, whatever rates are set later.
   */
  lemma {:induction false} StartsOrStarves(es: seq<Event>, path: int, k: nat)
    requires Makes(es, path, k)
    ensures es[k].SetRate? ==> Started(After(es), path)
    ensures es[k].Consume? ==> Starved(After(es), path)
  {
    var init, e := es[..|es| - 1], es[|es| - 1];
    if k == |init| {
      assert forall i :: 0 <= i < |init| ==> init[i] == es[i];
      NoBucketYet(init, path);
    } else {
      StartsOrStarves(init, path, k);
      if es[k].SetRate? { StartedStep(After(init), e, path); } else { StarvedStep(After(init), e, path); }
    }
  }

  lemma StarvedNeverSends(s: State, path: int, n: nat, now: real)
    requires Starved(s, path)
    ensures TokensAt(s, path, now) >= n as real <==> n == 0
  {
  }

  // ---------- one path from its first rate on ----------

  /** The first rate fills the bucket: 50 ms of it are there at once and stay there until something is consumed. */
  lemma FirstRateFillsBucket(s: State, path: int, rate: real, now: real, later: real)
    requires path !in s.buckets && rate >= 0.0 && now <= later
    ensures 20.0 * TokensAt(Step(s, SetRate(path, rate, now)).0, path, later) == rate
  {
    hide Flow;
    FlowLaws(rate, rate, later - now, 0.0);
  }

  /** A later rate keeps the tokens and the clock, but what flows in and how much fits is the new one's. */
  lemma LaterRateKeepsTokens(s: State, path: int, rate: real, now: real, later: real)
    requires Started(s, path) && rate >= 0.0 && s.lastRefill[path] < later
    ensures var t := Step(s, SetRate(path, rate, now)).0;
            && t.buckets == s.buckets && t.lastRefill == s.lastRefill
            && TokensAt(t, path, later)
               == MinReal(s.buckets[path] + rate * (later - s.lastRefill[path]), rate / 20.0)
  {
  }

  /** What is consumed is gone, and comes back at the rate up to 50 ms of it. */
  lemma ConsumedComesBack(s: State, path: int, n: nat, now: real, later: real)
    requires Started(s, path) && s.lastRefill[path] <= now < later && TokensAt(s, path, now) >= n as real
    ensures var rate := s.rates[path];
            TokensAt(Step(s, Consume(path, n, now)).0, path, later)
            == MinReal(TokensAt(s, path, now) - n as real + rate * (later - now), rate / 20.0)
  {
    hide Flow;
    FlowIs(s.rates[path], later - now);
    RefillKeepsStarted(s, path, now);
  }

  lemma FlowIs(rate: real, time: real)
    ensures Flow(rate, time) == rate * time
  {
  }

  lemma RefillKeepsStarted(s: State, path: int, now: real)
    requires Started(s, path) && s.lastRefill[path] <= now
    ensures var r := RefillStep(s, path, now);
            && Started(r, path) && r.rates == s.rates && r.maxBurst == s.maxBurst && r.lastRefill[path] == now
  {
  }

  /** Without a positive rate the wait is the longest there is; a path unknown counts as one byte a second. */
  lemma WaitWithoutRate(s: State, path: int, n: nat, now: real, maxWait: real)
    requires TokensAt(s, path, now) < n as real
    ensures path in s.rates && s.rates[path] <= 0.0 ==> WaitMs(s, path, n, now, maxWait) == maxWait
    ensures path !in s.rates ==>
              WaitMs(s, path, n, now, maxWait) == 1000.0 * (n as real - TokensAt(s, path, now))
  {
  }

  /** Operations on one path leave the others alone. */
  lemma OtherPathsKeep(s: State, e: Event, path: int, now: real)
    requires e.path != path
    ensures TokensAt(Step(s, e).0, path, now) == TokensAt(s, path, now)
    ensures (path in Step(s, e).0.buckets <==> path in s.buckets) && (path in Step(s, e).0.rates <==> path in s.rates)
  {
  }
}
