/** Whole runs of the reorder buffer: conservation, confluence of arrival orders, and draining by timeouts. */
module ReorderRuns {
  import opened Collections
  import opened Bytes
  import opened ReorderBuffer

  datatype Event =
    | Arrive(q: nat, payload: bytes, now: real)
    | Check(now: real)
    | SetTimeout(timeoutMs: real)

  ghost function Step(window: nat, s: State, e: Event): (State, seq<Numbered>) {
    match e
    case Arrive(q, payload, now) => InsertStep(window, s, q, payload, now)
    case Check(now) => CheckStep(window, s, now)
    case SetTimeout(timeoutMs) => (s.(timeoutMs := timeoutMs), [])
  }

  ghost function After(window: nat, t0: real, es: seq<Event>): State {
    if es == [] then Init(t0) else Step(window, After(window, t0, es[..|es| - 1]), es[|es| - 1]).0
  }

  /** Everything delivered, in order of delivery. */
  ghost function Out(window: nat, t0: real, es: seq<Event>): seq<Numbered> {
    if es == [] then [] else
      var n := |es| - 1;
      Out(window, t0, es[..n]) + Step(window, After(window, t0, es[..n]), es[n]).1
  }

  /** The packets that were not taken for duplicates, each with the payload it was accepted with. */
  ghost function Accepted(window: nat, t0: real, es: seq<Event>): map<nat, bytes> {
    if es == [] then map[] else
      var n := |es| - 1;
      var acc := Accepted(window, t0, es[..n]);
      if es[n].Arrive? && !After(window, t0, es[..n]).IsDuplicate(es[n].q) then acc[es[n].q := es[n].payload] else acc
  }

  /** The numbers a step gives up. */
  function GivenUp(s: State, e: Event): set<nat> {
    if e.Check? && Aged(s, e.now) && s.next < Least(s) then Range(s.next, Least(s)) else {}
  }

  ghost function Skipped(window: nat, t0: real, es: seq<Event>): set<nat> {
    if es == [] then {} else
      var n := |es| - 1;
      Skipped(window, t0, es[..n]) + GivenUp(After(window, t0, es[..n]), es[n])
  }

  /** The packets of a dictionary with numbers below n, in ascending order. */
  ghost function Below(acc: map<nat, bytes>, n: nat): seq<Numbered> {
    if n == 0 then [] else Below(acc, n - 1) + if n - 1 in acc then [Packet(acc, n - 1)] else []
  }

  /**
   The books: what went out is what was accepted below next, in ascending order; what is held is what was
   accepted from next on; and the numbers below next that were never accepted are the ones given up.
   */
  ghost predicate Ledger(s: State, acc: map<nat, bytes>, out: seq<Numbered>, skipped: set<nat>) {
    && out == Below(acc, s.next)
    && s.buffer == acc - Range(0, s.next)
    && skipped == Range(0, s.next) - acc.Keys
  }

  /** A run of accepted numbers extends the listing packet by packet. */
  lemma {:induction false} BelowSlice(acc: map<nat, bytes>, buffer: map<nat, bytes>, lo: nat, m: nat)
    requires lo <= m && forall k :: lo <= k < m ==> k in acc && k in buffer && buffer[k] == acc[k]
    ensures Below(acc, m) == Below(acc, lo) + Slice(buffer, lo, m)
  {
    if lo < m {
      BelowSlice(acc, buffer, lo, m - 1);
    }
  }

  /** Numbers that were not accepted add nothing. */
  lemma {:induction false} BelowGap(acc: map<nat, bytes>, lo: nat, m: nat)
    requires lo <= m && forall k :: lo <= k < m ==> k !in acc
    ensures Below(acc, m) == Below(acc, lo)
  {
    if lo < m { BelowGap(acc, lo, m - 1); }
  }

  lemma {:induction false} BelowSame(acc: map<nat, bytes>, q: nat, payload: bytes, n: nat)
    requires q >= n
    ensures Below(acc[q := payload], n) == Below(acc, n)
  {
    if n > 0 { BelowSame(acc, q, payload, n - 1); }
  }

  lemma LedgerDeliver(s: State, acc: map<nat, bytes>, out: seq<Numbered>, skipped: set<nat>)
    requires Ledger(s, acc, out, skipped)
    ensures Ledger(DeliverStep(s).0, acc, out + DeliverStep(s).1, skipped)
  {
    var m := GapFrom(s.buffer, s.next);
    forall k | s.next <= k < m ensures k in acc && k in s.buffer && s.buffer[k] == acc[k] {
      assert k in s.buffer;
    }
    BelowSlice(acc, s.buffer, s.next, m);
    MinusTwice(acc, s.next, m);
    SkippedSame(acc, s.buffer, s.next, m);
  }

  lemma SkippedSame(acc: map<nat, bytes>, buffer: map<nat, bytes>, lo: nat, m: nat)
    requires lo <= m && buffer.Keys <= acc.Keys && forall k :: lo <= k < m ==> k in buffer
    ensures Range(0, m) - acc.Keys == Range(0, lo) - acc.Keys
  {
    forall x | x in Range(0, m) - acc.Keys ensures x in Range(0, lo) {
      assert lo <= x < m ==> x in buffer;
    }
  }

  lemma MinusTwice(acc: map<nat, bytes>, lo: nat, m: nat)
    requires lo <= m
    ensures acc - Range(0, lo) - Range(lo, m) == acc - Range(0, m)
  {
  }

  lemma LedgerAccept(window: nat, s: State, acc: map<nat, bytes>, out: seq<Numbered>, skipped: set<nat>,
                     q: nat, payload: bytes, now: real)
    requires Ledger(s, acc, out, skipped) && q >= s.next
    ensures Ledger(Accept(window, s, q, payload, now), acc[q := payload], out, skipped)
  {
    BelowSame(acc, q, payload, s.next);
    assert s.buffer[q := payload] == acc[q := payload] - Range(0, s.next);
    assert q !in Range(0, s.next);
  }

  lemma LedgerSkip(window: nat, s: State, acc: map<nat, bytes>, out: seq<Numbered>, skipped: set<nat>, now: real)
    requires Inv(window, s) && Ledger(s, acc, out, skipped)
    ensures Ledger(SkipGap(window, s, now), acc, out, skipped + GivenUp(s, Check(now)))
  {
    hide Inv, FlushRange;
    if Aged(s, now) && s.next < Least(s) {
      SkipTo(s, acc, Least(s));
      BelowGap(acc, s.next, Least(s));
    }
  }

  /** Nothing accepted lies between next and the lowest packet held. */
  lemma SkipTo(s: State, acc: map<nat, bytes>, m: nat)
    requires s.buffer == acc - Range(0, s.next) && s.next <= m && forall k :: k in s.buffer ==> k >= m
    ensures forall k :: s.next <= k < m ==> k !in acc
    ensures acc - Range(0, m) == acc - Range(0, s.next)
    ensures Range(0, m) - acc.Keys == Range(0, s.next) - acc.Keys + Range(s.next, m)
  {
    hide Range;
    forall k | s.next <= k < m ensures k !in acc {
      assert k in acc ==> k in s.buffer;
    }
    SplitAt(acc.Keys, s.next, m);
    SameWithout(acc, s.next, m);
  }

  lemma SplitAt(keys: set<nat>, lo: nat, m: nat)
    requires lo <= m && forall k :: lo <= k < m ==> k !in keys
    ensures Range(0, m) - keys == Range(0, lo) - keys + Range(lo, m)
  {
    hide Range;
  }

  lemma SameWithout(acc: map<nat, bytes>, lo: nat, m: nat)
    requires lo <= m && forall k :: lo <= k < m ==> k !in acc
    ensures acc - Range(0, m) == acc - Range(0, lo)
  {
    hide Range;
    forall k | k in acc ensures k in Range(0, m) <==> k in Range(0, lo) { }
  }

  /** One step keeps the books. */
  lemma LedgerStep(window: nat, s: State, e: Event, acc: map<nat, bytes>, out: seq<Numbered>, skipped: set<nat>)
    requires Inv(window, s) && Ledger(s, acc, out, skipped)
    ensures Inv(window, Step(window, s, e).0)
    ensures var acc' := if e.Arrive? && !s.IsDuplicate(e.q) then acc[e.q := e.payload] else acc;
            Ledger(Step(window, s, e).0, acc', out + Step(window, s, e).1, skipped + GivenUp(s, e))
  {
    hide Ledger, Inv, InsertStep, SkipGap, DeliverStep;
    match e
    case Arrive(q, payload, now) =>
      InvInsert(window, s, q, payload, now);
      LedgerArrive(window, s, acc, out, skipped, q, payload, now);
      assert skipped + {} == skipped;
    case Check(now) =>
      InvCheck(window, s, now);
      LedgerSkip(window, s, acc, out, skipped, now);
      LedgerDeliver(SkipGap(window, s, now), acc, out, skipped + GivenUp(s, e));
    case SetTimeout(timeoutMs) =>
      TimeoutKeepsBooks(window, s, timeoutMs, acc, out, skipped);
      assert out + [] == out && skipped + {} == skipped;
  }

  lemma TimeoutKeepsBooks(window: nat, s: State, timeoutMs: real, acc: map<nat, bytes>, out: seq<Numbered>,
                          skipped: set<nat>)
    requires Inv(window, s) && Ledger(s, acc, out, skipped)
    ensures var t := s.(timeoutMs := timeoutMs); Inv(window, t) && Ledger(t, acc, out, skipped)
  {
  }

  lemma LedgerArrive(window: nat, s: State, acc: map<nat, bytes>, out: seq<Numbered>, skipped: set<nat>,
                     q: nat, payload: bytes, now: real)
    requires Ledger(s, acc, out, skipped)
    ensures var (t, more) := InsertStep(window, s, q, payload, now);
            Ledger(t, if s.IsDuplicate(q) then acc else acc[q := payload], out + more, skipped)
  {
    if s.IsDuplicate(q) {
      assert out + [] == out;
    } else {
      LedgerAccept(window, s, acc, out, skipped, q, payload, now);
      LedgerDeliver(Accept(window, s, q, payload, now), acc[q := payload], out, skipped);
    }
  }

  /** Conservation: the books balance after every run. */
  lemma {:induction false} Conservation(window: nat, t0: real, es: seq<Event>)
    ensures Inv(window, After(window, t0, es))
    ensures Ledger(After(window, t0, es), Accepted(window, t0, es), Out(window, t0, es), Skipped(window, t0, es))
  {
    if es != [] {
      var n := |es| - 1;
      Conservation(window, t0, es[..n]);
      LedgerStep(window, After(window, t0, es[..n]), es[n],
                 Accepted(window, t0, es[..n]), Out(window, t0, es[..n]), Skipped(window, t0, es[..n]));
    }
  }

  /** In the reader's terms: what went out is strictly ascending, ... */
  lemma {:induction false} BelowAscends(acc: map<nat, bytes>, n: nat)
    ensures forall r :: r in Below(acc, n) ==> r.0 < n
    ensures forall i, j :: 0 <= i < j < |Below(acc, n)| ==> Below(acc, n)[i].0 < Below(acc, n)[j].0
  {
    if n > 0 { BelowAscends(acc, n - 1); }
  }

  /** ... it is exactly what was accepted below next, ... */
  lemma {:induction false} BelowIsAccepted(acc: map<nat, bytes>, n: nat, r: Numbered)
    ensures r in Below(acc, n) <==> r.0 in acc && r.0 < n && r.1 == acc[r.0]
  {
    if n > 0 { BelowIsAccepted(acc, n - 1, r); }
  }

  /** ... and together with what is held it is everything accepted. */
  lemma {:induction false} BelowCount(acc: map<nat, bytes>, n: nat)
    ensures |acc| == |Below(acc, n)| + |KeysFrom(acc, n)|
  {
    hide KeysFrom;
    if n > 0 {
      BelowCount(acc, n - 1);
      KeysFromOne(acc, n - 1);
    } else {
      KeysFromZero(acc);
    }
  }

  lemma KeysFromOne(acc: map<nat, bytes>, n: nat)
    ensures |KeysFrom(acc, n)| == |KeysFrom(acc, n + 1)| + if n in acc then 1 else 0
  {
    if n in acc {
      assert KeysFrom(acc, n) == KeysFrom(acc, n + 1) + {n};
    } else {
      assert KeysFrom(acc, n) == KeysFrom(acc, n + 1);
    }
  }

  lemma KeysFromZero(acc: map<nat, bytes>)
    ensures |KeysFrom(acc, 0)| == |acc|
  {
    assert KeysFrom(acc, 0) == acc.Keys;
    assert |acc.Keys| == |acc|;
  }

  /** Pruning never changes an answer: a packet is a duplicate exactly if it was accepted before or given up. */
  lemma DuplicateMeansSeenOrSkipped(window: nat, t0: real, es: seq<Event>, q: nat)
    ensures After(window, t0, es).IsDuplicate(q)
            <==> q in Accepted(window, t0, es) || q in Skipped(window, t0, es)
  {
    Conservation(window, t0, es);
    assert q < After(window, t0, es).next <==> q in Range(0, After(window, t0, es).next);
  }

  lemma AcceptedMore(window: nat, t0: real, es: seq<Event>, more: seq<Event>)
    requires |more| <= 1
    ensures Accepted(window, t0, es + more)
            == if more != [] && more[0].Arrive? && !After(window, t0, es).IsDuplicate(more[0].q)
               then Accepted(window, t0, es)[more[0].q := more[0].payload] else Accepted(window, t0, es)
  {
    if more == [] {
      assert es + more == es;
    } else {
      assert (es + more)[..|es|] == es && (es + more)[|es|] == more[0];
    }
  }

  lemma NothingAccepted(window: nat, t0: real)
    ensures Accepted(window, t0, []) == map[]
  {
  }

  /** The payload of the first arrival of each number. */
  ghost function First(es: seq<Event>): map<nat, bytes> {
    if es == [] then map[] else
      var n := |es| - 1;
      if es[n].Arrive? && es[n].q !in First(es[..n]) then First(es[..n])[es[n].q := es[n].payload] else First(es[..n])
  }

  /** The first arrival wins: a number is accepted with its first payload, or given up before it came. */
  lemma {:induction false} FirstArrivalWins(window: nat, t0: real, es: seq<Event>)
    ensures var acc, skipped := Accepted(window, t0, es), Skipped(window, t0, es);
            && (forall q :: q in acc ==> q in First(es) && acc[q] == First(es)[q])
            && (forall q :: q in First(es) ==> q in acc || q in skipped)
  {
    if es != [] {
      var n := |es| - 1;
      FirstArrivalWins(window, t0, es[..n]);
      if es[n].Arrive? { DuplicateMeansSeenOrSkipped(window, t0, es[..n], es[n].q); }
    }
  }

  // ---------- confluence ----------

  ghost predicate ArrivalsOnly(es: seq<Event>) {
    forall e :: e in es ==> e.Arrive?
  }

  lemma {:induction false} NothingSkipped(window: nat, t0: real, es: seq<Event>)
    requires ArrivalsOnly(es)
    ensures Skipped(window, t0, es) == {}
  {
    if es != [] {
      NothingSkipped(window, t0, es[..|es| - 1]);
      assert es[|es| - 1] in es;
    }
  }

  lemma {:induction false} BelowAll(acc: map<nat, bytes>, n: nat)
    requires forall k :: 0 <= k < n ==> k in acc
    ensures |Below(acc, n)| == n && forall i :: 0 <= i < n ==> Below(acc, n)[i] == Packet(acc, i)
  {
    if n > 0 { BelowAll(acc, n - 1); }
  }

  /**
   Without timeouts, any arrival order with any repeats delivers exactly the payloads of 0, ..., m - 1 in order,
   where m is the least number that never arrived; the first arrival's payload wins and the rest stays buffered.
   */
  lemma Confluence(window: nat, t0: real, es: seq<Event>)
    requires ArrivalsOnly(es)
    ensures var s, out, first := After(window, t0, es), Out(window, t0, es), First(es);
            && s.next !in first && (forall k :: 0 <= k < s.next ==> k in first)
            && |out| == s.next && (forall i :: 0 <= i < s.next ==> out[i] == (i, first[i]))
            && s.buffer == first - Range(0, s.next)
  {
    hide First, Accepted, Skipped, Out, After;
    Conservation(window, t0, es);
    FirstArrivalWins(window, t0, es);
    NothingSkipped(window, t0, es);
    var acc, first := Accepted(window, t0, es), First(es);
    assert acc == first by {
      assert forall q :: q in acc.Keys <==> q in first.Keys;
    }
    NoGaps(After(window, t0, es), acc, Out(window, t0, es));
  }

  lemma NoGaps(s: State, acc: map<nat, bytes>, out: seq<Numbered>)
    requires Ledger(s, acc, out, {}) && s.next !in s.buffer
    ensures s.next !in acc && (forall k :: 0 <= k < s.next ==> k in acc)
    ensures |out| == s.next && (forall i :: 0 <= i < s.next ==> out[i] == (i, acc[i]))
  {
    forall k | 0 <= k < s.next ensures k in acc {
      assert k in Range(0, s.next);
    }
    BelowAll(acc, s.next);
    assert s.next !in Range(0, s.next);
  }

  lemma SameGap(first: map<nat, bytes>, m: nat, n: nat)
    requires m !in first && n !in first
    requires (forall k :: 0 <= k < m ==> k in first) && (forall k :: 0 <= k < n ==> k in first)
    ensures m == n
  {
  }

  /** Two arrival orders with the same first payloads deliver the same stream and leave the same buffer. */
  lemma OrderDoesNotMatter(window: nat, t0: real, es: seq<Event>, fs: seq<Event>)
    requires ArrivalsOnly(es) && ArrivalsOnly(fs) && First(es) == First(fs)
    ensures Out(window, t0, es) == Out(window, t0, fs)
    ensures After(window, t0, es).buffer == After(window, t0, fs).buffer
    ensures After(window, t0, es).next == After(window, t0, fs).next
  {
    Confluence(window, t0, es);
    Confluence(window, t0, fs);
    SameGap(First(es), After(window, t0, es).next, After(window, t0, fs).next);
  }

  // ---------- draining ----------

  /** A check gives numbers up exactly if the lowest packet buffered has waited as long as the timeout or longer. */
  lemma SkipsExactlyWhenAged(window: nat, s: State, now: real)
    requires Inv(window, s)
    ensures GivenUp(s, Check(now)) != {} <==>
              s.buffer != map[] && now - s.stamps[Least(s)] >= s.timeoutMs / 1000.0
    ensures GivenUp(s, Check(now)) != {} ==> GivenUp(s, Check(now)) == Range(s.next, Least(s))
  {
    if s.buffer != map[] && Aged(s, now) {
      assert s.next in Range(s.next, Least(s));
    }
  }

  /** When each packet was accepted. */
  ghost function AcceptedAt(window: nat, t0: real, es: seq<Event>): map<nat, real> {
    if es == [] then map[] else
      var n := |es| - 1;
      var at := AcceptedAt(window, t0, es[..n]);
      if es[n].Arrive? && !After(window, t0, es[..n]).IsDuplicate(es[n].q) then at[es[n].q := es[n].now] else at
  }

  ghost predicate StampedAt(s: State, at: map<nat, real>) {
    s.stamps.Keys == s.buffer.Keys && forall q :: q in s.stamps ==> q in at && s.stamps[q] == at[q]
  }

  lemma StampedAtStep(window: nat, s: State, e: Event, at: map<nat, real>)
    requires StampedAt(s, at)
    ensures StampedAt(Step(window, s, e).0,
                      if e.Arrive? && !s.IsDuplicate(e.q) then at[e.q := e.now] else at)
  {
    hide FlushRange, Pruned;
  }

  /** What is held carries the time of its arrival. */
  lemma {:induction false} StampsAreArrivals(window: nat, t0: real, es: seq<Event>)
    ensures StampedAt(After(window, t0, es), AcceptedAt(window, t0, es))
    ensures AcceptedAt(window, t0, es).Keys == Accepted(window, t0, es).Keys
  {
    if es != [] {
      hide Step, StampedAt;
      var n := |es| - 1;
      StampsAreArrivals(window, t0, es[..n]);
      StampedAtStep(window, After(window, t0, es[..n]), es[n], AcceptedAt(window, t0, es[..n]));
    } else {
      NothingStamped(t0);
    }
  }

  lemma NothingStamped(t0: real)
    ensures StampedAt(Init(t0), map[])
  {
  }

  /** The lowest number accepted and not yet delivered. */
  ghost predicate LowestWaiting(window: nat, t0: real, es: seq<Event>, q: nat) {
    && q in Accepted(window, t0, es) && (forall r :: r in Out(window, t0, es) ==> r.0 != q)
    && forall k :: k in Accepted(window, t0, es) && k < q ==> exists r :: r in Out(window, t0, es) && r.0 == k
  }

  /** Held is what was accepted and not delivered. */
  lemma HeldIsWaiting(window: nat, t0: real, es: seq<Event>, k: nat)
    ensures k in After(window, t0, es).buffer <==>
              k in Accepted(window, t0, es) && forall r :: r in Out(window, t0, es) ==> r.0 != k
  {
    hide Out, Accepted, After, Skipped, Inv;
    Conservation(window, t0, es);
    var s, acc := After(window, t0, es), Accepted(window, t0, es);
    if k in acc {
      BelowIsAccepted(acc, s.next, (k, acc[k]));
      assert Out(window, t0, es) == Below(acc, s.next);
      forall r | r in Out(window, t0, es) ensures r.0 < s.next { BelowIsAccepted(acc, s.next, r); }
    }
  }

  predicate WaitedFor(at: map<nat, real>, q: nat, now: real, timeoutMs: real) {
    q in at && now - at[q] >= timeoutMs / 1000.0
  }

  /**
   A timeout is never early and never late: with the timeout never changed, a check gives numbers up if and only if
   some packet waits, and the lowest one that waits was accepted as long as the timeout before, or longer.
   */
  lemma GivesUpInTime(window: nat, t0: real, es: seq<Event>, now: real)
    requires forall e :: e in es ==> !e.SetTimeout?
    ensures Skipped(window, t0, es + [Check(now)]) != Skipped(window, t0, es) <==>
              exists q :: LowestWaiting(window, t0, es, q) && WaitedFor(AcceptedAt(window, t0, es), q, now, t0)
  {
    hide After, Accepted, Out, Skipped, AcceptedAt, GivenUp, LowestWaiting, Inv;
    var s := After(window, t0, es);
    Conservation(window, t0, es);
    StampsAreArrivals(window, t0, es);
    TimeoutStays(window, t0, es);
    SkipsExactlyWhenAged(window, s, now);
    SkippedByCheck(window, t0, es, now);
    var before, more := Skipped(window, t0, es), GivenUp(s, Check(now));
    if more == {} { assert before + more == before; }
    if s.buffer != map[] {
      LeastIsLowest(window, t0, es, Least(s));
      assert s.stamps[Least(s)] == AcceptedAt(window, t0, es)[Least(s)];
    }
    if q :| LowestWaiting(window, t0, es, q) && WaitedFor(AcceptedAt(window, t0, es), q, now, t0) {
      LeastIsLowest(window, t0, es, q);
    }
  }

  /** The lowest number waiting is the least one held. */
  lemma LeastIsLowest(window: nat, t0: real, es: seq<Event>, q: nat)
    ensures LowestWaiting(window, t0, es, q) <==>
              After(window, t0, es).buffer != map[] && q == Least(After(window, t0, es))
  {
    hide After, Accepted, Out;
    var s := After(window, t0, es);
    HeldIsWaiting(window, t0, es, q);
    forall k ensures k in s.buffer <==>
                     k in Accepted(window, t0, es) && forall r :: r in Out(window, t0, es) ==> r.0 != k
    {
      HeldIsWaiting(window, t0, es, k);
    }
  }

  lemma {:induction false} TimeoutStays(window: nat, t0: real, es: seq<Event>)
    requires forall e :: e in es ==> !e.SetTimeout?
    ensures After(window, t0, es).timeoutMs == t0
  {
    if es != [] {
      hide Step;
      var n := |es| - 1;
      assert forall e :: e in es[..n] ==> e in es;
      TimeoutStays(window, t0, es[..n]);
      assert es[n] in es;
      SameTimeout(window, After(window, t0, es[..n]), es[n]);
    }
  }

  lemma SameTimeout(window: nat, s: State, e: Event)
    requires !e.SetTimeout?
    ensures Step(window, s, e).0.timeoutMs == s.timeoutMs
  {
    hide FlushRange, Pruned;
  }

  lemma SkippedByCheck(window: nat, t0: real, es: seq<Event>, now: real)
    ensures var more := GivenUp(After(window, t0, es), Check(now));
            Skipped(window, t0, es + [Check(now)]) == Skipped(window, t0, es) + more
    ensures var more := GivenUp(After(window, t0, es), Check(now));
            more == {} || exists q :: q in more && q !in Skipped(window, t0, es)
  {
    hide After, Accepted, Out, Inv;
    assert (es + [Check(now)])[..|es|] == es;
    Conservation(window, t0, es);
    var s := After(window, t0, es);
    if GivenUp(s, Check(now)) != {} {
      assert s.next in GivenUp(s, Check(now)) && s.next !in Skipped(window, t0, es);
    }
  }

  /** Everything buffered has waited past the timeout. */
  ghost predicate AllAged(s: State, now: real) {
    forall k :: k in s.stamps ==> s.stamps[k] <= s.Cutoff(now)
  }

  /** The least keys of a buffer, as far as they are consecutive, come first in the ascending listing. */
  lemma {:induction false} BelowSplit(buffer: map<nat, bytes>, lo: nat, hi: nat, n: nat)
    requires lo <= hi <= n && (forall k :: lo <= k < hi ==> k in buffer) && (forall k :: k in buffer ==> k >= lo)
    ensures Below(buffer, n) == Slice(buffer, lo, hi) + Below(buffer - Range(lo, hi), n)
  {
    hide Slice;
    if n == hi {
      BelowConsecutive(buffer, lo, hi);
    } else {
      BelowSplit(buffer, lo, hi, n - 1);
    }
  }

  lemma BelowConsecutive(buffer: map<nat, bytes>, lo: nat, hi: nat)
    requires lo <= hi && (forall k :: lo <= k < hi ==> k in buffer) && (forall k :: k in buffer ==> k >= lo)
    ensures Below(buffer, hi) == Slice(buffer, lo, hi) + Below(buffer - Range(lo, hi), hi)
  {
    BelowSlice(buffer, buffer, lo, hi);
    BelowGap(buffer, 0, lo);
    BelowGap(buffer - Range(lo, hi), 0, hi);
  }

  /** n lies beyond every packet held. */
  ghost predicate Bounds(s: State, n: nat) {
    forall k :: k in s.buffer ==> k < n
  }

  /** One check of an aged, non-empty buffer releases at least its lowest packet, lowest first. */
  lemma CheckReleases(window: nat, s: State, now: real, n: nat)
    requires Inv(window, s) && AllAged(s, now) && s.buffer != map[] && Bounds(s, n)
    ensures var (t, out) := CheckStep(window, s, now);
            && out != [] && out[0].0 == Least(s) && |t.buffer| < |s.buffer|
            && AllAged(t, now) && Bounds(t, n)
    ensures Below(s.buffer, n) == CheckStep(window, s, now).1 + Below(CheckStep(window, s, now).0.buffer, n)
  {
    var s1 := SkipGap(window, s, now);
    assert s1.next == Least(s) && s1.buffer == s.buffer;
    var m := GapFrom(s.buffer, s1.next);
    assert m > s1.next && s1.next in Range(s1.next, m);
    assert m - 1 in s.buffer;
    BelowSplit(s.buffer, s1.next, m, n);
    var t := CheckStep(window, s, now).0;
    assert t.buffer == s.buffer - Range(s1.next, m);
    ProperSubsetSize(t.buffer.Keys, s.buffer.Keys, s1.next);
    assert |t.buffer.Keys| == |t.buffer| && |s.buffer.Keys| == |s.buffer|;
  }

  lemma CheckOfEmpty(window: nat, s: State, now: real)
    requires s.buffer == map[]
    ensures var (t, out) := CheckStep(window, s, now);
            t.buffer == map[] && out == []
  {
  }

  /** The state after one check at each reading of the clock, and what the checks deliver. */
  ghost function ChecksState(window: nat, s: State, nows: seq<real>): State
    decreases |nows|
  {
    if nows == [] then s else ChecksState(window, CheckStep(window, s, nows[0]).0, nows[1..])
  }

  ghost function ChecksOut(window: nat, s: State, nows: seq<real>): seq<Numbered>
    decreases |nows|
  {
    if nows == [] then [] else
      CheckStep(window, s, nows[0]).1 + ChecksOut(window, CheckStep(window, s, nows[0]).0, nows[1..])
  }

  /** The clock never goes back. */
  ghost predicate Ascending(nows: seq<real>) {
    forall i, j :: 0 <= i < j < |nows| ==> nows[i] <= nows[j]
  }

  lemma {:induction false} ChecksOfEmpty(window: nat, s: State, nows: seq<real>)
    requires s.buffer == map[]
    ensures ChecksState(window, s, nows).buffer == map[]
    ensures ChecksOut(window, s, nows) == []
    decreases |nows|
  {
    if nows != [] {
      CheckOfEmpty(window, s, nows[0]);
      ChecksOfEmpty(window, CheckStep(window, s, nows[0]).0, nows[1..]);
    }
  }

  lemma StillAged(s: State, now: real, later: real)
    requires AllAged(s, now) && now <= later
    ensures AllAged(s, later)
  {
  }

  /**
   Once everything has aged at the first reading of the clock, as many checks as there are packets, each with its
   own reading, empty the buffer in ascending order.
   */
  lemma {:induction false} ChecksDrain(window: nat, s: State, nows: seq<real>, bound: nat)
    requires Inv(window, s) && Ascending(nows) && |nows| >= |s.buffer| && Bounds(s, bound)
    requires nows != [] ==> AllAged(s, nows[0])
    ensures ChecksState(window, s, nows).buffer == map[]
    ensures ChecksOut(window, s, nows) == Below(s.buffer, bound)
    decreases |nows|
  {
    hide CheckStep, Inv, AllAged;
    if s.buffer != map[] {
      InvCheck(window, s, nows[0]);
      CheckReleases(window, s, nows[0], bound);
      var t := CheckStep(window, s, nows[0]).0;
      if |nows| > 1 { StillAged(t, nows[0], nows[1]); }
      ChecksDrain(window, t, nows[1..], bound);
    } else {
      ChecksOfEmpty(window, s, nows);
      BelowGap(s.buffer, 0, bound);
    }
  }

  // ---------- draining at the end of a run ----------

  /** A check at each reading. */
  function Checks(nows: seq<real>): (es: seq<Event>)
    ensures |es| == |nows| && forall i :: 0 <= i < |es| ==> es[i] == Check(nows[i])
  {
    if nows == [] then [] else Checks(nows[..|nows| - 1]) + [Check(nows[|nows| - 1])]
  }

  lemma OneCheck(window: nat, t0: real, es: seq<Event>, now: real)
    ensures After(window, t0, es + [Check(now)]) == CheckStep(window, After(window, t0, es), now).0
    ensures Out(window, t0, es + [Check(now)]) == Out(window, t0, es) + CheckStep(window, After(window, t0, es), now).1
    ensures Accepted(window, t0, es + [Check(now)]) == Accepted(window, t0, es)
  {
    hide CheckStep;
    assert (es + [Check(now)])[..|es|] == es;
  }

  lemma {:induction false} ChecksAtTheEnd(window: nat, t0: real, es: seq<Event>, nows: seq<real>)
    ensures After(window, t0, es + Checks(nows)) == ChecksState(window, After(window, t0, es), nows)
    ensures Accepted(window, t0, es + Checks(nows)) == Accepted(window, t0, es)
    decreases |nows|
  {
    hide After, Accepted, CheckStep;
    if nows == [] {
      assert es + Checks(nows) == es;
    } else {
      var first := es + [Check(nows[0])];
      assert es + Checks(nows) == first + Checks(nows[1..]);
      OneCheck(window, t0, es, nows[0]);
      ChecksAtTheEnd(window, t0, first, nows[1..]);
    }
  }

  lemma {:induction false} KeysBounded(keys: set<nat>) returns (n: nat)
    ensures forall k :: k in keys ==> k < n
  {
    if keys == {} {
      n := 0;
    } else {
      var k :| k in keys;
      var m := KeysBounded(keys - {k});
      n := if m <= k then k + 1 else m;
      assert forall x :: x in keys ==> x == k || x in keys - {k};
    }
  }

  /** With as many checks as packets held, all aged, everything accepted goes out. */
  lemma RunDrains(window: nat, t0: real, es: seq<Event>, nows: seq<real>)
    requires Ascending(nows) && |nows| >= |After(window, t0, es).buffer|
    requires nows != [] ==> AllAged(After(window, t0, es), nows[0])
    ensures var all := es + Checks(nows);
            && After(window, t0, all).buffer == map[]
            && forall r :: r in Out(window, t0, all) <==>
                 r.0 in Accepted(window, t0, es) && r.1 == Accepted(window, t0, es)[r.0]
  {
    hide After, Accepted, Out, AllAged, Inv, ChecksState, ChecksOut, Skipped;
    var s, all := After(window, t0, es), es + Checks(nows);
    var bound := KeysBounded(s.buffer.Keys);
    Conservation(window, t0, es);
    ChecksDrain(window, s, nows, bound);
    ChecksAtTheEnd(window, t0, es, nows);
    Conservation(window, t0, all);
    AllBelow(After(window, t0, all), Accepted(window, t0, all), Out(window, t0, all), Skipped(window, t0, all));
  }

  lemma AllBelow(s: State, acc: map<nat, bytes>, out: seq<Numbered>, skipped: set<nat>)
    requires Ledger(s, acc, out, skipped) && s.buffer == map[]
    ensures forall r :: r in out <==> r.0 in acc && r.1 == acc[r.0]
  {
    forall r: Numbered ensures r in out <==> r.0 in acc && r.1 == acc[r.0] {
      BelowIsAccepted(acc, s.next, r);
      if r.0 in acc && r.0 >= s.next { assert r.0 in s.buffer; }
    }
  }

  /** What is held was stamped at some arrival, and the timeout stays what it was. */
  ghost predicate StampedBy(s: State, t0: real, latest: real) {
    s.timeoutMs == t0 && forall k :: k in s.stamps ==> s.stamps[k] <= latest
  }

  lemma {:induction false} StampsOfRun(window: nat, t0: real, es: seq<Event>, latest: real)
    requires forall e :: e in es ==> !e.SetTimeout? && e.now <= latest
    ensures StampedBy(After(window, t0, es), t0, latest)
  {
    if es != [] {
      hide Step, StampedBy;
      var n := |es| - 1;
      assert forall e :: e in es[..n] ==> e in es;
      StampsOfRun(window, t0, es[..n], latest);
      assert es[n] in es;
      StampedMore(window, After(window, t0, es[..n]), es[n], t0, latest);
    }
  }

  lemma StampedMore(window: nat, s: State, e: Event, t0: real, latest: real)
    requires StampedBy(s, t0, latest) && !e.SetTimeout? && e.now <= latest
    ensures StampedBy(Step(window, s, e).0, t0, latest)
  {
    hide FlushRange, Pruned;
  }

  lemma {:induction false} FewAccepted(window: nat, t0: real, es: seq<Event>)
    ensures |Accepted(window, t0, es)| <= |es|
  {
    if es != [] {
      hide After;
      var n := |es| - 1;
      FewAccepted(window, t0, es[..n]);
      var acc, more := Accepted(window, t0, es[..n]), Accepted(window, t0, es);
      if more != acc { assert more.Keys == acc.Keys + {es[n].q} && |more.Keys| == |more| && |acc.Keys| == |acc|; }
    }
  }

  lemma FewHeld(window: nat, t0: real, es: seq<Event>)
    ensures |After(window, t0, es).buffer| <= |es|
  {
    Conservation(window, t0, es);
    FewAccepted(window, t0, es);
    var buffer, acc := After(window, t0, es).buffer, Accepted(window, t0, es);
    SubsetSize(buffer.Keys, acc.Keys);
    assert |buffer.Keys| == |buffer| && |acc.Keys| == |acc|;
  }
}
