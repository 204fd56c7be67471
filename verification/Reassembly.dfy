/** The older server's reassembly: each subflow has a handler, and others run while one awaits a delivery. */
module Reassembly {
  import opened Collections
  import opened Bytes

  datatype State = State(
    buffer: map<nat, bytes>,
    next: nat,
    delivering: set<nat>,            // handlers suspended in a delivery
    log: seq<(nat, bytes)>)          // deliveries begun: number and data

  const INIT := State(map[], 0, {}, [])

  datatype Event =
    | Receive(handler: nat, q: nat, payload: bytes)   // read a packet and run until the first suspension
    | Resume(handler: nat)                            // the awaited delivery is over; run on
    | Fail(handler: nat)                              // the awaited delivery raises; the handler ends

  /** The guard of the delivery loop, and its body up to the await. */
  function Deliver(s: State, handler: nat): State {
    if s.next in s.buffer then
      s.(buffer := s.buffer - {s.next}, delivering := s.delivering + {handler},
         log := s.log + [(s.next, s.buffer[s.next])])
    else s
  }

  function Step(s: State, e: Event): State {
    match e
    case Receive(handler, q, payload) => Deliver(s.(buffer := s.buffer[q := payload]), handler)
    case Resume(handler) => Deliver(s.(delivering := s.delivering - {handler}, next := s.next + 1), handler)
    case Fail(handler) => s.(delivering := s.delivering - {handler})
  }

  /** A handler reads only when it is not suspended, and resumes only when it is. */
  predicate Enabled(s: State, e: Event) {
    match e
    case Receive(handler, _, _) => handler !in s.delivering
    case Resume(handler) => handler in s.delivering
    case Fail(handler) => handler in s.delivering
  }

  function Run(es: seq<Event>): State {
    if es == [] then INIT else Step(Run(es[..|es| - 1]), es[|es| - 1])
  }

  predicate Schedule(es: seq<Event>) {
    es != [] ==> Schedule(es[..|es| - 1]) && Enabled(Run(es[..|es| - 1]), es[|es| - 1])
  }

  // ---------- the object ----------

  class Session {
    var reassemblyBuffer: map<nat, bytes>
    var nextExpectedSeq: nat
    ghost var delivering: set<nat>
    ghost var log: seq<(nat, bytes)>

    ghost function Model(): State
      reads this
    {
      State(reassemblyBuffer, nextExpectedSeq, delivering, log)
    }

    constructor ()
      ensures Model() == INIT
    {
      reassemblyBuffer, nextExpectedSeq, delivering, log := map[], 0, {}, [];
    }

    /** From the arrival of a packet to the first await; data is what is being delivered, if anything. */
    method OnPacket(handler: nat, q: nat, payload: bytes) returns (data: Option<bytes>)
      modifies this
      ensures Model() == Step(old(Model()), Receive(handler, q, payload))
      ensures log == old(log) + if data.Some? then [(old(nextExpectedSeq), data.value)] else []
    {
      reassemblyBuffer := reassemblyBuffer[q := payload];
      data := TryDeliver(handler);
    }

    /** From the end of a delivery to the next await. */
    method OnDelivered(handler: nat) returns (data: Option<bytes>)
      modifies this
      ensures Model() == Step(old(Model()), Resume(handler))
      ensures log == old(log) + if data.Some? then [(old(nextExpectedSeq) + 1, data.value)] else []
    {
      delivering := delivering - {handler};
      nextExpectedSeq := nextExpectedSeq + 1;
      data := TryDeliver(handler);
    }

    /** A delivery that raises: the packet was popped, and the expected number stays. */
    method OnFailure(handler: nat)
      modifies this
      ensures Model() == Step(old(Model()), Fail(handler))
    {
      delivering := delivering - {handler};
    }

    method TryDeliver(handler: nat) returns (data: Option<bytes>)
      modifies this
      ensures Model() == Deliver(old(Model()), handler)
      ensures nextExpectedSeq == old(nextExpectedSeq)
      ensures log == old(log) + if data.Some? then [(nextExpectedSeq, data.value)] else []
    {
      data := None;
      if nextExpectedSeq in reassemblyBuffer {
        data := Some(reassemblyBuffer[nextExpectedSeq]);
        reassemblyBuffer := reassemblyBuffer - {nextExpectedSeq};
        delivering := delivering + {handler};
        log := log + [(nextExpectedSeq, data.value)];
      }
    }
  }

  // ---------- when the stream is right ----------

  /** The stream so far is 0, 1, 2, ... with no skip and no repeat. */
  ghost predicate Exact(log: seq<(nat, bytes)>) {
    forall i :: 0 <= i < |log| ==> log[i].0 == i
  }

  /** The expected packet arrives once more although its delivery has begun, and has not ended or has failed. */
  predicate Overlaps(s: State, e: Event) {
    e.Receive? && |s.log| == s.next + 1 && e.q == s.next
  }

  predicate NoOverlap(es: seq<Event>) {
    es != [] ==> NoOverlap(es[..|es| - 1]) && !Overlaps(Run(es[..|es| - 1]), es[|es| - 1])
  }

  /** At most one handler is mid-delivery, the stream is exact, and the next packet is not lying around. */
  ghost predicate Inv(s: State) {
    && (s.delivering == {} || exists h :: s.delivering == {h})
    && s.next <= |s.log| <= s.next + 1
    && (s.delivering != {} ==> |s.log| == s.next + 1)
    && Exact(s.log)
    && s.next !in s.buffer
  }

  lemma InvStep(s: State, e: Event)
    requires Inv(s) && Enabled(s, e) && !Overlaps(s, e)
    ensures Inv(Step(s, e))
  {
    match e
    case Receive(handler, q, _) =>
      if q == s.next {
        assert Step(s, e).delivering == {handler};
      }
    case Resume(handler) =>
      var h :| s.delivering == {h};
      assert handler in {h};
      assert s.delivering - {handler} == {};
      if s.next + 1 in s.buffer {
        assert Step(s, e).delivering == {handler};
      }
    case Fail(handler) =>
      var h :| s.delivering == {h};
      assert handler in {h};
      assert s.delivering - {handler} == {};
  }

  lemma {:induction false} InvRun(es: seq<Event>)
    requires Schedule(es) && NoOverlap(es)
    ensures Inv(Run(es))
  {
    if es != [] {
      InvRun(es[..|es| - 1]);
      InvStep(Run(es[..|es| - 1]), es[|es| - 1]);
    }
  }

  lemma LogGrows(s: State, e: Event)
    ensures s.log <= Step(s, e).log
  {
  }

  /**
   For every schedule of any number of handlers: the delivered stream is 0, 1, 2, ... exactly when no packet
   arrives again while it is being delivered.
   */
  lemma {:induction false} ExactWhenNoOverlap(es: seq<Event>)
    requires Schedule(es)
    ensures Exact(Run(es).log) <==> NoOverlap(es)
  {
    if es != [] {
      var init, e := es[..|es| - 1], es[|es| - 1];
      var s := Run(init);
      ExactWhenNoOverlap(init);
      LogGrows(s, e);
      if NoOverlap(init) {
        InvRun(init);
        if Overlaps(s, e) {
          var log := Step(s, e).log;
          assert log[s.next + 1].0 == s.next;
        } else {
          InvStep(s, e);
        }
      } else {
        var i :| 0 <= i < |s.log| && s.log[i].0 != i;
        assert Step(s, e).log[i] == s.log[i];
      }
    }
  }

  // ---------- received at most once ----------

  ghost predicate ReceivedIn(es: seq<Event>, q: nat, payload: bytes) {
    exists k :: 0 <= k < |es| && es[k].Receive? && es[k].q == q && es[k].payload == payload
  }

  ghost predicate AnyReceived(es: seq<Event>, q: nat) {
    exists k :: 0 <= k < |es| && es[k].Receive? && es[k].q == q
  }

  /** No number arrives twice: what holds when no packet is injected again on another path. */
  ghost predicate AtMostOnce(es: seq<Event>) {
    forall j, k :: 0 <= j < k < |es| && es[j].Receive? && es[k].Receive? ==> es[j].q != es[k].q
  }

  lemma ReceivedEarlier(es: seq<Event>, q: nat, payload: bytes)
    requires es != [] && ReceivedIn(es[..|es| - 1], q, payload)
    ensures ReceivedIn(es, q, payload) && AnyReceived(es[..|es| - 1], q)
  {
    var k :| 0 <= k < |es| - 1 && es[..|es| - 1][k].Receive? && es[..|es| - 1][k].q == q
             && es[..|es| - 1][k].payload == payload;
    assert es[k].Receive?;
  }

  /** Everything buffered or delivered was received with that number and payload. */
  lemma {:induction false} NothingInvented(es: seq<Event>)
    ensures forall q :: q in Run(es).buffer ==> ReceivedIn(es, q, Run(es).buffer[q])
    ensures forall r :: r in Run(es).log ==> ReceivedIn(es, r.0, r.1)
  {
    if es != [] {
      var init, e := es[..|es| - 1], es[|es| - 1];
      var s := Run(init);
      NothingInvented(init);
      forall q | q in s.buffer ensures ReceivedIn(es, q, s.buffer[q]) {
        ReceivedEarlier(es, q, s.buffer[q]);
      }
      forall r | r in s.log ensures ReceivedIn(es, r.0, r.1) {
        ReceivedEarlier(es, r.0, r.1);
      }
      if e.Receive? {
        assert es[|es| - 1].Receive?;
        assert ReceivedIn(es, e.q, e.payload);
      }
    }
  }

  /** An overlapping arrival is the second one of its number. */
  lemma OverlapIsRepeat(es: seq<Event>)
    requires es != [] && Inv(Run(es[..|es| - 1])) && Overlaps(Run(es[..|es| - 1]), es[|es| - 1])
    ensures !AtMostOnce(es)
  {
    var init, e := es[..|es| - 1], es[|es| - 1];
    var s := Run(init);
    NothingInvented(init);
    assert s.log[s.next] in s.log;
    var k :| 0 <= k < |init| && init[k].Receive? && init[k].q == s.next;
    assert es[k] == init[k] && es[k].q == es[|es| - 1].q;
  }

  lemma {:induction false} OnceMeansNoOverlap(es: seq<Event>)
    requires Schedule(es) && AtMostOnce(es)
    ensures NoOverlap(es)
  {
    if es != [] {
      OnceMeansNoOverlap(es[..|es| - 1]);
      InvRun(es[..|es| - 1]);
      if Overlaps(Run(es[..|es| - 1]), es[|es| - 1]) {
        OverlapIsRepeat(es);
      }
    }
  }

  /** Every number received is below the next, held, or the one whose delivery has begun. */
  lemma {:induction false} NothingLost(es: seq<Event>)
    requires Schedule(es) && NoOverlap(es)
    ensures forall q: nat :: AnyReceived(es, q) ==>
              q < Run(es).next || q in Run(es).buffer || (q == Run(es).next && |Run(es).log| == Run(es).next + 1)
  {
    if es != [] {
      var init, e := es[..|es| - 1], es[|es| - 1];
      var s, t := Run(init), Run(es);
      NothingLost(init);
      InvRun(init);
      forall q: nat | AnyReceived(es, q)
        ensures q < t.next || q in t.buffer || (q == t.next && |t.log| == t.next + 1)
      {
        var k :| 0 <= k < |es| && es[k].Receive? && es[k].q == q;
        if k < |init| {
          assert init[k] == es[k];
          assert AnyReceived(init, q);
        }
      }
    }
  }

  ghost predicate NoFailure(es: seq<Event>) {
    forall e :: e in es ==> !e.Fail?
  }

  /** Without failures a delivery has begun and not ended just when a handler is suspended. */
  lemma {:induction false} BegunIsSuspended(es: seq<Event>)
    requires Schedule(es) && NoOverlap(es) && NoFailure(es)
    ensures |Run(es).log| == Run(es).next + if Run(es).delivering == {} then 0 else 1
  {
    if es != [] {
      var init, e := es[..|es| - 1], es[|es| - 1];
      assert e in es;
      BegunIsSuspended(init);
      InvRun(init);
      InvStep(Run(init), e);
    }
  }

  /**
   With every number received at most once, whatever the interleaving: at most one handler is mid-delivery, the
   stream is 0, 1, 2, ... with the payloads received, and when no handler is mid-delivery and no delivery has failed,
   the stream has reached the least number never received.
   */
  lemma ReassemblyIsExact(es: seq<Event>)
    requires Schedule(es) && AtMostOnce(es)
    ensures var s := Run(es);
            && (s.delivering == {} || exists h :: s.delivering == {h})
            && (forall i :: 0 <= i < |s.log| ==> s.log[i].0 == i && ReceivedIn(es, i, s.log[i].1))
            && (s.delivering == {} && NoFailure(es) ==> |s.log| == s.next && !AnyReceived(es, s.next))
  {
    OnceMeansNoOverlap(es);
    InvRun(es);
    NothingInvented(es);
    NothingLost(es);
    var s := Run(es);
    if NoFailure(es) { BegunIsSuspended(es); }
    forall i | 0 <= i < |s.log| ensures ReceivedIn(es, i, s.log[i].1) {
      assert s.log[i] in s.log;
    }
  }

  /** After a failed delivery nothing more is ever delivered: the expected number stays at the lost packet. */
  lemma {:induction false} FailureStalls(es: seq<Event>, k: nat)
    requires Schedule(es) && AtMostOnce(es) && k < |es| && es[k].Fail?
    ensures var s, t := Run(es[..k]), Run(es);
            t.log == s.log && t.next == s.next && t.delivering == {} && |t.log| == t.next + 1
  {
    var n := |es| - 1;
    var init, e := es[..n], es[n];
    OnceMeansNoOverlap(es);
    InvRun(init);
    InvRun(es);
    if k < n {
      assert init[..k] == es[..k] && init[k] == es[k];
      FailureStalls(init, k);
    } else {
      InvStep(Run(init), e);
      var h :| Run(init).delivering == {h};
      assert e.handler in {h};
    }
  }

  /** The schedule in which a packet is injected again on a second path during its delivery. */
  function Reinjection(a: bytes, b: bytes): seq<Event> {
    [Receive(0, 0, a), Receive(1, 0, a), Resume(0), Resume(1), Receive(0, 1, b)]
  }

  /** It delivers packet 0 twice, and packet 1 stays in the buffer behind the expected number. */
  lemma ReinjectionRepeatsAndSkips(a: bytes, b: bytes)
    ensures Schedule(Reinjection(a, b))
    ensures Run(Reinjection(a, b)) == State(map[1 := b], 2, {}, [(0, a), (0, a)])
  {
    var e0, e1, e2, e3, e4 := Receive(0, 0, a), Receive(1, 0, a), Resume(0), Resume(1), Receive(0, 1, b);
    var s0 := Step(INIT, e0);
    assert s0 == State(map[], 0, {0}, [(0, a)]) by {
      assert map[0 := a] - {0} == map[];
    }
    var s1 := Step(s0, e1);
    assert s1 == State(map[], 0, {0, 1}, [(0, a), (0, a)]) by {
      assert map[0 := a] - {0} == map[];
    }
    var s2 := Step(s1, e2);
    assert s2 == State(map[], 1, {1}, [(0, a), (0, a)]) by {
      assert {0, 1} - {0} == {1};
    }
    var s3 := Step(s2, e3);
    assert s3 == State(map[], 2, {}, [(0, a), (0, a)]) by {
      assert {1} - {1} == {};
    }
    RunMore([], e0);
    RunMore([e0], e1);
    RunMore([e0] + [e1], e2);
    RunMore([e0] + [e1] + [e2], e3);
    RunMore([e0] + [e1] + [e2] + [e3], e4);
    assert [] + [e0] == [e0];
    assert [e0] + [e1] + [e2] + [e3] + [e4] == Reinjection(a, b);
  }

  lemma RunMore(es: seq<Event>, e: Event)
    ensures Run(es + [e]) == Step(Run(es), e)
    ensures Schedule(es + [e]) <==> Schedule(es) && Enabled(Run(es), e)
  {
    assert (es + [e])[..|es + [e]| - 1] == es;
  }
}
