/** The adaptive reorder buffer: deduplicates, delivers in sequence order, and skips gaps after a timeout. */
module ReorderBuffer {
  import opened Collections
  import opened Bytes

  const RECENT_LIMIT: nat := 100

  type Numbered = (nat, bytes)

  datatype State = State(
    buffer: map<nat, bytes>,
    next: nat,
    stamps: map<nat, real>,
    seen: set<nat>,
    flushed: set<nat>,
    recent: seq<bool>,
    late: nat,
    total: nat,
    timeoutMs: real)
  {
    predicate IsDuplicate(q: nat) {
      q < next || q in seen
    }

    function Cutoff(now: real): real {
      now - timeoutMs / 1000.0
    }
  }

  function Init(timeoutMs: real): State {
    State(map[], 0, map[], {}, {}, [], 0, 0, timeoutMs)
  }

  // ---------- delivery of a consecutive run ----------

  ghost function KeysFrom(buffer: map<nat, bytes>, lo: nat): set<nat> {
    set k | k in buffer && k >= lo
  }

  /** The least number from lo on that is not buffered. */
  ghost function GapFrom(buffer: map<nat, bytes>, lo: nat): (m: nat)
    ensures m >= lo && m !in buffer && forall k :: lo <= k < m ==> k in buffer
    decreases KeysFrom(buffer, lo)
  {
    if lo !in buffer then lo else
      assert lo in KeysFrom(buffer, lo) && lo !in KeysFrom(buffer, lo + 1);
      GapFrom(buffer, lo + 1)
  }

  function Packet(buffer: map<nat, bytes>, k: nat): Numbered {
    (k, if k in buffer then buffer[k] else [])
  }

  /** The buffered packets lo, lo + 1, ..., hi - 1. */
  ghost function Slice(buffer: map<nat, bytes>, lo: nat, hi: nat): (r: seq<Numbered>)
    requires lo <= hi
    ensures |r| == hi - lo
    ensures forall i :: 0 <= i < |r| ==> r[i] == Packet(buffer, lo + i)
  {
    if lo == hi then [] else Slice(buffer, lo, hi - 1) + [Packet(buffer, hi - 1)]
  }

  ghost function PayloadsOf(r: seq<Numbered>): (p: seq<bytes>)
    ensures |p| == |r|
  {
    if r == [] then [] else PayloadsOf(r[..|r| - 1]) + [r[|r| - 1].1]
  }

  function Last(r: seq<bool>): seq<bool> {
    if |r| > RECENT_LIMIT then r[|r| - RECENT_LIMIT..] else r
  }

  function Trues(n: nat): seq<bool> {
    seq(n, _ => true)
  }

  /** Deliver everything consecutive from next on, and count it. */
  ghost function DeliverStep(s: State): (State, seq<Numbered>) {
    var m := GapFrom(s.buffer, s.next);
    var gone := Range(s.next, m);
    (s.(buffer := s.buffer - gone, stamps := s.stamps - gone, next := m,
        recent := Last(s.recent + Trues(m - s.next)), total := s.total + (m - s.next)),
     Slice(s.buffer, s.next, m))
  }

  // ---------- the operations ----------

  function Pruned(window: nat, seen: set<nat>, next: nat): set<nat> {
    if |seen| > window * 2 then set x | x in seen && x >= next else seen
  }

  function Accept(window: nat, s: State, q: nat, payload: bytes, now: real): State {
    s.(seen := Pruned(window, s.seen + {q}, s.next), buffer := s.buffer[q := payload], stamps := s.stamps[q := now])
  }

  function Rejected(s: State, q: nat): State {
    if q in s.flushed then s.(late := s.late + 1, recent := Last(s.recent + [false])) else s
  }

  ghost function InsertStep(window: nat, s: State, q: nat, payload: bytes, now: real): (State, seq<Numbered>) {
    if s.IsDuplicate(q) then (Rejected(s, q), [])
    else DeliverStep(Accept(window, s, q, payload, now))
  }

  /** One more number given up; beyond the window the lowest is forgotten. */
  function FlushOne(window: nat, flushed: set<nat>, q: nat): set<nat> {
    var f := flushed + {q};
    if |f| > window then f - {MinOf(f)} else f
  }

  /** The numbers lo, ..., hi - 1 given up one after the other. */
  function FlushRange(window: nat, flushed: set<nat>, lo: nat, hi: nat): set<nat>
    requires lo <= hi
  {
    if lo == hi then flushed else FlushOne(window, FlushRange(window, flushed, lo, hi - 1), hi - 1)
  }

  /** The lowest number buffered. */
  function Least(s: State): (m: nat)
    ensures s.buffer != map[] ==> m in s.buffer && forall k :: k in s.buffer ==> m <= k
  {
    if s.buffer == map[] then 0 else MinOf(s.buffer.Keys)
  }

  /** The lowest packet buffered has waited past the timeout. */
  predicate Aged(s: State, now: real) {
    s.buffer != map[] && Least(s) in s.stamps && s.stamps[Least(s)] <= s.Cutoff(now)
  }

  /** If so, the numbers before it are given up. */
  function SkipGap(window: nat, s: State, now: real): State {
    if Aged(s, now) && s.next < Least(s) then
      s.(next := Least(s), flushed := FlushRange(window, s.flushed, s.next, Least(s)))
    else s
  }

  ghost function CheckStep(window: nat, s: State, now: real): (State, seq<Numbered>) {
    DeliverStep(SkipGap(window, s, now))
  }

  /** What every operation keeps. */
  ghost predicate Inv(window: nat, s: State) {
    && s.buffer.Keys == s.stamps.Keys
    && (forall k :: k in s.buffer ==> k > s.next)
    && (forall x :: x >= s.next ==> (x in s.seen <==> x in s.buffer))
    && (forall f :: f in s.flushed ==> f < s.next)
    && |s.flushed| <= window
    && |s.recent| <= RECENT_LIMIT
  }

  /** kept is the highest part of all, as large as the window has room for. */
  ghost predicate Highest(window: nat, all: set<nat>, kept: set<nat>) {
    UpperPart(all, kept) && |kept| == if |all| <= window then |all| else window
  }

  lemma FlushOneKeepsHighest(window: nat, all: set<nat>, kept: set<nat>, x: nat)
    requires Highest(window, all, kept) && forall f :: f in all ==> f < x
    ensures Highest(window, all + {x}, FlushOne(window, kept, x))
  {
    UpperPartWithMax(all, kept, x);
    if |kept + {x}| > window {
      UpperPartWithoutMin(all + {x}, kept + {x});
    }
  }

  /** What is remembered of all numbers given up: the highest ones, as many as the window has room for. */
  lemma {:induction false} FlushRangeKeepsHighest(window: nat, flushed: set<nat>, lo: nat, hi: nat, all: set<nat>)
    requires lo <= hi && |flushed| <= window && forall f :: f in flushed ==> f < lo
    requires forall x :: x in all <==> x in flushed || lo <= x < hi
    ensures Highest(window, all, FlushRange(window, flushed, lo, hi))
  {
    if lo < hi {
      var before := all - {hi - 1};
      FlushRangeKeepsHighest(window, flushed, lo, hi - 1, before);
      assert before + {hi - 1} == all;
      FlushOneKeepsHighest(window, before, FlushRange(window, flushed, lo, hi - 1), hi - 1);
    } else {
      assert all == flushed;
    }
  }

  lemma LastAppend(r: seq<bool>, n: nat)
    ensures Last(Last(r + Trues(n)) + [true]) == Last(r + Trues(n + 1))
  {
    assert Trues(n + 1) == Trues(n) + [true];
  }

  /** Delivery leaves a buffer whose least key lies beyond the next number. */
  lemma InvDeliver(window: nat, s: State)
    requires s.buffer.Keys == s.stamps.Keys
    requires forall k :: k in s.buffer ==> k >= s.next
    requires forall x :: x >= s.next ==> (x in s.seen <==> x in s.buffer)
    requires forall f :: f in s.flushed ==> f < s.next
    requires |s.flushed| <= window
    ensures Inv(window, DeliverStep(s).0)
  {
    var m := GapFrom(s.buffer, s.next);
    var t := DeliverStep(s).0;
    forall k | k in t.buffer ensures k > t.next {
      assert k in s.buffer && k !in Range(s.next, m) && k != m;
    }
  }

  lemma InvInsert(window: nat, s: State, q: nat, payload: bytes, now: real)
    requires Inv(window, s)
    ensures Inv(window, InsertStep(window, s, q, payload, now).0)
  {
    if !s.IsDuplicate(q) {
      InvDeliver(window, Accept(window, s, q, payload, now));
    }
  }

  lemma InvSkip(window: nat, s: State, now: real)
    requires Inv(window, s)
    ensures var t := SkipGap(window, s, now);
            && t.buffer == s.buffer && t.stamps == s.stamps && t.seen == s.seen && t.next >= s.next
            && (forall k :: k in t.buffer ==> k >= t.next)
            && (forall f :: f in t.flushed ==> f < t.next)
            && |t.flushed| <= window
  {
    if Aged(s, now) && s.next < Least(s) {
      FlushRangeKeepsHighest(window, s.flushed, s.next, Least(s), s.flushed + Range(s.next, Least(s)));
    }
  }

  lemma InvCheck(window: nat, s: State, now: real)
    requires Inv(window, s)
    ensures Inv(window, CheckStep(window, s, now).0)
  {
    InvSkip(window, s, now);
    InvDeliver(window, SkipGap(window, s, now));
  }

  /** The payloads of the buffered packets lo, ..., hi - 1. */
  ghost function PayloadSlice(buffer: map<nat, bytes>, lo: nat, hi: nat): seq<bytes>
    requires lo <= hi
  {
    if lo == hi then [] else PayloadSlice(buffer, lo, hi - 1) + [Packet(buffer, hi - 1).1]
  }

  lemma {:induction false} PayloadsOfSlice(buffer: map<nat, bytes>, lo: nat, hi: nat)
    requires lo <= hi
    ensures PayloadsOf(Slice(buffer, lo, hi)) == PayloadSlice(buffer, lo, hi)
  {
    if lo < hi {
      PayloadsOfSlice(buffer, lo, hi - 1);
      var r := Slice(buffer, lo, hi);
      assert r[..|r| - 1] == Slice(buffer, lo, hi - 1);
    }
  }

  lemma MinusMore<V>(m: map<nat, V>, lo: nat, hi: nat)
    requires lo <= hi
    ensures m - Range(lo, hi) - {hi} == m - Range(lo, hi + 1)
  {
  }

  class AdaptiveReorderBuffer {
    const window: nat
    var timeoutMs: real
    var buffer: map<nat, bytes>
    var next: nat
    var stamps: map<nat, real>
    var seen: set<nat>
    var flushed: set<nat>
    var recent: seq<bool>
    var late: nat
    var total: nat

    function Model(): State
      reads this
    {
      State(buffer, next, stamps, seen, flushed, recent, late, total, timeoutMs)
    }

    ghost predicate Valid()
      reads this
    {
      Inv(window, Model())
    }

    constructor (window: nat, timeoutMs: real)
      ensures Valid() && Model() == Init(timeoutMs) && this.window == window
    {
      this.window := window;
      this.timeoutMs := timeoutMs;
      buffer, next, stamps, seen, flushed, recent, late, total := map[], 0, map[], {}, {}, [], 0, 0;
    }

    method IsDuplicate(q: nat) returns (dup: bool)
      ensures dup == Model().IsDuplicate(q)
    {
      if q < next {
        return true;
      }
      return q in seen;
    }

    method Insert(q: nat, payload: bytes, now: real) returns (delivered: seq<bytes>)
      requires Valid()
      modifies this
      ensures Valid()
      ensures Model() == InsertStep(window, old(Model()), q, payload, now).0
      ensures delivered == PayloadsOf(InsertStep(window, old(Model()), q, payload, now).1)
    {
      hide DeliverStep;
      InvInsert(window, Model(), q, payload, now);
      var dup := IsDuplicate(q);
      if dup {
        if q in flushed {
          late := late + 1;
          recent := Last(recent + [false]);
        }
        return [];
      }
      seen := seen + {q};
      if |seen| > window * 2 {
        seen := set x | x in seen && x >= next;
      }
      buffer := buffer[q := payload];
      stamps := stamps[q := now];
      assert Model() == Accept(window, old(Model()), q, payload, now);
      delivered := DeliverInOrder();
    }

    method CheckTimeouts(now: real) returns (delivered: seq<bytes>)
      requires Valid()
      modifies this
      ensures Valid()
      ensures Model() == CheckStep(window, old(Model()), now).0
      ensures delivered == PayloadsOf(CheckStep(window, old(Model()), now).1)
    {
      hide DeliverStep;
      InvCheck(window, Model(), now);
      SkipExpiredGap(now);
      delivered := DeliverInOrder();
    }

    /** The first loop of check_timeouts. */
    method SkipExpiredGap(now: real)
      requires buffer.Keys == stamps.Keys && forall k :: k in buffer ==> k > next
      modifies this`next, this`flushed
      ensures Model() == SkipGap(window, old(Model()), now)
    {
      hide MinOf;
      var cutoff := Model().Cutoff(now);
      ghost var s, lo, f := Model(), next, flushed;
      ghost var m := Least(s);
      while next !in buffer
        invariant lo <= next
        invariant buffer != map[] ==> next <= m
        invariant next == lo || Aged(s, now)
        invariant flushed == FlushRange(window, f, lo, next)
        decreases m - next
      {
        if buffer == map[] {
          break;
        }
        var minSeq := MinOf(buffer.Keys);
        assert minSeq == m;
        var ts := if minSeq in stamps then stamps[minSeq] else now;
        if ts > cutoff {
          break;
        }
        flushed := flushed + {next};
        if |flushed| > window {
          flushed := flushed - {MinOf(flushed)};
        }
        next := next + 1;
      }
    }

    /** The run of consecutive packets from next on leaves the buffer. */
    method DeliverInOrder() returns (delivered: seq<bytes>)
      requires |recent| <= RECENT_LIMIT
      modifies this
      ensures Model() == DeliverStep(old(Model())).0
      ensures delivered == PayloadsOf(DeliverStep(old(Model())).1)
    {
      hide GapFrom, Slice, PayloadsOf;
      delivered := PopConsecutive();
      CountDelivered(|delivered|);
    }

    method PopConsecutive() returns (delivered: seq<bytes>)
      modifies this`buffer, this`stamps, this`next
      ensures next == GapFrom(old(buffer), old(next))
      ensures buffer == old(buffer) - Range(old(next), next)
      ensures stamps == old(stamps) - Range(old(next), next)
      ensures delivered == PayloadsOf(Slice(old(buffer), old(next), next))
    {
      hide GapFrom, Slice, PayloadsOf, Range;
      delivered := [];
      ghost var b: map<nat, bytes> := buffer;
      ghost var t: map<nat, real> := stamps;
      ghost var lo, end := next, GapFrom(buffer, next);
      while next in buffer
        invariant lo <= next <= end
        invariant buffer == b - Range(lo, next)
        invariant stamps == t - Range(lo, next)
        invariant delivered == PayloadSlice(b, lo, next)
        decreases end - next
      {
        assert next in b && buffer[next] == b[next];
        MinusMore(b, lo, next);
        MinusMore(t, lo, next);
        delivered := delivered + [buffer[next]];
        buffer := buffer - {next};
        stamps := stamps - {next};
        next := next + 1;
      }
      assert next !in b;
      PayloadsOfSlice(b, lo, next);
    }

    /** The bookkeeping after a delivery: each packet is on time. */
    method CountDelivered(n: nat)
      requires |recent| <= RECENT_LIMIT
      modifies this`recent, this`total
      ensures recent == Last(old(recent) + Trues(n)) && total == old(total) + n
    {
      for i := 0 to n
        invariant total == old(total) + i
        invariant recent == if i == 0 then old(recent) else Last(old(recent) + Trues(i))
      {
        LastAppend(old(recent), i);
        recent := Last(recent + [true]);
        total := total + 1;
      }
    }
  }
}
