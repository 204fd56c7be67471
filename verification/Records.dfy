/** What the components remember and count: given-up numbers, late packets, group ids, recoveries and duplicates. */
module Records {
  import opened Collections
  import opened Bytes
  import opened Packet
  import opened FecEngine
  import opened Server
  import opened EndToEnd
  import RB = ReorderBuffer
  import RR = ReorderRuns
  import RF = RsFec
  import XD = XorDecoder
  import RD = RsDecoder

  // ---------- the reorder buffer ----------

  /** Remembering the highest of the highest and of higher ones is remembering the highest. */
  lemma HighestOfMore(window: nat, all: set<nat>, kept: set<nat>, more: set<nat>, kept': set<nat>)
    requires RB.Highest(window, all, kept) && RB.Highest(window, kept + more, kept')
    requires forall x, y :: x in all && y in more ==> x < y
    ensures RB.Highest(window, all + more, kept')
  {
    SubsetSize(kept, all);
    SubsetSize(kept, kept + more);
    SubsetSize(kept + more, all + more);
    SubsetSize(all, all + more);
    if kept != all { assert |kept| == window; }
  }

  /** Of all numbers given up in a run, the highest are remembered, as many as the window has room for. */
  lemma {:induction false} HighestRemembered(window: nat, t0: real, es: seq<RR.Event>)
    ensures RB.Highest(window, RR.Skipped(window, t0, es), RR.After(window, t0, es).flushed)
  {
    hide RB.FlushRange, RB.Pruned, RB.Highest, RB.Inv, RR.Step, RR.After, RR.GivenUp;
    if es == [] {
      NothingRemembered(window, t0);
    } else {
      var n := |es| - 1;
      var s := RR.After(window, t0, es[..n]);
      HighestRemembered(window, t0, es[..n]);
      RR.Conservation(window, t0, es[..n]);
      SkippedBelow(window, t0, es[..n]);
      StepRemembers(window, s, es[n], RR.Skipped(window, t0, es[..n]));
      AfterMore(window, t0, es);
    }
  }

  lemma NothingRemembered(window: nat, t0: real)
    ensures RB.Highest(window, RR.Skipped(window, t0, []), RR.After(window, t0, []).flushed)
  {
  }

  lemma AfterMore(window: nat, t0: real, es: seq<RR.Event>)
    requires es != []
    ensures RR.After(window, t0, es) == RR.Step(window, RR.After(window, t0, es[..|es| - 1]), es[|es| - 1]).0
  {
  }

  lemma SkippedBelow(window: nat, t0: real, es: seq<RR.Event>)
    ensures forall q :: q in RR.Skipped(window, t0, es) ==> q < RR.After(window, t0, es).next
  {
    hide RR.After, RR.Accepted, RR.Out, RR.Skipped, RB.Inv;
    RR.Conservation(window, t0, es);
  }

  lemma StepRemembers(window: nat, s: RB.State, e: RR.Event, all: set<nat>)
    requires RB.Inv(window, s) && RB.Highest(window, all, s.flushed) && forall q :: q in all ==> q < s.next
    ensures RB.Highest(window, all + RR.GivenUp(s, e), RR.Step(window, s, e).0.flushed)
  {
    hide RB.FlushRange, RB.Pruned, RB.Highest;
    var more := RR.GivenUp(s, e);
    if e.Check? && RB.Aged(s, e.now) && s.next < RB.Least(s) {
      RB.FlushRangeKeepsHighest(window, s.flushed, s.next, RB.Least(s), s.flushed + more);
      HighestOfMore(window, all, s.flushed, more, RB.FlushRange(window, s.flushed, s.next, RB.Least(s)));
    } else {
      assert all + more == all;
    }
  }

  /** A number given up counts as late when its packet comes, unless so many higher ones have been given up. */
  ghost predicate StillLate(window: nat, skipped: set<nat>, q: nat) {
    q in skipped && |set k | k in skipped && k > q| < window
  }

  lemma RememberedMeansStillLate(window: nat, all: set<nat>, kept: set<nat>, q: nat)
    requires RB.Highest(window, all, kept)
    ensures q in kept <==> StillLate(window, all, q)
  {
    var above := set k | k in all && k > q;
    if q in kept {
      forall k | k in above ensures k in kept { }
      ProperSubsetSize(above, kept, q);
    } else if q in all {
      SubsetSize(kept, above);
      SubsetSize(kept, all);
    }
  }

  /** The outcome of each step of a run: true for every packet delivered, false for a late one. */
  ghost function Outcomes(window: nat, t0: real, es: seq<RR.Event>): seq<bool> {
    if es == [] then [] else
      var n := |es| - 1;
      var s := RR.After(window, t0, es[..n]);
      Outcomes(window, t0, es[..n])
      + if es[n].Arrive? && s.IsDuplicate(es[n].q)
        then if StillLate(window, RR.Skipped(window, t0, es[..n]), es[n].q) then [false] else []
        else RB.Trues(|RR.Step(window, s, es[n]).1|)
  }

  function LastHundred(r: seq<bool>): seq<bool> {
    if |r| <= 100 then r else r[|r| - 100..]
  }

  function CountOf(r: seq<bool>, b: bool): nat {
    if r == [] then 0 else CountOf(r[..|r| - 1], b) + if r[|r| - 1] == b then 1 else 0
  }

  lemma {:induction false} CountMore(r: seq<bool>, more: seq<bool>, b: bool)
    ensures CountOf(r + more, b) == CountOf(r, b) + CountOf(more, b)
  {
    if more == [] {
      assert r + more == r;
    } else {
      var n := |more| - 1;
      CountMore(r, more[..n], b);
      assert (r + more)[..|r + more| - 1] == r + more[..n];
    }
  }

  lemma {:induction false} CountTrues(n: nat)
    ensures CountOf(RB.Trues(n), false) == 0
  {
    if n != 0 {
      CountTrues(n - 1);
      assert RB.Trues(n)[..n - 1] == RB.Trues(n - 1);
    }
  }

  lemma LastOfMore(r: seq<bool>, more: seq<bool>)
    ensures RB.Last(LastHundred(r) + more) == LastHundred(r + more)
  {
  }

  /** One step: the record of outcomes and the two counts. */
  lemma StepCounts(window: nat, s: RB.State, e: RR.Event)
    requires |s.recent| <= 100
    ensures var (t, out) := RR.Step(window, s, e);
            if e.Arrive? && s.IsDuplicate(e.q) then
              if e.q in s.flushed
              then t.late == s.late + 1 && t.total == s.total && t.recent == RB.Last(s.recent + [false])
              else t.late == s.late && t.total == s.total && t.recent == s.recent
            else t.late == s.late && t.total == s.total + |out| && t.recent == RB.Last(s.recent + RB.Trues(|out|))
  {
    hide RB.FlushRange, RB.Pruned, RB.Slice;
    if e.SetTimeout? { assert s.recent + RB.Trues(0) == s.recent; }
  }

  /** The counts of a run: what was delivered, how many came late, and the last hundred outcomes. */
  lemma {:induction false} RunCounts(window: nat, t0: real, es: seq<RR.Event>)
    ensures var s := RR.After(window, t0, es);
            && s.total == |RR.Out(window, t0, es)|
            && s.late == CountOf(Outcomes(window, t0, es), false)
            && s.recent == LastHundred(Outcomes(window, t0, es))
  {
    hide RR.Step, RB.Last, LastHundred, CountOf, StillLate, RR.Skipped, RB.Highest;
    if es == [] {
      NothingCounted(t0);
    } else {
      var n := |es| - 1;
      var s, e, before := RR.After(window, t0, es[..n]), es[n], Outcomes(window, t0, es[..n]);
      RunCounts(window, t0, es[..n]);
      AtMostHundred(before);
      StepCounts(window, s, e);
      HighestRemembered(window, t0, es[..n]);
      if e.Arrive? {
        RememberedMeansStillLate(window, RR.Skipped(window, t0, es[..n]), s.flushed, e.q);
        if s.IsDuplicate(e.q) { NothingFromDuplicates(window, s, e); }
      }
      OneLate(before);
      var more := RB.Trues(|RR.Step(window, s, e).1|);
      LastOfMore(before, more);
      CountMore(before, more, false);
      CountTrues(|more|);
      assert before + [] == before;
    }
  }

  lemma NothingCounted(t0: real)
    ensures RB.Init(t0).total == 0 == RB.Init(t0).late == CountOf([], false)
    ensures RB.Init(t0).recent == LastHundred([])
  {
  }

  lemma AtMostHundred(r: seq<bool>)
    ensures |LastHundred(r)| <= 100
  {
  }

  lemma NothingFromDuplicates(window: nat, s: RB.State, e: RR.Event)
    requires e.Arrive? && s.IsDuplicate(e.q)
    ensures RR.Step(window, s, e).1 == []
  {
  }

  lemma OneLate(before: seq<bool>)
    ensures RB.Last(LastHundred(before) + [false]) == LastHundred(before + [false])
    ensures CountOf(before + [false], false) == CountOf(before, false) + 1
  {
    LastOfMore(before, [false]);
    assert (before + [false])[..|before|] == before;
  }

  /** Accepted numbers are forgotten only below the next one, and only beyond twice the window. */
  lemma ForgetsOnlyTheDelivered(window: nat, s: RB.State, q: nat, payload: bytes, now: real)
    requires !s.IsDuplicate(q)
    ensures var t := RB.InsertStep(window, s, q, payload, now).0;
            if |s.seen + {q}| <= 2 * window then t.seen == s.seen + {q}
            else forall x :: x in t.seen <==> x in s.seen + {q} && x >= s.next
  {
  }

  // ---------- the decoders ----------

  /** Up to 256 recovered XOR groups are remembered; one more, and of the 257 only the upper 129 are. */
  lemma XorRemembers(d: set<nat>, gid: nat)
    ensures |d + {gid}| <= 256 ==> XD.Remember(d, gid) == d + {gid}
    ensures |d + {gid}| == 257 ==> |XD.Remember(d, gid)| == 129 && UpperPart(d + {gid}, XD.Remember(d, gid))
  {
  }

  /** Up to 10000 closed Reed-Solomon groups are remembered; one more, and the 5000 lowest are forgotten. */
  lemma RsRemembers(d: set<nat>)
    ensures |d| <= 10000 ==> RD.Purged(d) == d
    ensures |d| == 10001 ==> |RD.Purged(d)| == 5001 && UpperPart(d, RD.Purged(d))
  {
  }

  /** How many recoveries the first n events of a run gave. */
  ghost function XorGiven(n: nat, es: seq<XD.Event>): nat {
    if es == [] then 0 else
      XorGiven(n, es[..|es| - 1]) + if XD.Output(n, XD.INIT, es, |es| - 1).Some? then 1 else 0
  }

  lemma {:induction false} XorCounts(n: nat, es: seq<XD.Event>)
    ensures XD.After(n, XD.INIT, es).recoveries == XorGiven(n, es)
  {
    if es != [] {
      hide XD.Step, XD.Inv;
      XorCounts(n, es[..|es| - 1]);
      XD.InvRun(n, es[..|es| - 1]);
      XD.InvStep(n, XD.After(n, XD.INIT, es[..|es| - 1]), es[|es| - 1]);
    }
  }

  ghost function RsGiven(c: RF.Codec, k: nat, p: nat, es: seq<RD.Event>): nat {
    if es == [] then 0 else
      RsGiven(c, k, p, es[..|es| - 1]) + |RD.Output(c, k, p, RD.INIT, es, |es| - 1)|
  }

  lemma RsStepCounts(c: RF.Codec, k: nat, p: nat, s: RD.State, e: RD.Event)
    ensures RD.Step(c, k, p, s, e).0.recoveries == s.recoveries + |RD.Step(c, k, p, s, e).1|
  {
    hide RF.Decoded, RD.Purged;
  }

  lemma {:induction false} RsCounts(c: RF.Codec, k: nat, p: nat, es: seq<RD.Event>)
    ensures RD.After(c, k, p, RD.INIT, es).recoveries == RsGiven(c, k, p, es)
  {
    if es != [] {
      hide RD.Step;
      RsCounts(c, k, p, es[..|es| - 1]);
      RsStepCounts(c, k, p, RD.After(c, k, p, RD.INIT, es[..|es| - 1]), es[|es| - 1]);
    }
  }

  // ---------- the server ----------

  function RecoveredIn(w: seq<Write>): nat {
    if w == [] then 0 else RecoveredIn(w[..|w| - 1]) + if w[|w| - 1].Recovered? then 1 else 0
  }

  lemma {:induction false} RecoveredInMore(w: seq<Write>, more: seq<Write>)
    ensures RecoveredIn(w + more) == RecoveredIn(w) + RecoveredIn(more)
  {
    if more == [] {
      assert w + more == w;
    } else {
      var n := |more| - 1;
      RecoveredInMore(w, more[..n]);
      assert (w + more)[..|w + more| - 1] == w + more[..n];
    }
  }

  lemma {:induction false} AllOneKind(w: seq<Write>)
    ensures (forall i :: 0 <= i < |w| ==> w[i].Recovered?) ==> RecoveredIn(w) == |w|
    ensures (forall i :: 0 <= i < |w| ==> w[i].Released?) ==> RecoveredIn(w) == 0
  {
    if w != [] { AllOneKind(w[..|w| - 1]); }
  }

  /** A datagram that is dropped as a repeat or as too late. */
  ghost predicate IsDropped(s: State, e: Event) {
    e.Datagram? && !Ignored(e.data) && s.reorder.IsDuplicate(Deserialize(e.data).value.globalSeq)
  }

  ghost function DroppedIn(cfg: Config, window: nat, t0: real, es: seq<Event>): nat {
    if es == [] then 0 else
      var n := |es| - 1;
      DroppedIn(cfg, window, t0, es[..n]) + if IsDropped(After(cfg, window, t0, es[..n]), es[n]) then 1 else 0
  }

  lemma DecodeCounts(cfg: Config, d: DecState, m: Meta, payload: bytes, now: real)
    ensures var (t, r) := DecodeStep(cfg, d, m, payload, now);
            t.recoveries == d.recoveries + |r| && (m.groupSize == 0 ==> r == [] && t == d)
  {
    hide XD.ReceiveStep, RD.ReceiveStep;
  }

  /** A step writes recoveries first and releases after them, and counts both. */
  lemma StepWritesInOrder(cfg: Config, window: nat, s: State, e: Event)
    ensures var (t, w) := Step(cfg, window, s, e);
            && (forall i, j :: 0 <= i < j < |w| && w[i].Released? ==> w[j].Released?)
            && t.fecRecoveries == s.fecRecoveries + RecoveredIn(w)
            && t.fec.recoveries == s.fec.recoveries + RecoveredIn(w)
            && t.received == s.received + (|w| - RecoveredIn(w))
            && t.duplicates == s.duplicates + if IsDropped(s, e) then 1 else 0
  {
    hide NewPacketStep, RB.CheckStep;
    match e
    case Tick(now) => AllOneKind(Step(cfg, window, s, e).1);
    case Datagram(d, now) =>
      if !Ignored(d) && !IsDropped(s, e) { NewPacketInOrder(cfg, window, s, Deserialize(d).value, now); }
  }

  lemma NewPacketInOrder(cfg: Config, window: nat, s: State, p: Packet, now: real)
    ensures var (t, w) := NewPacketStep(cfg, window, s, p, now);
            && (forall i, j :: 0 <= i < j < |w| && w[i].Released? ==> w[j].Released?)
            && t.fecRecoveries == s.fecRecoveries + RecoveredIn(w)
            && t.fec.recoveries == s.fec.recoveries + RecoveredIn(w)
            && t.received == s.received + (|w| - RecoveredIn(w)) && t.duplicates == s.duplicates
  {
    hide DecodeStep, RB.InsertStep, RecoveredIn;
    DecodeCounts(cfg, s.fec, MetaOf(p), p.payload, now);
    var recovered := if p.groupSize > 0 then DecodeStep(cfg, s.fec, MetaOf(p), p.payload, now).1 else [];
    var out := RB.InsertStep(window, s.reorder, p.globalSeq, p.payload, now).1;
    var a, b := RecoveredWrites(MetaOf(p), recovered), ReleasedWrites(out);
    AllOneKind(a);
    AllOneKind(b);
    RecoveredInMore(a, b);
  }

  /** The server's counters: packets released, recovered and dropped. */
  lemma {:induction false} ServerCounts(cfg: Config, window: nat, t0: real, es: seq<Event>)
    ensures var s, w := After(cfg, window, t0, es), Writes(cfg, window, t0, es);
            && s.fecRecoveries == s.fec.recoveries == RecoveredIn(w)
            && s.received + RecoveredIn(w) == |w|
            && s.duplicates == DroppedIn(cfg, window, t0, es)
  {
    hide Step, RecoveredIn, IsDropped;
    if es != [] {
      var n := |es| - 1;
      var s := After(cfg, window, t0, es[..n]);
      ServerCounts(cfg, window, t0, es[..n]);
      StepWritesInOrder(cfg, window, s, es[n]);
      RecoveredInMore(Writes(cfg, window, t0, es[..n]), Step(cfg, window, s, es[n]).1);
    } else {
      NothingWritten(t0);
    }
  }

  lemma NothingWritten(t0: real)
    ensures var s := Init(t0); s.fecRecoveries == s.fec.recoveries == s.received == s.duplicates == 0 == RecoveredIn([])
  {
  }
}
