/** When the traffic stops, the timeout loop writes everything that came in time. */
module Draining {
  import opened Collections
  import opened FecEngine
  import opened Server
  import opened EndToEnd
  import RB = ReorderBuffer
  import RR = ReorderRuns

  /** A data packet with this number arrived, and no timeout had given up the number by then. */
  ghost predicate CameInTime(cfg: Config, window: nat, t0: real, es: seq<Event>, q: nat) {
    es != [] &&
      var n := |es| - 1;
      || CameInTime(cfg, window, t0, es[..n], q)
      || (DataNumber(es[n]) == Some(q) && q !in RR.Skipped(window, t0, ReorderEvents(cfg, window, t0, es[..n])))
  }

  /** A tick at each reading of the clock. */
  function Ticks(nows: seq<real>): (es: seq<Event>)
    ensures |es| == |nows| && forall i :: 0 <= i < |es| ==> es[i] == Tick(nows[i])
  {
    if nows == [] then [] else Ticks(nows[..|nows| - 1]) + [Tick(nows[|nows| - 1])]
  }

  lemma AcceptedInStep(window: nat, t0: real, rs: seq<RR.Event>, s: State, e: Event, q: nat)
    requires s.reorder == RR.After(window, t0, rs)
    ensures var all := rs + ReorderEvent(s, e);
            q in RR.Accepted(window, t0, all) <==>
              q in RR.Accepted(window, t0, rs) || (DataNumber(e) == Some(q) && q !in RR.Skipped(window, t0, rs))
  {
    hide RR.After, RR.Accepted, RR.Skipped;
    RR.DuplicateMeansSeenOrSkipped(window, t0, rs, q);
    RR.AcceptedMore(window, t0, rs, ReorderEvent(s, e));
  }

  /** The numbers accepted are those of the data packets that came in time. */
  lemma {:induction false} AcceptedCameInTime(cfg: Config, window: nat, t0: real, es: seq<Event>, q: nat)
    ensures q in RR.Accepted(window, t0, ReorderEvents(cfg, window, t0, es)) <==> CameInTime(cfg, window, t0, es, q)
  {
    hide After, RR.Accepted, RR.Skipped, ReorderEvent, DataNumber;
    if es == [] {
      RR.NothingAccepted(window, t0);
    } else {
      var n := |es| - 1;
      AcceptedCameInTime(cfg, window, t0, es[..n], q);
      ReorderRun(cfg, window, t0, es[..n]);
      AcceptedInStep(window, t0, ReorderEvents(cfg, window, t0, es[..n]), After(cfg, window, t0, es[..n]), es[n], q);
    }
  }

  lemma {:induction false} TicksAreChecks(cfg: Config, window: nat, t0: real, es: seq<Event>, nows: seq<real>)
    ensures ReorderEvents(cfg, window, t0, es + Ticks(nows))
            == ReorderEvents(cfg, window, t0, es) + RR.Checks(nows)
  {
    hide ReorderEvents, Ticks;
    var rs := ReorderEvents(cfg, window, t0, es);
    if nows == [] {
      assert es + Ticks(nows) == es && rs + RR.Checks(nows) == rs;
    } else {
      var n := |nows| - 1;
      TicksAreChecks(cfg, window, t0, es, nows[..n]);
      OneMoreTick(cfg, window, t0, es + Ticks(nows[..n]), nows[n]);
      assert es + Ticks(nows) == es + Ticks(nows[..n]) + [Tick(nows[n])];
      assert rs + RR.Checks(nows) == rs + RR.Checks(nows[..n]) + [RR.Check(nows[n])];
    }
  }

  lemma OneMoreTick(cfg: Config, window: nat, t0: real, es: seq<Event>, now: real)
    ensures ReorderEvents(cfg, window, t0, es + [Tick(now)])
            == ReorderEvents(cfg, window, t0, es) + [RR.Check(now)]
  {
    hide After;
    assert (es + [Tick(now)])[..|es|] == es;
  }

  /** What the reorder buffer gets of a run whose events are not later than a given time. */
  lemma {:induction false} EarlyEvents(cfg: Config, window: nat, t0: real, es: seq<Event>, latest: real)
    requires forall e :: e in es ==> e.now <= latest
    ensures var rs := ReorderEvents(cfg, window, t0, es);
            |rs| <= |es| && forall e :: e in rs ==> !e.SetTimeout? && e.now <= latest
  {
    hide After, ReorderEvent;
    if es != [] {
      var n := |es| - 1;
      assert forall e :: e in es[..n] ==> e in es;
      EarlyEvents(cfg, window, t0, es[..n], latest);
      assert es[n] in es;
      SameTime(After(cfg, window, t0, es[..n]), es[n]);
    }
  }

  lemma SameTime(s: State, e: Event)
    ensures |ReorderEvent(s, e)| <= 1 && forall r :: r in ReorderEvent(s, e) ==> !r.SetTimeout? && r.now == e.now
  {
  }

  /** The clock readings are as many as the events before, ascending, and start when the last event has timed out. */
  ghost predicate LongEnough(es: seq<Event>, t0: real, latest: real, nows: seq<real>) {
    && (forall e :: e in es ==> e.now <= latest)
    && RR.Ascending(nows) && |nows| >= |es|
    && (nows != [] ==> nows[0] >= latest + t0 / 1000.0)
  }

  lemma EverythingAged(s: RB.State, t0: real, latest: real, now: real)
    requires RR.StampedBy(s, t0, latest) && now >= latest + t0 / 1000.0
    ensures RR.AllAged(s, now)
  {
  }

  /**
   Whatever has arrived before: after that many ticks, from a timeout after the last event on, a number has been
   released if and only if its data packet came before a timeout gave the number up.
   */
  lemma TicksDrain(cfg: Config, window: nat, t0: real, es: seq<Event>, latest: real, nows: seq<real>, q: nat)
    requires LongEnough(es, t0, latest, nows)
    ensures WasReleased(Writes(cfg, window, t0, es + Ticks(nows)), q) <==> CameInTime(cfg, window, t0, es, q)
  {
    hide After, Writes, ReorderEvents, ReleasedOf, RR.After, RR.Out, RR.Accepted, RR.AllAged, RR.StampedBy, CameInTime;
    hide RR.Ascending;
    var rs := ReorderEvents(cfg, window, t0, es);
    EarlyEvents(cfg, window, t0, es, latest);
    RR.FewHeld(window, t0, rs);
    RR.StampsOfRun(window, t0, rs, latest);
    if nows != [] { EverythingAged(RR.After(window, t0, rs), t0, latest, nows[0]); }
    RR.RunDrains(window, t0, rs, nows);
    TicksAreChecks(cfg, window, t0, es, nows);
    ReorderRun(cfg, window, t0, es + Ticks(nows));
    AcceptedCameInTime(cfg, window, t0, es, q);
    if q in RR.Accepted(window, t0, rs) {
      assert (q, RR.Accepted(window, t0, rs)[q]) in RR.Out(window, t0, rs + RR.Checks(nows));
    }
  }
}
