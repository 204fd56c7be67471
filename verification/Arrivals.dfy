/** What has arrived of a group in time, and why its decoder has seen all of it. */
module Arrivals {
  import opened Collections
  import opened Bytes
  import opened FecEngine
  import opened Server
  import opened EndToEnd
  import opened DecoderShares
  import C = Client
  import RR = ReorderRuns
  import XD = XorDecoder
  import RD = RsDecoder

  /** A group size and id that lead the decoder of this kind to this group. */
  predicate InGroup(cfg: Config, kind: Kind, groupSize: nat, gid: nat, group: nat) {
    cfg.Dispatch(groupSize) == Some(kind) && gid == group
  }

  /** Index and parity flag of the packet of the group that the event brings, if it brings one. */
  function BroughtBy(cfg: Config, kind: Kind, e: Event, group: nat): set<(nat, bool)> {
    var p := PacketOf(e);
    if p.Some? && InGroup(cfg, kind, p.value.groupSize, p.value.gid, group)
    then {(p.value.index, p.value.IsFecParity())} else {}
  }

  /** The packets of the group that have arrived. */
  function Arrived(cfg: Config, kind: Kind, es: seq<Event>, group: nat): set<(nat, bool)> {
    if es == [] then {} else
      Arrived(cfg, kind, es[..|es| - 1], group) + BroughtBy(cfg, kind, es[|es| - 1], group)
  }

  function DataIn(a: set<(nat, bool)>): set<nat> {
    set x | x in a && !x.1 :: x.0
  }

  ghost predicate ParityIn(a: set<(nat, bool)>) {
    exists i :: (i, true) in a
  }

  function IndicesIn(a: set<(nat, bool)>): set<nat> {
    set x | x in a :: x.0
  }

  // ---------- what the decoder has seen ----------

  function SeenIn(x: Share, group: nat): set<(nat, bool)> {
    if x.Got? && x.gid == group then {(x.index, x.isParity)} else {}
  }

  function SeenShares(xs: seq<Share>, group: nat): set<(nat, bool)> {
    if xs == [] then {} else SeenShares(xs[..|xs| - 1], group) + SeenIn(xs[|xs| - 1], group)
  }

  lemma SeenSharesMore(xs: seq<Share>, more: seq<Share>, group: nat)
    requires |more| <= 1
    ensures SeenShares(xs + more, group) == SeenShares(xs, group) + if more == [] then {} else SeenIn(more[0], group)
  {
    hide SeenIn;
    if more == [] {
      assert xs + more == xs;
    } else {
      assert (xs + more)[..|xs|] == xs;
    }
  }

  lemma {:induction false} SeenByXor(xs: seq<Share>, group: nat)
    ensures XD.SeenData(AllAsXor(xs), group) == DataIn(SeenShares(xs, group))
    ensures XD.SeenParity(AllAsXor(xs), group) <==> ParityIn(SeenShares(xs, group))
  {
    if xs == [] {
      assert XD.SeenData([], group) == {};
    } else {
      hide XD.SeenData, XD.SeenParity;
      var n := |xs| - 1;
      SeenByXor(xs[..n], group);
      XD.SeenMore(AllAsXor(xs), group);
      assert AllAsXor(xs)[..n] == AllAsXor(xs[..n]);
      OneMoreSeen(SeenShares(xs[..n], group), xs[n], group);
    }
  }

  lemma OneMoreSeen(seen: set<(nat, bool)>, x: Share, group: nat)
    ensures var more := seen + SeenIn(x, group);
            && DataIn(more) == DataIn(seen) + (if x.Got? && x.gid == group && !x.isParity then {x.index} else {})
            && (ParityIn(more) <==> ParityIn(seen) || (x.Got? && x.gid == group && x.isParity))
            && IndicesIn(more) == IndicesIn(seen) + (if x.Got? && x.gid == group then {x.index} else {})
  {
    var more := seen + SeenIn(x, group);
    if x.Got? && x.gid == group { assert (x.index, x.isParity) in more; }
    forall i ensures i in DataIn(more) <==>
                     i in DataIn(seen) || (x.Got? && x.gid == group && !x.isParity && i == x.index)
    {
      assert i in DataIn(more) <==> (i, false) in more;
      assert i in DataIn(seen) <==> (i, false) in seen;
    }
  }

  lemma {:induction false} SeenByShards(xs: seq<Share>, group: nat)
    ensures RD.Seen(AllAsShards(xs), group) == IndicesIn(SeenShares(xs, group))
  {
    if xs != [] {
      var n := |xs| - 1;
      SeenByShards(xs[..n], group);
      assert AllAsShards(xs)[..n] == AllAsShards(xs[..n]);
      OneMoreSeen(SeenShares(xs[..n], group), xs[n], group);
    }
  }

  // ---------- what comes in time is not held back ----------

  /** What the event brings of the group, unless the number of its packet has been given up. */
  ghost function BroughtInTime(cfg: Config, kind: Kind, window: nat, t0: real, rs: seq<RR.Event>, e: Event, group: nat)
    : set<(nat, bool)>
  {
    if PacketOf(e).Some? && PacketOf(e).value.globalSeq in RR.Skipped(window, t0, rs) then {}
    else BroughtBy(cfg, kind, e, group)
  }

  /** The packets of the group that have arrived before a timeout gave up their numbers. */
  ghost function InTime(cfg: Config, kind: Kind, window: nat, t0: real, es: seq<Event>, group: nat): set<(nat, bool)> {
    if es == [] then {} else
      var n := |es| - 1;
      InTime(cfg, kind, window, t0, es[..n], group)
      + BroughtInTime(cfg, kind, window, t0, ReorderEvents(cfg, window, t0, es[..n]), es[n], group)
  }

  /** No packet of the group arrives for the first time after its number was given up. */
  ghost predicate NoneLate(cfg: Config, kind: Kind, window: nat, t0: real, es: seq<Event>, group: nat) {
    es != [] ==>
      var n := |es| - 1;
      var rs := ReorderEvents(cfg, window, t0, es[..n]);
      && NoneLate(cfg, kind, window, t0, es[..n], group)
      && BroughtBy(cfg, kind, es[n], group)
         <= Arrived(cfg, kind, es[..n], group) + BroughtInTime(cfg, kind, window, t0, rs, es[n], group)
  }

  lemma {:induction false} AllInTime(cfg: Config, kind: Kind, window: nat, t0: real, es: seq<Event>, group: nat)
    requires NoneLate(cfg, kind, window, t0, es, group)
    ensures InTime(cfg, kind, window, t0, es, group) == Arrived(cfg, kind, es, group)
  {
    if es != [] { AllInTime(cfg, kind, window, t0, es[..|es| - 1], group); }
  }

  lemma {:induction false} NoneLateWithoutTicks(cfg: Config, kind: Kind, window: nat, t0: real, es: seq<Event>,
                                                group: nat)
    requires NoTicks(es)
    ensures NoneLate(cfg, kind, window, t0, es, group)
  {
    if es != [] {
      hide After, ReorderEvent, BroughtBy;
      var n := |es| - 1;
      assert forall e :: e in es[..n] ==> e in es;
      NoneLateWithoutTicks(cfg, kind, window, t0, es[..n], group);
      FirstArrivals(cfg, window, t0, es[..n]);
      RR.NothingSkipped(window, t0, ReorderEvents(cfg, window, t0, es[..n]));
    }
  }

  /** Every accepted packet of the group has arrived in time. */
  ghost predicate AcceptedArrived(cfg: Config, kind: Kind, u: C.State, acc: map<nat, bytes>, group: nat,
                                  arrived: set<(nat, bool)>) {
    forall q :: q in acc && q < |u.log| && InGroup(cfg, kind, u.log[q].meta.groupSize, u.log[q].meta.gid, group) ==>
      (u.log[q].meta.index, false) in arrived
  }

  /** A packet of the group that comes in time is news to the decoder unless it is data that has come before. */
  lemma NewsOrKnown(cfg: Config, kind: Kind, window: nat, t0: real, u: C.State, rs: seq<RR.Event>, s: State, e: Event,
                    group: nat, arrived: set<(nat, bool)>)
    requires C.Numbered(u) && (e.Datagram? ==> FromChannel(u, e.data))
    requires s.reorder == RR.After(window, t0, rs) && forall x :: x in rs ==> FromLog(u, x)
    requires AcceptedArrived(cfg, kind, u, RR.Accepted(window, t0, rs), group, arrived)
    ensures var xs := ShareOf(cfg, kind, s, e);
            && |xs| <= 1
            && (arrived + if xs == [] then {} else SeenIn(xs[0], group))
               == arrived + BroughtInTime(cfg, kind, window, t0, rs, e, group)
  {
    hide RR.After, RR.Accepted, RR.Skipped, FromChannel;
    if PacketOf(e).Some? {
      var p := PacketOf(e).value;
      ParsesToSent(u, e.data);
      RR.DuplicateMeansSeenOrSkipped(window, t0, rs, p.globalSeq);
      AcceptedFromLog(u, window, t0, rs);
    }
  }

  /** What is accepted of the group in this step has come in it, and in time. */
  lemma AcceptedInStep(cfg: Config, kind: Kind, window: nat, t0: real, u: C.State, rs: seq<RR.Event>, s: State,
                       e: Event, group: nat, arrived: set<(nat, bool)>)
    requires C.Numbered(u) && (e.Datagram? ==> FromChannel(u, e.data)) && s.reorder == RR.After(window, t0, rs)
    requires AcceptedArrived(cfg, kind, u, RR.Accepted(window, t0, rs), group, arrived)
    ensures AcceptedArrived(cfg, kind, u, RR.Accepted(window, t0, rs + ReorderEvent(s, e)), group,
                            arrived + BroughtInTime(cfg, kind, window, t0, rs, e, group))
  {
    hide RR.After, RR.Accepted, RR.Skipped, FromChannel;
    RR.AcceptedMore(window, t0, rs, ReorderEvent(s, e));
    if PacketOf(e).Some? {
      ParsesToSent(u, e.data);
      RR.DuplicateMeansSeenOrSkipped(window, t0, rs, PacketOf(e).value.globalSeq);
    }
  }

  lemma AtMostOneReorderEvent(s: State, e: Event)
    ensures |ReorderEvent(s, e)| <= 1
  {
  }

  /** The decoder has seen of a group exactly what has arrived before its number was given up. */
  lemma {:induction false} SeenIsInTime(cfg: Config, kind: Kind, window: nat, t0: real, u: C.State, es: seq<Event>,
                                        group: nat)
    requires C.Numbered(u) && forall e :: e in es && e.Datagram? ==> FromChannel(u, e.data)
    ensures SeenShares(Shares(cfg, kind, window, t0, es), group) == InTime(cfg, kind, window, t0, es, group)
    ensures AcceptedArrived(cfg, kind, u, RR.Accepted(window, t0, ReorderEvents(cfg, window, t0, es)), group,
                            InTime(cfg, kind, window, t0, es, group))
  {
    hide Step, ShareOf, SeenIn, ReorderEvent, BroughtInTime, RR.Accepted, RR.Skipped, RR.After, FromChannel;
    if es == [] {
      RR.NothingAccepted(window, t0);
    } else {
      var n := |es| - 1;
      var s, e := After(cfg, window, t0, es[..n]), es[n];
      var rs := ReorderEvents(cfg, window, t0, es[..n]);
      assert forall x :: x in es[..n] ==> x in es;
      assert e in es;
      AtMostOneReorderEvent(s, e);
      SeenIsInTime(cfg, kind, window, t0, u, es[..n], group);
      ReorderRun(cfg, window, t0, es[..n]);
      ArrivalsAreLogged(cfg, window, t0, u, es[..n]);
      var arrived := InTime(cfg, kind, window, t0, es[..n], group);
      NewsOrKnown(cfg, kind, window, t0, u, rs, s, e, group, arrived);
      AcceptedInStep(cfg, kind, window, t0, u, rs, s, e, group, arrived);
      SeenSharesMore(Shares(cfg, kind, window, t0, es[..n]), ShareOf(cfg, kind, s, e), group);
    }
  }

  // ---------- all of it is the encoder's ----------

  /** Everything a decoder that is its kind's alone sees was put out by the encoder of its kind. */
  ghost predicate FromKind(cfg: Config, kind: Kind, e: EncState, x: Share) {
    x.Got? ==> EmittedKind(cfg, e, kind, FecOut(x.payload, Meta(x.gid, x.index, 0, x.isParity, false)))
  }

  lemma ShareIsEmitted(cfg: Config, kind: Kind, u: C.State, s: State, e: Event)
    requires C.Numbered(u) && C.Encoded(cfg, kind, u) && (e.Datagram? ==> FromChannel(u, e.data))
    ensures forall x :: x in ShareOf(cfg, kind, s, e) ==> FromKind(cfg, kind, u.enc, x)
  {
    hide FromChannel, EmittedKind, C.Encoded;
    if PacketOf(e).Some? {
      var p := PacketOf(e).value;
      ParsesToSent(u, e.data);
      SentIsEmitted(cfg, kind, u, p);
      SameKind(cfg, u.enc, kind, FecOut(p.payload, MetaOf(p)),
               FecOut(p.payload, Meta(p.gid, p.index, 0, p.IsFecParity(), false)));
    }
  }

  lemma {:induction false} SharesAreEmitted(cfg: Config, kind: Kind, window: nat, t0: real, u: C.State, es: seq<Event>)
    requires C.Numbered(u) && C.Encoded(cfg, kind, u)
    requires forall e :: e in es && e.Datagram? ==> FromChannel(u, e.data)
    ensures forall x :: x in Shares(cfg, kind, window, t0, es) ==> FromKind(cfg, kind, u.enc, x)
  {
    hide Step, FromChannel, ShareOf, FromKind, C.Encoded;
    if es != [] {
      var n := |es| - 1;
      assert forall e :: e in es[..n] ==> e in es;
      SharesAreEmitted(cfg, kind, window, t0, u, es[..n]);
      assert es[n] in es;
      ShareIsEmitted(cfg, kind, u, After(cfg, window, t0, es[..n]), es[n]);
    }
  }
}
