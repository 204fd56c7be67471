/** When a group expires, in terms of what arrives: how old its first packet may be when the timeout loop runs. */
module GroupAges {
  import opened Collections
  import opened Bytes
  import opened FecEngine
  import opened KindRuns
  import opened Server
  import opened EndToEnd
  import opened DecoderShares
  import opened Arrivals
  import C = Client
  import RR = ReorderRuns
  import XF = XorFec
  import XD = XorDecoder
  import RD = RsDecoder

  /** When the first packet of the group came in time. */
  ghost function FirstInTime(cfg: Config, kind: Kind, window: nat, t0: real, es: seq<Event>, group: nat): Option<real> {
    if es == [] then None else
      var n := |es| - 1;
      var before := FirstInTime(cfg, kind, window, t0, es[..n], group);
      if before.None?
         && BroughtInTime(cfg, kind, window, t0, ReorderEvents(cfg, window, t0, es[..n]), es[n], group) != {}
      then Some(es[n].now) else before
  }

  /** These packets of a group are enough for its decoder: for XOR the parity and all data but one, else k packets. */
  ghost predicate Enough(cfg: Config, kind: Kind, a: set<(nat, bool)>) {
    if kind == XorKind then ParityIn(a) && |XF.Missing(cfg.xorSize, DataIn(a))| == 1
    else |IndicesIn(a)| >= DataOf(cfg, kind)
  }

  ghost predicate EverEnough(cfg: Config, kind: Kind, window: nat, t0: real, es: seq<Event>, group: nat) {
    es != [] &&
      (EverEnough(cfg, kind, window, t0, es[..|es| - 1], group)
       || Enough(cfg, kind, InTime(cfg, kind, window, t0, es, group)))
  }

  /** Until enough of the group has come in time, no tick finds its first packet older than the timeout. */
  ghost predicate KeptAlive(cfg: Config, kind: Kind, window: nat, t0: real, es: seq<Event>, group: nat) {
    es != [] ==>
      var n := |es| - 1;
      var first := FirstInTime(cfg, kind, window, t0, es[..n], group);
      && KeptAlive(cfg, kind, window, t0, es[..n], group)
      && (es[n].Tick? && !EverEnough(cfg, kind, window, t0, es[..n], group) && first.Some? ==>
            es[n].now - first.value <= cfg.timeoutMs / 1000.0)
  }

  // ---------- the first packet, as the decoder sees it ----------

  function FirstShare(xs: seq<Share>, group: nat): Option<real> {
    if xs == [] then None else
      var m := |xs| - 1;
      var before := FirstShare(xs[..m], group);
      if before.None? && SeenIn(xs[m], group) != {} then Some(xs[m].now) else before
  }

  lemma FirstShareMore(xs: seq<Share>, more: seq<Share>, group: nat)
    requires |more| <= 1
    ensures FirstShare(xs + more, group)
            == if FirstShare(xs, group).None? && more != [] && SeenIn(more[0], group) != {} then Some(more[0].now)
               else FirstShare(xs, group)
  {
    hide SeenIn;
    if more == [] {
      assert xs + more == xs;
    } else {
      assert (xs + more)[..|xs|] == xs;
    }
  }

  lemma {:induction false} FirstForXor(xs: seq<Share>, group: nat)
    ensures XD.FirstOf(AllAsXor(xs), group) == FirstShare(xs, group)
  {
    if xs != [] {
      var m := |xs| - 1;
      FirstForXor(xs[..m], group);
      assert AllAsXor(xs)[..m] == AllAsXor(xs[..m]);
    }
  }

  lemma {:induction false} FirstForShards(xs: seq<Share>, group: nat)
    ensures RD.FirstOf(AllAsShards(xs), group) == FirstShare(xs, group)
  {
    if xs != [] {
      var m := |xs| - 1;
      FirstForShards(xs[..m], group);
      assert AllAsShards(xs)[..m] == AllAsShards(xs[..m]);
    }
  }

  /** A packet of the group reaches the decoder only if it comes in time; if it does not, some packet came before. */
  lemma FirstInStep(cfg: Config, kind: Kind, window: nat, t0: real, u: C.State, rs: seq<RR.Event>, s: State, e: Event,
                    group: nat, arrived: set<(nat, bool)>)
    requires C.Numbered(u) && (e.Datagram? ==> FromChannel(u, e.data))
    requires s.reorder == RR.After(window, t0, rs) && forall x :: x in rs ==> FromLog(u, x)
    requires AcceptedArrived(cfg, kind, u, RR.Accepted(window, t0, rs), group, arrived)
    ensures var xs := ShareOf(cfg, kind, s, e);
            var brought := BroughtInTime(cfg, kind, window, t0, rs, e, group);
            && |xs| <= 1
            && (xs != [] && SeenIn(xs[0], group) != {} ==> xs[0].now == e.now && brought != {})
            && (brought != {} && (xs == [] || SeenIn(xs[0], group) == {}) ==> arrived != {})
  {
    hide RR.After, RR.Accepted, RR.Skipped, FromChannel;
    if PacketOf(e).Some? {
      var p := PacketOf(e).value;
      ParsesToSent(u, e.data);
      RR.DuplicateMeansSeenOrSkipped(window, t0, rs, p.globalSeq);
      AcceptedFromLog(u, window, t0, rs);
    }
  }

  lemma {:induction false} FirstIsFirst(cfg: Config, kind: Kind, window: nat, t0: real, u: C.State, es: seq<Event>,
                                        group: nat)
    requires C.Numbered(u) && forall e :: e in es && e.Datagram? ==> FromChannel(u, e.data)
    ensures FirstShare(Shares(cfg, kind, window, t0, es), group) == FirstInTime(cfg, kind, window, t0, es, group)
    ensures InTime(cfg, kind, window, t0, es, group) != {} ==> FirstInTime(cfg, kind, window, t0, es, group).Some?
  {
    hide Step, ShareOf, SeenIn, ReorderEvent, BroughtInTime, RR.Accepted, RR.After, FromChannel, FirstShare;
    hide AcceptedArrived, FromLog, C.Numbered;
    if es == [] {
      NoFirst(group);
    } else {
      var n := |es| - 1;
      var s, e := After(cfg, window, t0, es[..n]), es[n];
      var rs := ReorderEvents(cfg, window, t0, es[..n]);
      assert forall x :: x in es[..n] ==> x in es;
      assert e in es;
      FirstIsFirst(cfg, kind, window, t0, u, es[..n], group);
      SeenIsInTime(cfg, kind, window, t0, u, es[..n], group);
      ReorderRun(cfg, window, t0, es[..n]);
      ArrivalsAreLogged(cfg, window, t0, u, es[..n]);
      FirstInStep(cfg, kind, window, t0, u, rs, s, e, group, InTime(cfg, kind, window, t0, es[..n], group));
      FirstShareMore(Shares(cfg, kind, window, t0, es[..n]), ShareOf(cfg, kind, s, e), group);
    }
  }

  lemma NoFirst(group: nat)
    ensures FirstShare([], group) == None
  {
  }

  // ---------- alive means not expired ----------

  lemma EnoughForXor(cfg: Config, xs: seq<Share>, group: nat)
    ensures Enough(cfg, XorKind, SeenShares(xs, group)) <==> XD.Complete(cfg.xorSize, AllAsXor(xs), group)
  {
    hide XF.Missing, DataIn, ParityIn, XD.SeenData, XD.SeenParity, SeenShares;
    SeenByXor(xs, group);
  }

  lemma CompleteIsEver(n: nat, es: seq<XD.Event>, group: nat)
    ensures XD.Complete(n, es, group) ==> XD.EverComplete(n, es, group)
  {
  }

  lemma XorEverMore(n: nat, es: seq<XD.Event>, e: XD.Event, group: nat)
    ensures XD.EverComplete(n, es + [e], group) <==> XD.EverComplete(n, es, group) || XD.Complete(n, es + [e], group)
    ensures XD.NotExpired(n, es + [e], group) <==>
              && XD.NotExpired(n, es, group)
              && (e.Expire? && !XD.EverComplete(n, es, group) && XD.FirstOf(es, group).Some? ==>
                    XD.FirstOf(es, group).value >= e.cutoff)
  {
    assert (es + [e])[..|es|] == es;
  }

  lemma ExpiryShare(cfg: Config, kind: Kind, s: State, e: Event)
    ensures var xs := ShareOf(cfg, kind, s, e);
            && |xs| <= 1
            && (xs != [] && xs[0].Expired? ==> e.Tick? && xs[0].cutoff == e.now - cfg.timeoutMs / 1000.0)
  {
  }

  lemma {:induction false} XorKept(cfg: Config, window: nat, t0: real, u: C.State, es: seq<Event>, group: nat)
    requires C.Numbered(u) && forall e :: e in es && e.Datagram? ==> FromChannel(u, e.data)
    requires KeptAlive(cfg, XorKind, window, t0, es, group)
    ensures XD.NotExpired(cfg.xorSize, XorEvents(cfg, window, t0, es), group)
    ensures XD.EverComplete(cfg.xorSize, XorEvents(cfg, window, t0, es), group)
            <==> EverEnough(cfg, XorKind, window, t0, es, group)
  {
    hide Step, ShareOf, After, FromChannel, C.Numbered, Enough, AllAsXor, XD.EverComplete, XD.NotExpired, XD.Complete;
    hide XD.FirstOf, FirstInTime, InTime;
    if es == [] {
      NothingForXor(cfg.xorSize, group);
    } else {
      var n, k := |es| - 1, XorKind;
      assert forall x :: x in es[..n] ==> x in es;
      XorKept(cfg, window, t0, u, es[..n], group);
      FirstIsFirst(cfg, k, window, t0, u, es[..n], group);
      SeenIsInTime(cfg, k, window, t0, u, es, group);
      var before, more := Shares(cfg, k, window, t0, es[..n]), ShareOf(cfg, k, After(cfg, window, t0, es[..n]), es[n]);
      FirstForXor(before, group);
      EnoughForXor(cfg, before + more, group);
      ExpiryShare(cfg, k, After(cfg, window, t0, es[..n]), es[n]);
      AllAsXorMore(before, more);
      CompleteIsEver(cfg.xorSize, AllAsXor(before + more), group);
      if more != [] { XorEverMore(cfg.xorSize, AllAsXor(before), AsXor(more[0]), group); }
    }
  }

  lemma NothingForXor(n: nat, group: nat)
    ensures XD.NotExpired(n, AllAsXor([]), group) && !XD.EverComplete(n, AllAsXor([]), group)
  {
  }

  lemma RsNotExpiredMore(k: nat, es: seq<RD.Event>, e: RD.Event, group: nat)
    ensures RD.NotExpired(k, es + [e], group) <==>
              && RD.NotExpired(k, es, group)
              && (e.Expire? && |RD.Seen(es, group)| < k && RD.FirstOf(es, group).Some? ==>
                    RD.FirstOf(es, group).value >= e.cutoff)
  {
    assert (es + [e])[..|es|] == es;
  }

  lemma {:induction false} EnoughStays(cfg: Config, kind: Kind, window: nat, t0: real, es: seq<Event>, group: nat)
    requires kind != XorKind
    ensures EverEnough(cfg, kind, window, t0, es, group) ==> Enough(cfg, kind, InTime(cfg, kind, window, t0, es, group))
    ensures EverEnough(cfg, kind, window, t0, es, group) <==>
              es != [] && Enough(cfg, kind, InTime(cfg, kind, window, t0, es, group))
  {
    if es != [] {
      hide BroughtInTime;
      var n := |es| - 1;
      EnoughStays(cfg, kind, window, t0, es[..n], group);
      SubsetSize(IndicesIn(InTime(cfg, kind, window, t0, es[..n], group)),
                 IndicesIn(InTime(cfg, kind, window, t0, es, group)));
    }
  }

  lemma {:induction false} ShardsKept(cfg: Config, kind: Kind, window: nat, t0: real, u: C.State, es: seq<Event>,
                                      group: nat)
    requires kind != XorKind
    requires C.Numbered(u) && forall e :: e in es && e.Datagram? ==> FromChannel(u, e.data)
    requires KeptAlive(cfg, kind, window, t0, es, group)
    ensures RD.NotExpired(DataOf(cfg, kind), ShardEvents(cfg, kind, window, t0, es), group)
  {
    hide Step, ShareOf, After, FromChannel, C.Numbered, AllAsShards, RD.NotExpired, RD.Seen, DataOf;
    hide RD.FirstOf, FirstInTime, InTime, EverEnough, IndicesIn;
    if es == [] {
      NothingForShards(DataOf(cfg, kind), group);
    } else {
      var n := |es| - 1;
      assert forall x :: x in es[..n] ==> x in es;
      ShardsKept(cfg, kind, window, t0, u, es[..n], group);
      FirstIsFirst(cfg, kind, window, t0, u, es[..n], group);
      SeenIsInTime(cfg, kind, window, t0, u, es[..n], group);
      EnoughStays(cfg, kind, window, t0, es[..n], group);
      var s := After(cfg, window, t0, es[..n]);
      var before, more := Shares(cfg, kind, window, t0, es[..n]), ShareOf(cfg, kind, s, es[n]);
      FirstForShards(before, group);
      SeenByShards(before, group);
      ExpiryShare(cfg, kind, s, es[n]);
      AllAsShardsMore(before, more);
      if more != [] { RsNotExpiredMore(DataOf(cfg, kind), AllAsShards(before), AsShard(more[0]), group); }
    }
  }

  lemma NothingForShards(k: nat, group: nat)
    ensures RD.NotExpired(k, AllAsShards([]), group)
  {
  }
}
