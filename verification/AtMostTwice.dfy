/** No packet is recovered twice while its group is remembered, and none is written more than twice. */
module AtMostTwice {
  import opened Collections
  import opened Bytes
  import opened Packet
  import opened FecEngine
  import opened KindRuns
  import opened Server
  import opened EndToEnd
  import opened DecoderShares
  import opened Arrivals
  import opened DecodedOnce
  import C = Client
  import XorFec
  import RB = ReorderBuffer
  import RR = ReorderRuns
  import RF = RsFec
  import XD = XorDecoder
  import RD = RsDecoder

  /** The group ids remembered by the decoder of this kind. */
  function DeliveredOf(d: DecState, kind: Kind): set<nat> {
    match kind
    case XorKind => d.xor.delivered
    case RsKind => d.rs.delivered
    case HeavyKind => d.heavy.delivered
  }

  /** The group ids remembered by the decoder that packets of this group size go to. */
  function RememberedBy(cfg: Config, d: DecState, groupSize: nat): set<nat> {
    match cfg.Dispatch(groupSize)
    case None => {}
    case Some(kind) => DeliveredOf(d, kind)
  }

  /** Two writes that name the same packet of the same group of the same decoder. */
  predicate SamePacket(cfg: Config, a: Write, b: Write) {
    a.Recovered? && b.Recovered? && cfg.Dispatch(a.meta.groupSize) == cfg.Dispatch(b.meta.groupSize)
    && a.meta.gid == b.meta.gid && a.index == b.index
  }

  /** Every recovered group has stayed in memory ever since. */
  ghost predicate GroupsRemembered(cfg: Config, window: nat, t0: real, es: seq<Event>) {
    es != [] ==>
      var n := |es| - 1;
      && GroupsRemembered(cfg, window, t0, es[..n])
      && forall w :: w in Writes(cfg, window, t0, es[..n]) && w.Recovered? ==>
           w.meta.gid in RememberedBy(cfg, After(cfg, window, t0, es[..n]).fec, w.meta.groupSize)
  }

  ghost predicate DistinctRecoveries(r: RD.Recoveries) {
    forall i, j :: 0 <= i < j < |r| ==> r[i].0 != r[j].0
  }

  lemma RsTryDistinct(c: RF.Codec, k: nat, p: nat, s: RD.State, gid: nat)
    ensures DistinctRecoveries(RD.TryRecoverStep(c, k, p, s, gid).1)
  {
    hide RF.Decoded;
  }

  /** A step recovers different packets, of a group not remembered before. */
  lemma StepRecoversOnce(cfg: Config, d: DecState, m: Meta, payload: bytes, now: real)
    ensures var r := DecodeStep(cfg, d, m, payload, now).1;
            DistinctRecoveries(r) && (r != [] ==> cfg.Dispatch(m.groupSize).Some?
                                                  && m.gid !in RememberedBy(cfg, d, m.groupSize))
  {
    hide RD.TryRecoverStep, XD.TryRecoverStep;
    RsTryDistinct(cfg.rsCodec, cfg.rsData, cfg.rsParity, RD.Store(d.rs, m.gid, m.index, payload, now), m.gid);
    RsTryDistinct(cfg.heavyCodec, cfg.HeavyData(), cfg.HeavyParity(),
                  RD.Store(d.heavy, m.gid, m.index, payload, now), m.gid);
  }

  ghost predicate NoneTwice(cfg: Config, w: seq<Write>) {
    forall i, j :: 0 <= i < j < |w| ==> !SamePacket(cfg, w[i], w[j])
  }

  /** The recovered writes of a server step. */
  lemma StepWrites(cfg: Config, window: nat, s: State, e: Event)
    ensures var w := Step(cfg, window, s, e).1;
            && NoneTwice(cfg, w)
            && forall x :: x in w && x.Recovered? ==> x.meta.gid !in RememberedBy(cfg, s.fec, x.meta.groupSize)
  {
    hide NewPacketStep, RB.CheckStep, RememberedBy;
    if PacketOf(e).Some? { PacketWrites(cfg, window, s, PacketOf(e).value, e.now); }
  }

  lemma PacketWrites(cfg: Config, window: nat, s: State, p: Packet, now: real)
    ensures var w := NewPacketStep(cfg, window, s, p, now).1;
            && NoneTwice(cfg, w)
            && forall x :: x in w && x.Recovered? ==> x.meta.gid !in RememberedBy(cfg, s.fec, x.meta.groupSize)
  {
    hide DecodeStep, RB.InsertStep, RememberedBy;
    StepRecoversOnce(cfg, s.fec, MetaOf(p), p.payload, now);
  }

  lemma OtherPacket(cfg: Config, d: DecState, a: Write, b: Write)
    requires a.Recovered? ==> a.meta.gid in RememberedBy(cfg, d, a.meta.groupSize)
    requires b.Recovered? ==> b.meta.gid !in RememberedBy(cfg, d, b.meta.groupSize)
    ensures !SamePacket(cfg, a, b)
  {
  }

  /** Whatever arrives: while the groups recovered stay remembered, no packet of a group is recovered twice. */
  lemma {:induction false} NoneRecoveredTwice(cfg: Config, window: nat, t0: real, es: seq<Event>)
    requires GroupsRemembered(cfg, window, t0, es)
    ensures NoneTwice(cfg, Writes(cfg, window, t0, es))
  {
    if es != [] {
      hide Step, After;
      var n := |es| - 1;
      NoneRecoveredTwice(cfg, window, t0, es[..n]);
      var s := After(cfg, window, t0, es[..n]);
      StepWrites(cfg, window, s, es[n]);
      var a, b := Writes(cfg, window, t0, es[..n]), Step(cfg, window, s, es[n]).1;
      hide GroupsRemembered, SamePacket, RememberedBy;
      forall i, j | 0 <= i < |a| && 0 <= j < |b| ensures !SamePacket(cfg, a[i], b[j]) {
        assert a[i] in a && b[j] in b;
        OtherPacket(cfg, s.fec, a[i], b[j]);
      }
    }
  }

  // ---------- no packet twice, however many groups are forgotten ----------

  /** At least two data packets to a parity packet. */
  predicate Plentiful(cfg: Config, kind: Kind) {
    DataOf(cfg, kind) >= 2 * ParityOf(cfg, kind)
  }

  /** What share j makes the decoder of this kind return. */
  ghost function Gives(cfg: Config, kind: Kind, xs: seq<Share>, j: nat): RD.Recoveries
    requires j < |xs|
  {
    if kind == XorKind then AsList(XD.Output(cfg.xorSize, XD.INIT, AllAsXor(xs), j))
    else RsOutput(cfg, kind, AllAsShards(xs), j)
  }

  function AsList(r: XD.Recovery): RD.Recoveries {
    if r.Some? then [r.value] else []
  }

  /** What one more share makes the decoder return in this state. */
  ghost function GivesNow(cfg: Config, kind: Kind, d: DecState, x: Share): RD.Recoveries {
    if kind == XorKind then AsList(XD.Step(cfg.xorSize, d.xor, AsXor(x)).1)
    else RsStep(cfg, kind, RsState(d, kind), AsShard(x)).1
  }

  lemma GivesMore(cfg: Config, kind: Kind, window: nat, t0: real, es: seq<Event>, x: Share)
    ensures var xs := Shares(cfg, kind, window, t0, es);
            && Gives(cfg, kind, xs + [x], |xs|) == GivesNow(cfg, kind, After(cfg, window, t0, es).fec, x)
            && forall j :: 0 <= j < |xs| ==> Gives(cfg, kind, xs + [x], j) == Gives(cfg, kind, xs, j)
  {
    hide AsXor, AsShard, XD.Step, XD.Output, XD.After, RsStep, RsAfter, RsOutput, AllAsXor, AllAsShards, After, RsState;
    var xs := Shares(cfg, kind, window, t0, es);
    if kind == XorKind {
      XorRun(cfg, window, t0, es);
      AllAsXorMore(xs, [x]);
      XorAfterMore(cfg.xorSize, AllAsXor(xs), AsXor(x));
    } else {
      ShardRun(cfg, kind, window, t0, es);
      AllAsShardsMore(xs, [x]);
      ShardAfterMore(cfg, kind, AllAsShards(xs), AsShard(x));
    }
  }

  /** The write is one of the recoveries that the share gives. */
  ghost predicate WriteOf(w: Write, x: Share, rs: RD.Recoveries) {
    w.Recovered? && x.Got? && x.gid == w.meta.gid && (w.index, w.payload) in rs
  }

  /** A recovered write of a step is what the step's share gives. */
  lemma StepGives(cfg: Config, kind: Kind, window: nat, s: State, e: Event, w: Write)
    requires w in Step(cfg, window, s, e).1 && w.Recovered? && cfg.Dispatch(w.meta.groupSize) == Some(kind)
    ensures var xs := ShareOf(cfg, kind, s, e);
            |xs| == 1 && WriteOf(w, xs[0], GivesNow(cfg, kind, s.fec, xs[0]))
  {
    hide NewPacketStep, RB.CheckStep, GivesNow;
    PacketGives(cfg, kind, window, s, PacketOf(e).value, e.now, w);
  }

  lemma PacketGives(cfg: Config, kind: Kind, window: nat, s: State, p: Packet, now: real, w: Write)
    requires w in NewPacketStep(cfg, window, s, p, now).1 && w.Recovered?
    requires cfg.Dispatch(w.meta.groupSize) == Some(kind)
    ensures cfg.Dispatch(p.groupSize) == Some(kind)
    ensures var x := Got(p.gid, p.index, p.IsFecParity(), p.payload, now);
            WriteOf(w, x, GivesNow(cfg, kind, s.fec, x))
  {
    hide DecodeStep, RB.InsertStep, GivesNow;
    var l := DecodeStep(cfg, s.fec, MetaOf(p), p.payload, now).1;
    var ws := RecoveredWrites(MetaOf(p), l);
    assert w in ws;
    var j :| 0 <= j < |ws| && ws[j] == w;
    assert l[j] in l;
    DecodeGives(cfg, kind, s.fec, MetaOf(p), p.payload, now);
  }

  lemma DecodeGives(cfg: Config, kind: Kind, d: DecState, m: Meta, payload: bytes, now: real)
    requires cfg.Dispatch(m.groupSize) == Some(kind)
    ensures DecodeStep(cfg, d, m, payload, now).1
            == GivesNow(cfg, kind, d, Got(m.gid, m.index, m.isParity, payload, now))
  {
    hide XD.ReceiveStep, RD.ReceiveStep;
  }

  /** A recovered write of this kind was given by some share. */
  ghost predicate GivenAt(cfg: Config, kind: Kind, xs: seq<Share>, w: Write, j: nat) {
    j < |xs| && WriteOf(w, xs[j], Gives(cfg, kind, xs, j))
  }

  lemma {:induction false} WrittenWasGiven(cfg: Config, kind: Kind, window: nat, t0: real, es: seq<Event>, w: Write)
    returns (j: nat)
    requires w in Writes(cfg, window, t0, es) && w.Recovered? && cfg.Dispatch(w.meta.groupSize) == Some(kind)
    ensures GivenAt(cfg, kind, Shares(cfg, kind, window, t0, es), w, j)
  {
    hide Step, ShareOf, Gives, GivesNow;
    var n := |es| - 1;
    var before, s := Shares(cfg, kind, window, t0, es[..n]), After(cfg, window, t0, es[..n]);
    var more := ShareOf(cfg, kind, s, es[n]);
    OneShare(cfg, kind, s, es[n]);
    if more == [] { assert before + more == before; } else { GivesMore(cfg, kind, window, t0, es[..n], more[0]); }
    if w in Writes(cfg, window, t0, es[..n]) {
      j := WrittenWasGiven(cfg, kind, window, t0, es[..n], w);
    } else {
      StepGives(cfg, kind, window, s, es[n], w);
      j := |before|;
    }
  }

  lemma OneShare(cfg: Config, kind: Kind, s: State, e: Event)
    ensures var xs := ShareOf(cfg, kind, s, e); xs == [] || xs == [xs[0]]
  {
  }

  /** Two shares never give the same packet of a group. */
  lemma GivesOnce(cfg: Config, kind: Kind, e: EncState, xs: seq<Share>, i: nat, j: nat, a: Write, b: Write)
    requires Plentiful(cfg, kind) && OnceEach(xs) && forall x :: x in xs ==> FromKind(cfg, kind, e, x)
    requires i < j && GivenAt(cfg, kind, xs, a, i) && GivenAt(cfg, kind, xs, b, j)
    ensures a.meta.gid != b.meta.gid || a.index != b.index
  {
    hide XD.Output, RD.Output, FromKind, OnceEach, Plentiful;
    if a.meta.gid == b.meta.gid {
      PlentifulMeans(cfg, kind);
      if kind == XorKind {
        OnceForXor(xs);
        XD.NeverTwice(cfg.xorSize, AllAsXor(xs), i, j);
      } else {
        OnceForShards(cfg, kind, e, xs);
        RD.NeverTwice(CodecOf(cfg, kind), DataOf(cfg, kind), ParityOf(cfg, kind), AllAsShards(xs), i, j,
                      (a.index, a.payload), (b.index, b.payload));
      }
    }
  }

  lemma PlentifulMeans(cfg: Config, kind: Kind)
    requires Plentiful(cfg, kind)
    ensures kind == XorKind ==> cfg.xorSize >= 2
    ensures DataOf(cfg, kind) >= 2 * ParityOf(cfg, kind)
  {
  }

  lemma OnceForXor(xs: seq<Share>)
    requires OnceEach(xs)
    ensures XD.DataOnce(AllAsXor(xs))
  {
  }

  lemma OnceForShards(cfg: Config, kind: Kind, e: EncState, xs: seq<Share>)
    requires kind != XorKind && OnceEach(xs) && forall x :: x in xs ==> FromKind(cfg, kind, e, x)
    ensures RD.DataOnce(DataOf(cfg, kind), AllAsShards(xs))
    ensures RD.InGroups(DataOf(cfg, kind) + ParityOf(cfg, kind), AllAsShards(xs))
  {
    hide FromKind;
    var es := AllAsShards(xs);
    forall i | 0 <= i < |xs| && xs[i].Got?
      ensures es[i].index < DataOf(cfg, kind) + ParityOf(cfg, kind)
      ensures es[i].index < DataOf(cfg, kind) <==> IsData(xs[i])
    {
      assert xs[i] in xs;
      IndexOfShare(cfg, kind, e, xs[i]);
    }
  }

  lemma IndexOfShare(cfg: Config, kind: Kind, e: EncState, x: Share)
    requires kind != XorKind && x.Got? && FromKind(cfg, kind, e, x)
    ensures x.index < DataOf(cfg, kind) + ParityOf(cfg, kind) && (x.index < DataOf(cfg, kind) <==> !x.isParity)
  {
  }

  /** Recovered writes that go to the same place, or nowhere, are of different packets. */
  ghost predicate NoneTwiceOf(cfg: Config, to: Option<Kind>, w: seq<Write>) {
    forall i, j :: 0 <= i < j < |w| && w[i].Recovered? && cfg.Dispatch(w[i].meta.groupSize) == to ==>
      !SamePacket(cfg, w[i], w[j])
  }

  /**
   Whatever the channel does, however long the run, and however many groups expire and are forgotten: if a decoder is
   its kind's alone, and there are at least two data packets to a parity packet, it recovers no packet twice.
   */
  lemma {:induction false} NeverRecoveredTwice(cfg: Config, kind: Kind, mode: Mode, sends: seq<C.Event>, window: nat,
                                               t0: real, es: seq<Event>)
    requires cfg.xorSize >= 1 && cfg.rsData >= 1 && Plentiful(cfg, kind) && C.Own(cfg, mode, sends, kind)
    requires forall e :: e in es && e.Datagram? ==> FromChannel(C.Run(cfg, mode, sends), e.data)
    ensures NoneTwiceOf(cfg, Some(kind), Writes(cfg, window, t0, es))
  {
    hide Step, After, C.Run, C.Own, FromChannel, Plentiful, SamePacket;
    if es != [] {
      var n := |es| - 1;
      assert forall e :: e in es[..n] ==> e in es;
      NeverRecoveredTwice(cfg, kind, mode, sends, window, t0, es[..n]);
      var s := After(cfg, window, t0, es[..n]);
      StepWrites(cfg, window, s, es[n]);
      forall a, b | a in Writes(cfg, window, t0, es[..n]) && b in Step(cfg, window, s, es[n]).1
                    && a.Recovered? && cfg.Dispatch(a.meta.groupSize) == Some(kind)
        ensures !SamePacket(cfg, a, b)
      {
        LaterGivesAnother(cfg, kind, mode, sends, window, t0, es, a, b);
      }
      NoneTwiceMore(cfg, kind, Writes(cfg, window, t0, es[..n]), Step(cfg, window, s, es[n]).1);
    }
  }

  lemma NoneTwiceMore(cfg: Config, kind: Kind, w: seq<Write>, more: seq<Write>)
    requires NoneTwiceOf(cfg, Some(kind), w) && NoneTwice(cfg, more)
    requires forall a, b :: a in w && b in more && a.Recovered? && cfg.Dispatch(a.meta.groupSize) == Some(kind) ==>
               !SamePacket(cfg, a, b)
    ensures NoneTwiceOf(cfg, Some(kind), w + more)
  {
    hide SamePacket;
  }

  lemma LaterGivesAnother(cfg: Config, kind: Kind, mode: Mode, sends: seq<C.Event>, window: nat, t0: real,
                          es: seq<Event>, a: Write, b: Write)
    requires cfg.xorSize >= 1 && cfg.rsData >= 1 && Plentiful(cfg, kind) && C.Own(cfg, mode, sends, kind)
    requires forall e :: e in es && e.Datagram? ==> FromChannel(C.Run(cfg, mode, sends), e.data)
    requires es != [] && a in Writes(cfg, window, t0, es[..|es| - 1])
    requires b in Step(cfg, window, After(cfg, window, t0, es[..|es| - 1]), es[|es| - 1]).1
    requires a.Recovered? && cfg.Dispatch(a.meta.groupSize) == Some(kind)
    ensures !SamePacket(cfg, a, b)
  {
    hide Step, After, ShareOf, C.Run, C.Own, FromChannel, Plentiful, Gives, GivesNow, OnceEach, FromKind;
    if SamePacket(cfg, a, b) {
      var n := |es| - 1;
      var u, s := C.Run(cfg, mode, sends), After(cfg, window, t0, es[..n]);
      var before, more := Shares(cfg, kind, window, t0, es[..n]), ShareOf(cfg, kind, s, es[n]);
      var i := WrittenWasGiven(cfg, kind, window, t0, es[..n], a);
      StepGives(cfg, kind, window, s, es[n], b);
      OneShare(cfg, kind, s, es[n]);
      GivesMore(cfg, kind, window, t0, es[..n], more[0]);
      DataReachesOnce(cfg, kind, mode, sends, window, t0, es);
      C.RunNumbered(cfg, mode, sends);
      C.RunEncoded(cfg, kind, mode, sends);
      SharesAreEmitted(cfg, kind, window, t0, u, es);
      GivesOnce(cfg, kind, u.enc, before + more, i, |before|, a, b);
    }
  }

  // ---------- at most two writes ----------

  /** The write is of packet q: released under its number, or recovered under its group and index. */
  predicate StandsFor(cfg: Config, log: seq<FecOut>, w: Write, q: nat)
    requires q < |log|
  {
    match w
    case Released(number, _) => number == q
    case Recovered(meta, index, _) =>
      && cfg.Dispatch(meta.groupSize) == cfg.Dispatch(log[q].meta.groupSize)
      && meta.gid == log[q].meta.gid && index == log[q].meta.index
  }

  /** Two releases keep their order in the list of releases. */
  lemma {:induction false} ReleasedInOrder(w: seq<Write>, i: nat, j: nat) returns (a: nat, b: nat)
    requires i < j < |w| && w[i].Released? && w[j].Released?
    ensures a < b < |ReleasedOf(w)| && ReleasedOf(w)[a].0 == w[i].q && ReleasedOf(w)[b].0 == w[j].q
  {
    var n := |w| - 1;
    if j < n {
      a, b := ReleasedInOrder(w[..n], i, j);
    } else {
      a := ReleasedAt(w[..n], i);
      b := |ReleasedOf(w[..n])|;
    }
  }

  lemma {:induction false} ReleasedAt(w: seq<Write>, i: nat) returns (a: nat)
    requires i < |w| && w[i].Released?
    ensures a < |ReleasedOf(w)| && ReleasedOf(w)[a].0 == w[i].q
  {
    var n := |w| - 1;
    if i < n {
      a := ReleasedAt(w[..n], i);
    } else {
      a := |ReleasedOf(w[..n])|;
    }
  }

  /** Two writes of one packet are a release and a recovery. */
  lemma OneOfEach(cfg: Config, window: nat, t0: real, es: seq<Event>, log: seq<FecOut>, q: nat, i: nat, j: nat)
    requires q < |log| && i < j < |Writes(cfg, window, t0, es)|
    requires NoneTwiceOf(cfg, cfg.Dispatch(log[q].meta.groupSize), Writes(cfg, window, t0, es))
    requires var w := Writes(cfg, window, t0, es); StandsFor(cfg, log, w[i], q) && StandsFor(cfg, log, w[j], q)
    ensures var w := Writes(cfg, window, t0, es); w[i].Released? <==> w[j].Recovered?
  {
    hide Writes, ReleasedOf, After, RR.Out, RR.After, ReorderEvents;
    var w := Writes(cfg, window, t0, es);
    if w[i].Released? && w[j].Released? {
      var a, b := ReleasedInOrder(w, i, j);
      ReleasesAscend(cfg, window, t0, es);
    }
  }

  lemma ReleasesAscend(cfg: Config, window: nat, t0: real, es: seq<Event>)
    ensures var r := ReleasedOf(Writes(cfg, window, t0, es)); forall i, j :: 0 <= i < j < |r| ==> r[i].0 < r[j].0
  {
    hide Writes, ReleasedOf, After, RR.Out, RR.After, RR.Accepted, RR.Skipped, ReorderEvents, RB.Inv;
    var rs := ReorderEvents(cfg, window, t0, es);
    ReorderRun(cfg, window, t0, es);
    RR.Conservation(window, t0, rs);
    RR.BelowAscends(RR.Accepted(window, t0, rs), RR.After(window, t0, rs).next);
  }

  /** No three writes are of packet q. */
  ghost predicate AtMostTwo(cfg: Config, log: seq<FecOut>, w: seq<Write>, q: nat)
    requires q < |log|
  {
    forall i, j, k :: 0 <= i < j < k < |w| ==>
      !(StandsFor(cfg, log, w[i], q) && StandsFor(cfg, log, w[j], q) && StandsFor(cfg, log, w[k], q))
  }

  lemma ReleasedAndRecovered(cfg: Config, window: nat, t0: real, es: seq<Event>, log: seq<FecOut>, q: nat)
    requires q < |log| && NoneTwiceOf(cfg, cfg.Dispatch(log[q].meta.groupSize), Writes(cfg, window, t0, es))
    ensures AtMostTwo(cfg, log, Writes(cfg, window, t0, es), q)
  {
    hide Writes, StandsFor, NoneTwiceOf;
    var w := Writes(cfg, window, t0, es);
    forall i, j, k | 0 <= i < j < k < |w| && StandsFor(cfg, log, w[i], q) && StandsFor(cfg, log, w[j], q)
      ensures !StandsFor(cfg, log, w[k], q)
    {
      if StandsFor(cfg, log, w[k], q) {
        OneOfEach(cfg, window, t0, es, log, q, i, j);
        OneOfEach(cfg, window, t0, es, log, q, i, k);
        OneOfEach(cfg, window, t0, es, log, q, j, k);
      }
    }
  }

  /**
   No packet of the client is written three times: if the decoder it goes to is its kind's alone and there are at least
   two data packets to a parity packet, or while the groups recovered stay remembered.
   */
  lemma WrittenAtMostTwice(cfg: Config, mode: Mode, sends: seq<C.Event>, window: nat, t0: real, es: seq<Event>, q: nat)
    requires cfg.xorSize >= 1 && cfg.rsData >= 1 && q < |C.Run(cfg, mode, sends).log|
    requires forall e :: e in es && e.Datagram? ==> FromChannel(C.Run(cfg, mode, sends), e.data)
    requires var kind := cfg.Dispatch(C.Run(cfg, mode, sends).log[q].meta.groupSize);
             || (kind.Some? ==> Plentiful(cfg, kind.value) && C.Own(cfg, mode, sends, kind.value))
             || GroupsRemembered(cfg, window, t0, es)
    ensures AtMostTwo(cfg, C.Run(cfg, mode, sends).log, Writes(cfg, window, t0, es), q)
  {
    hide C.Run, C.Own, Writes, FromChannel, GroupsRemembered, AtMostTwo, Plentiful, NoneTwiceOf;
    var log := C.Run(cfg, mode, sends).log;
    var to := cfg.Dispatch(log[q].meta.groupSize);
    if GroupsRemembered(cfg, window, t0, es) {
      NoneRecoveredTwice(cfg, window, t0, es);
      NoneTwiceOfAny(cfg, to, Writes(cfg, window, t0, es));
    } else if to.Some? {
      NeverRecoveredTwice(cfg, to.value, mode, sends, window, t0, es);
    } else {
      RecoveredHasKind(cfg, window, t0, es);
      NothingOfNoKind(cfg, Writes(cfg, window, t0, es));
    }
    ReleasedAndRecovered(cfg, window, t0, es, log, q);
  }

  lemma NoneTwiceOfAny(cfg: Config, to: Option<Kind>, w: seq<Write>)
    requires NoneTwice(cfg, w)
    ensures NoneTwiceOf(cfg, to, w)
  {
  }

  lemma NothingOfNoKind(cfg: Config, w: seq<Write>)
    requires forall x :: x in w && x.Recovered? ==> cfg.Dispatch(x.meta.groupSize).Some?
    ensures NoneTwiceOf(cfg, None, w)
  {
    forall i | 0 <= i < |w| && w[i].Recovered? ensures cfg.Dispatch(w[i].meta.groupSize).Some? {
      assert w[i] in w;
    }
  }

  // ---------- when groups stay remembered ----------

  /** How many group ids the decoder of this kind remembers before it forgets some. */
  function Limit(kind: Kind): nat {
    if kind == XorKind then XD.MAX_ACTIVE_GROUPS else RD.MAX_DELIVERED
  }

  /** How many groups the decoder of this kind has closed: steps that changed its memory. */
  ghost function Closings(cfg: Config, kind: Kind, window: nat, t0: real, es: seq<Event>): nat {
    if es == [] then 0 else
      var n := |es| - 1;
      Closings(cfg, kind, window, t0, es[..n])
      + if DeliveredOf(After(cfg, window, t0, es).fec, kind) == DeliveredOf(After(cfg, window, t0, es[..n]).fec, kind)
        then 0 else 1
  }

  lemma RoomForOneMore(delivered: set<nat>, gid: nat)
    ensures |delivered| < XD.MAX_ACTIVE_GROUPS ==> XD.Remember(delivered, gid) == delivered + {gid}
    ensures |delivered| < RD.MAX_DELIVERED ==> RD.Purged(delivered + {gid}) == delivered + {gid}
    ensures gid !in delivered ==> |delivered + {gid}| == |delivered| + 1
  {
  }

  lemma XorMemoryGrows(n: nat, s: XD.State, gid: nat, index: nat, isParity: bool, payload: bytes, now: real)
    requires |s.delivered| < XD.MAX_ACTIVE_GROUPS
    ensures var (t, r) := XD.ReceiveStep(n, s, gid, index, isParity, payload, now);
            && (t.delivered == s.delivered || (t.delivered == s.delivered + {gid} && gid !in s.delivered))
            && (r.Some? ==> gid in t.delivered)
  {
    hide XorFec.XorOver, XorBytes, MinOf, XD.Remember, XD.State.Recoverable;
    RoomForOneMore(s.delivered, gid);
  }

  lemma ShardMemoryGrows(c: RF.Codec, k: nat, p: nat, s: RD.State, gid: nat, index: nat, payload: bytes, now: real)
    requires |s.delivered| < RD.MAX_DELIVERED
    ensures var (t, r) := RD.ReceiveStep(c, k, p, s, gid, index, payload, now);
            && (t.delivered == s.delivered || (t.delivered == s.delivered + {gid} && gid !in s.delivered))
            && (r != [] ==> gid in t.delivered)
  {
    hide RF.Decoded, SortedSeq, RD.Purged, RD.MissingData;
    RoomForOneMore(s.delivered, gid);
  }

  /** While there is room, a step only adds to the memory, at most its own group, and each group recovered. */
  lemma MemoryGrows(cfg: Config, kind: Kind, d: DecState, m: Meta, payload: bytes, now: real)
    requires |DeliveredOf(d, kind)| < Limit(kind)
    ensures var (d', r) := DecodeStep(cfg, d, m, payload, now);
            var before, after := DeliveredOf(d, kind), DeliveredOf(d', kind);
            && (after == before || (after == before + {m.gid} && m.gid !in before))
            && (cfg.Dispatch(m.groupSize) == Some(kind) && r != [] ==> m.gid in after)
  {
    hide XD.ReceiveStep, RD.ReceiveStep;
    match kind
    case XorKind => XorMemoryGrows(cfg.xorSize, d.xor, m.gid, m.index, m.isParity, payload, now);
    case RsKind => ShardMemoryGrows(cfg.rsCodec, cfg.rsData, cfg.rsParity, d.rs, m.gid, m.index, payload, now);
    case HeavyKind =>
      ShardMemoryGrows(cfg.heavyCodec, cfg.HeavyData(), cfg.HeavyParity(), d.heavy, m.gid, m.index, payload, now);
  }

  /** Without any closing a step recovers nothing; with room, what it recovers is remembered. */
  lemma StepRemembers(cfg: Config, kind: Kind, window: nat, s: State, e: Event)
    requires |DeliveredOf(s.fec, kind)| < Limit(kind)
    ensures var (t, w) := Step(cfg, window, s, e);
            var before, after := DeliveredOf(s.fec, kind), DeliveredOf(t.fec, kind);
            && before <= after && |after| <= |before| + (if after == before then 0 else 1)
            && forall x :: x in w && x.Recovered? && cfg.Dispatch(x.meta.groupSize) == Some(kind) ==>
                 x.meta.gid in after
  {
    hide DecodeStep, RB.InsertStep, RB.CheckStep;
    if PacketOf(e).Some? {
      var p := PacketOf(e).value;
      MemoryGrows(cfg, kind, s.fec, MetaOf(p), p.payload, e.now);
      RoomForOneMore(DeliveredOf(s.fec, kind), p.gid);
    }
  }

  lemma ForgettingShows(delivered: set<nat>, gid: nat)
    requires gid !in delivered
    ensures |delivered| <= XD.MAX_ACTIVE_GROUPS ==> XD.Remember(delivered, gid) != delivered
    ensures |delivered| <= RD.MAX_DELIVERED ==> RD.Purged(delivered + {gid}) != delivered
  {
    assert |delivered + {gid}| == |delivered| + 1;
  }

  /** A recovery changes the memory. */
  lemma RecoveryCloses(cfg: Config, kind: Kind, d: DecState, m: Meta, payload: bytes, now: real)
    requires |DeliveredOf(d, kind)| <= Limit(kind) && cfg.Dispatch(m.groupSize) == Some(kind)
    requires DecodeStep(cfg, d, m, payload, now).1 != []
    ensures DeliveredOf(DecodeStep(cfg, d, m, payload, now).0, kind) != DeliveredOf(d, kind)
  {
    hide XD.Remember, RD.Purged, XorFec.XorOver, XorBytes, MinOf, RF.Decoded, SortedSeq, RD.MissingData;
    hide XD.State.Recoverable;
    if m.gid !in DeliveredOf(d, kind) { ForgettingShows(DeliveredOf(d, kind), m.gid); }
  }

  /** A step that closes no group recovers nothing. */
  lemma UnchangedRecoversNothing(cfg: Config, kind: Kind, window: nat, s: State, e: Event)
    requires DeliveredOf(Step(cfg, window, s, e).0.fec, kind) == DeliveredOf(s.fec, kind)
    requires |DeliveredOf(s.fec, kind)| <= Limit(kind)
    ensures forall x :: x in Step(cfg, window, s, e).1 && x.Recovered? ==>
              cfg.Dispatch(x.meta.groupSize) != Some(kind)
  {
    hide DecodeStep, RB.InsertStep, RB.CheckStep;
    if PacketOf(e).Some? {
      var p := PacketOf(e).value;
      var r := DecodeStep(cfg, s.fec, MetaOf(p), p.payload, e.now).1;
      if cfg.Dispatch(p.groupSize) == Some(kind) && !s.reorder.IsDuplicate(p.globalSeq) && r != [] {
        RecoveryCloses(cfg, kind, s.fec, MetaOf(p), p.payload, e.now);
      }
    }
  }

  /** The groups of this kind recovered in a list of writes are all in a set. */
  ghost predicate AllIn(cfg: Config, kind: Kind, w: seq<Write>, ids: set<nat>) {
    forall x :: x in w && x.Recovered? && cfg.Dispatch(x.meta.groupSize) == Some(kind) ==> x.meta.gid in ids
  }

  /** While no more groups have been closed than fit, every recovered group is remembered. */
  lemma {:induction false} RoomKeeps(cfg: Config, kind: Kind, window: nat, t0: real, es: seq<Event>)
    requires Closings(cfg, kind, window, t0, es) <= Limit(kind)
    ensures var d := DeliveredOf(After(cfg, window, t0, es).fec, kind);
            |d| <= Closings(cfg, kind, window, t0, es) && AllIn(cfg, kind, Writes(cfg, window, t0, es), d)
  {
    hide Step, DeliveredOf;
    if es == [] {
      NothingDelivered(t0, kind);
    } else {
      var n := |es| - 1;
      var s := After(cfg, window, t0, es[..n]);
      RoomKeeps(cfg, kind, window, t0, es[..n]);
      if |DeliveredOf(s.fec, kind)| < Limit(kind) {
        StepRemembers(cfg, kind, window, s, es[n]);
      } else {
        UnchangedRecoversNothing(cfg, kind, window, s, es[n]);
      }
    }
  }

  lemma NothingDelivered(t0: real, kind: Kind)
    ensures DeliveredOf(Init(t0).fec, kind) == {}
  {
  }

  /** Groups stay remembered when each decoder has closed at most as many as it remembers: 256, and 10000 each. */
  lemma {:induction false} FewGroupsAreRemembered(cfg: Config, window: nat, t0: real, es: seq<Event>)
    requires forall kind :: Closings(cfg, kind, window, t0, es) <= Limit(kind)
    ensures GroupsRemembered(cfg, window, t0, es)
  {
    if es != [] {
      hide After, Writes, DeliveredOf;
      var n := |es| - 1;
      forall kind ensures Closings(cfg, kind, window, t0, es[..n]) <= Limit(kind) {
        assert Closings(cfg, kind, window, t0, es) <= Limit(kind);
      }
      FewGroupsAreRemembered(cfg, window, t0, es[..n]);
      forall w | w in Writes(cfg, window, t0, es[..n]) && w.Recovered?
        ensures w.meta.gid in RememberedBy(cfg, After(cfg, window, t0, es[..n]).fec, w.meta.groupSize)
      {
        RecoveredHasKind(cfg, window, t0, es[..n]);
        var kind := cfg.Dispatch(w.meta.groupSize).value;
        RoomKeeps(cfg, kind, window, t0, es[..n]);
      }
    }
  }

  lemma {:induction false} RecoveredHasKind(cfg: Config, window: nat, t0: real, es: seq<Event>)
    ensures forall w :: w in Writes(cfg, window, t0, es) && w.Recovered? ==> cfg.Dispatch(w.meta.groupSize).Some?
  {
    if es != [] {
      hide Step;
      var n := |es| - 1;
      RecoveredHasKind(cfg, window, t0, es[..n]);
      StepHasKind(cfg, window, After(cfg, window, t0, es[..n]), es[n]);
    }
  }

  lemma StepHasKind(cfg: Config, window: nat, s: State, e: Event)
    ensures forall w :: w in Step(cfg, window, s, e).1 && w.Recovered? ==> cfg.Dispatch(w.meta.groupSize).Some?
  {
    hide DecodeStep, RB.InsertStep, RB.CheckStep;
    if PacketOf(e).Some? {
      var p := PacketOf(e).value;
      StepRecoversOnce(cfg, s.fec, MetaOf(p), p.payload, e.now);
    }
  }
}
