/** The server's recoveries are the engine's: exactly when everything written was sent, end to end. */
module ServerRecovery {
  import opened Bytes
  import opened GroupStream
  import opened Packet
  import opened FecEngine
  import opened KindRuns
  import opened Server
  import opened EndToEnd
  import opened Realization
  import opened Collisions
  import opened Mixing
  import opened Misrouting
  import C = Client
  import RB = ReorderBuffer
  import RF = RsFec
  import XF = XorFec
  import RD = RsDecoder
  import W = Witness

  // ---------- the client as a run of the engine ----------

  function EncodeOf(e: C.Event): EncEvent {
    match e
    case SetMode(m) => SetMode(m)
    case Send(payload, tier, _) => Encode(payload, tier)
  }

  function EncodesOf(sends: seq<C.Event>): (es: seq<EncEvent>)
    ensures |es| == |sends| && forall i :: 0 <= i < |es| ==> es[i] == EncodeOf(sends[i])
  {
    if sends == [] then [] else
      var n := |sends| - 1;
      EncodesOf(sends[..n]) + [EncodeOf(sends[n])]
  }

  /** Whatever copies are attempted: the log is what the engine puts out for the same payloads. */
  lemma {:induction false} ClientIsEngine(cfg: Config, mode: Mode, sends: seq<C.Event>)
    ensures var s := C.Run(cfg, mode, sends);
            s.inputs == Inputs(EncodesOf(sends)) && (s.enc, s.log) == EncRun(cfg, EncInit(mode), EncodesOf(sends))
  {
    if sends != [] {
      hide EncodeStep, C.Numbered;
      var n := |sends| - 1;
      var es := EncodesOf(sends);
      ClientIsEngine(cfg, mode, sends[..n]);
      C.RunNumbered(cfg, mode, sends[..n]);
      assert es[..n] == EncodesOf(sends[..n]);
      var s := C.Run(cfg, mode, sends[..n]);
      match sends[n]
      case SetMode(m) =>
      case Send(payload, tier, plan) =>
        var (e, outs) := EncodeStep(cfg, s.enc, payload, tier);
        C.NumberedAfterEncode(s, e, payload);
        C.SendOutsNumbered(s.(enc := e, inputs := s.inputs + [payload]), outs, plan);
    }
  }

  // ---------- the server as a run of the engine ----------

  /** A packet that is decoded: parsed and no duplicate. */
  ghost predicate Decoded(s: State, e: Event) {
    e.Datagram? && !Ignored(e.data) && !s.reorder.IsDuplicate(Deserialize(e.data).value.globalSeq)
  }

  /** What an event is to the engine: the logged output it carries, or an expiry. */
  ghost function EngineEvent(log: seq<FecOut>, s: State, e: Event): seq<DecEvent> {
    if e.Tick? then [ExpireAll(e.now)]
    else if !Decoded(s, e) then []
    else
      var q := Deserialize(e.data).value.globalSeq;
      if q < |log| then [Decode(log[q], e.now)] else []
  }

  ghost function EngineEvents(cfg: Config, window: nat, t0: real, log: seq<FecOut>, es: seq<Event>): seq<DecEvent> {
    if es == [] then [] else
      var n := |es| - 1;
      EngineEvents(cfg, window, t0, log, es[..n]) + EngineEvent(log, After(cfg, window, t0, es[..n]), es[n])
  }

  /** A recovered write is one of the recoveries from the packet with this header. */
  ghost predicate Given(w: Write, m: Meta, rs: RD.Recoveries) {
    w.Recovered? ==> IsRecovery(w, m, (w.index, w.payload)) && (w.index, w.payload) in rs
  }

  lemma PacketDecodes(cfg: Config, window: nat, u: C.State, s: State, p: Packet, now: real)
    requires C.Numbered(u) && p in u.sent
    ensures p.globalSeq < |u.log|
    ensures var o := u.log[p.globalSeq];
            var (t, w) := NewPacketStep(cfg, window, s, p, now);
            var (d, rs) := DecodeStep(cfg, s.fec, o.meta, o.payload, now);
            t.fec == d && forall x :: x in w ==> Given(x, o.meta, rs)
  {
    hide DecodeStep, RB.InsertStep;
    var o := u.log[p.globalSeq];
    assert C.Carries(p, o);
    MarkIsIgnored(cfg, s.fec, o.meta, o.payload, now);
    assert MetaOf(p) == o.meta.(replicate := false);
    NoGroupNoDecoding(cfg, s.fec, MetaOf(p), p.payload, now);
    var rs := DecodeStep(cfg, s.fec, MetaOf(p), p.payload, now).1;
    forall x | x in RecoveredWrites(MetaOf(p), rs) ensures Given(x, o.meta, rs) {
      var j :| 0 <= j < |rs| && RecoveredWrites(MetaOf(p), rs)[j] == x;
      assert rs[j] in rs;
    }
  }

  /** One step of the server is at most one of the engine, and recovers what that recovers. */
  lemma StepIsEngine(cfg: Config, window: nat, u: C.State, s: State, e: Event)
    requires C.Numbered(u) && (e.Datagram? ==> FromChannel(u, e.data))
    ensures var (t, w) := Step(cfg, window, s, e);
            var evs := EngineEvent(u.log, s, e);
            if evs == [] then t.fec == s.fec && forall x :: x in w ==> x.Released?
            else
              && |evs| == 1
              && match evs[0]
                 case ExpireAll(now) => t.fec == ExpireStep(cfg, s.fec, now) && forall x :: x in w ==> x.Released?
                 case Decode(o, now) =>
                   var (d, rs) := DecodeStep(cfg, s.fec, o.meta, o.payload, now);
                   o in u.log && t.fec == d && forall x :: x in w ==> Given(x, o.meta, rs)
  {
    hide DecodeStep, NewPacketStep, RB.CheckStep, ExpireStep, C.Numbered, FromChannel, Given;
    if Decoded(s, e) {
      ParsesToSent(u, e.data);
      PacketDecodes(cfg, window, u, s, Deserialize(e.data).value, e.now);
    }
  }

  /** A recovered write is what a trial of the engine recovers. */
  ghost predicate ComesFrom(cfg: Config, mode: Mode, sent: seq<EncEvent>, w: Write) {
    w.Recovered? ==>
      exists x: Trial :: x.mode == mode && x.sent == sent && IsRecovery(w, x.o.meta, x.r) && Occurs(cfg, x)
  }

  ghost predicate AllLogged(log: seq<FecOut>, got: seq<DecEvent>) {
    forall ev :: ev in got && ev.Decode? ==> ev.out in log
  }

  /** The engine holds what the server's decoders hold. */
  ghost predicate Mirrors(cfg: Config, window: nat, t0: real, log: seq<FecOut>, es: seq<Event>) {
    var got := EngineEvents(cfg, window, t0, log, es);
    After(cfg, window, t0, es).fec == DecAfter(cfg, got) && AllLogged(log, got)
  }

  ghost predicate AllComeFrom(cfg: Config, mode: Mode, sent: seq<EncEvent>, ws: seq<Write>) {
    forall w :: w in ws ==> ComesFrom(cfg, mode, sent, w)
  }

  lemma {:induction false} ServerIsEngine(cfg: Config, mode: Mode, sends: seq<C.Event>, window: nat, t0: real,
                                          es: seq<Event>)
    requires forall e :: e in es && e.Datagram? ==> FromChannel(C.Run(cfg, mode, sends), e.data)
    ensures Mirrors(cfg, window, t0, C.Run(cfg, mode, sends).log, es)
    ensures AllComeFrom(cfg, mode, EncodesOf(sends), Writes(cfg, window, t0, es))
  {
    if es != [] {
      hide C.Run, FromChannel, Step, After, Mirrors, ComesFrom, EncodesOf;
      var n := |es| - 1;
      assert forall e :: e in es[..n] ==> e in es;
      ServerIsEngine(cfg, mode, sends, window, t0, es[..n]);
      assert es[n] in es;
      C.RunNumbered(cfg, mode, sends);
      MirrorsMore(cfg, window, t0, C.Run(cfg, mode, sends), es);
      LastWritesComeFrom(cfg, mode, sends, window, t0, es);
    }
  }

  lemma MirrorsMore(cfg: Config, window: nat, t0: real, u: C.State, es: seq<Event>)
    requires es != [] && C.Numbered(u) && Mirrors(cfg, window, t0, u.log, es[..|es| - 1])
    requires es[|es| - 1].Datagram? ==> FromChannel(u, es[|es| - 1].data)
    ensures Mirrors(cfg, window, t0, u.log, es)
  {
    hide FromChannel, Step, EngineEvent, C.Numbered, DecodeStep;
    var n := |es| - 1;
    var s := After(cfg, window, t0, es[..n]);
    StepIsEngine(cfg, window, u, s, es[n]);
    var got, more := EngineEvents(cfg, window, t0, u.log, es[..n]), EngineEvent(u.log, s, es[n]);
    if more == [] {
      assert got + more == got;
    } else {
      assert (got + more)[..|got|] == got && (got + more)[|got|] == more[0];
    }
  }

  lemma LastWritesComeFrom(cfg: Config, mode: Mode, sends: seq<C.Event>, window: nat, t0: real, es: seq<Event>)
    requires es != [] && (es[|es| - 1].Datagram? ==> FromChannel(C.Run(cfg, mode, sends), es[|es| - 1].data))
    requires Mirrors(cfg, window, t0, C.Run(cfg, mode, sends).log, es[..|es| - 1])
    ensures AllComeFrom(cfg, mode, EncodesOf(sends),
                        Step(cfg, window, After(cfg, window, t0, es[..|es| - 1]), es[|es| - 1]).1)
  {
    hide C.Run, FromChannel, Step, After, EngineEvent, EngineEvents, DecAfter, C.Numbered;
    hide DecodeStep, EncRun, EncodesOf;
    var u, n := C.Run(cfg, mode, sends), |es| - 1;
    var s := After(cfg, window, t0, es[..n]);
    C.RunNumbered(cfg, mode, sends);
    ClientIsEngine(cfg, mode, sends);
    StepIsEngine(cfg, window, u, s, es[n]);
    forall w | w in Step(cfg, window, s, es[n]).1 && w.Recovered? ensures ComesFrom(cfg, mode, EncodesOf(sends), w) {
      var ev := EngineEvent(u.log, s, es[n])[0];
      var x := Trial(mode, EncodesOf(sends), EngineEvents(cfg, window, t0, u.log, es[..n]), ev.out, ev.now,
                     (w.index, w.payload));
      assert Occurs(cfg, x);
    }
  }

  /** A client run, a server run fed from it, and a write of the server. */
  datatype Episode = Episode(
    mode: Mode, sends: seq<C.Event>, window: nat, t0: real, es: seq<Event>, w: Write)

  ghost predicate Possible(cfg: Config, x: Episode) {
    && (forall e :: e in x.es && e.Datagram? ==> FromChannel(C.Run(cfg, x.mode, x.sends), e.data))
    && x.w in Writes(cfg, x.window, x.t0, x.es)
  }

  /** Whatever is sent, lost, repeated, reordered and timed out: every write is an input, recovered ones padded. */
  ghost predicate WritesOnlyInputs(cfg: Config) {
    forall x: Episode :: Possible(cfg, x) ==> PaddedInput(C.Run(cfg, x.mode, x.sends).inputs, x.w.payload)
  }

  // ---------- the collisions fit into headers ----------

  /** Group sizes and indices fit the header's bytes. */
  predicate SizesFit(cfg: Config) {
    cfg.Size(XorKind) < 256 && cfg.Size(RsKind) < 256 && cfg.Size(HeavyKind) < 256
  }

  lemma {:induction false} LongestOfThree(group: seq<bytes>)
    requires AllThree(group)
    ensures MaxLen(group) <= 3
  {
    if group != [] { LongestOfThree(group[..|group| - 1]); }
  }

  lemma PacketIsShort(cfg: Config, kind: Kind, group: seq<bytes>, i: nat)
    requires AllThree(group) && |group| == DataOf(cfg, kind) && i < cfg.Size(kind)
    ensures cfg.Size(kind) == |group| + ParityOf(cfg, kind)
    ensures var o := PacketOut(cfg, kind, group, i);
            |o.payload| <= 3 && o.meta.gid == 0 && o.meta.index == i && o.meta.groupSize == cfg.Size(kind)
  {
    hide XF.XorSeq, RF.ParityBlock, MaxLen;
    LongestOfThree(group);
    if i >= |group| && kind != XorKind {
      RF.ParityBlocksAt(CodecOf(cfg, kind), ParityOf(cfg, kind), group, i - |group|);
      ParityBlockLength(CodecOf(cfg, kind), group, i - |group|);
    }
  }

  lemma ShortCopyFits(outs: seq<FecOut>, q: nat)
    requires q < |outs| <= 512 && |outs[q].payload| <= 3
    requires outs[q].meta.gid == 0 && outs[q].meta.index < 256 && outs[q].meta.groupSize < 256
    ensures Copy(outs, q).InRange()
  {
    Powers();
  }

  lemma GroupFits(cfg: Config, kind: Kind, group: seq<bytes>)
    requires SizesFit(cfg) && AllThree(group) && |group| == DataOf(cfg, kind) >= 1
    ensures AllFit(GroupRun(cfg, kind, group).1)
  {
    hide GroupRun, Copy, Packet.InRange, SizesFit;
    var outs := GroupRun(cfg, kind, group).1;
    forall q | 0 <= q < |outs| ensures Copy(outs, q).InRange() {
      GroupPacket(cfg, kind, group, q);
      ShortCopyFits(outs, q);
    }
  }

  lemma GroupPacket(cfg: Config, kind: Kind, group: seq<bytes>, q: nat)
    requires SizesFit(cfg) && AllThree(group) && |group| == DataOf(cfg, kind) >= 1
    requires q < |GroupRun(cfg, kind, group).1|
    ensures var outs := GroupRun(cfg, kind, group).1;
            && |outs| <= 512 && |outs[q].payload| <= 3
            && outs[q].meta.gid == 0 && outs[q].meta.index < 256 && outs[q].meta.groupSize < 256
  {
    hide EncRun, PacketOut;
    var s0 := EncInit(ModeOf(kind));
    WholeGroupFrom(cfg, kind, s0, group, 0);
    PacketIsShort(cfg, kind, group, 0);
    WholeGroupFrom(cfg, kind, s0, group, q);
    PacketIsShort(cfg, kind, group, q);
  }

  lemma TwoGroupsFit(cfg: Config, first: Kind, ys: seq<bytes>, second: Kind, xs: seq<bytes>)
    requires SizesFit(cfg) && AllThree(ys) && AllThree(xs) && first != second
    requires |ys| == DataOf(cfg, first) >= 1 && |xs| == DataOf(cfg, second) >= 1
    ensures AllFit(EncRun(cfg, EncInit(ModeOf(first)), TwoGroups(first, ys, second, xs)).1)
  {
    hide EncRun, PacketOut, Copy, Packet.InRange, TwoGroups, SizesFit;
    var outs := EncRun(cfg, EncInit(ModeOf(first)), TwoGroups(first, ys, second, xs)).1;
    forall q | 0 <= q < |outs| ensures Copy(outs, q).InRange() {
      TwoGroupsPacket(cfg, first, ys, second, xs, q);
      ShortCopyFits(outs, q);
    }
  }

  lemma TwoGroupsPacket(cfg: Config, first: Kind, ys: seq<bytes>, second: Kind, xs: seq<bytes>, q: nat)
    requires SizesFit(cfg) && AllThree(ys) && AllThree(xs) && first != second
    requires |ys| == DataOf(cfg, first) >= 1 && |xs| == DataOf(cfg, second) >= 1
    requires q < |EncRun(cfg, EncInit(ModeOf(first)), TwoGroups(first, ys, second, xs)).1|
    ensures var outs := EncRun(cfg, EncInit(ModeOf(first)), TwoGroups(first, ys, second, xs)).1;
            && |outs| <= 512 && |outs[q].payload| <= 3
            && outs[q].meta.gid == 0 && outs[q].meta.index < 256 && outs[q].meta.groupSize < 256
  {
    hide EncRun, PacketOut, TwoGroups;
    PacketIsShort(cfg, first, ys, 0);
    PacketIsShort(cfg, second, xs, 0);
    var n := cfg.Size(first);
    if q < n {
      OutsOfTwo(cfg, first, ys, second, xs, q, 0);
      PacketIsShort(cfg, first, ys, q);
    } else {
      OutsOfTwo(cfg, first, ys, second, xs, 0, 0);
      OutsOfTwo(cfg, first, ys, second, xs, 0, q - n);
      PacketIsShort(cfg, second, xs, q - n);
    }
  }

  // ---------- and their packets arrive once each ----------

  lemma {:induction false} MingledAscend(cfg: Config, kind: Kind, m: nat)
    requires cfg.xorSize >= 2 && DataOf(cfg, kind) >= 1 && m < cfg.xorSize
    ensures forall ev :: ev in Mingled(cfg, kind, m) ==> ev.Decode? && ev.now == 0.0
    ensures forall i :: 0 <= i < m ==> Mingled(cfg, kind, m)[i].out.meta.index == i
  {
    hide ParitySeq;
    if m != 0 { MingledAscend(cfg, kind, m - 1); }
  }

  lemma {:induction false} VisitedAscend(cfg: Config, m: nat)
    requires cfg.rsData >= 2 && m < cfg.rsData
    ensures forall ev :: ev in Visited(cfg, m) ==> ev.Decode? && ev.now == 0.0
    ensures forall i :: 0 <= i < m ==> Visited(cfg, m)[i].out.meta.index == i
  {
    hide ParitySeq;
    if m != 0 { VisitedAscend(cfg, m - 1); }
  }

  /** Packets with ascending indices are different packets. */
  lemma AscendingArriveOnce(x: Trial)
    requires (forall ev :: ev in x.got ==> ev.Decode? && ev.now == 0.0) && x.now == 0.0
    requires forall i :: 0 <= i < |x.got| ==> x.got[i] in x.got && x.got[i].out.meta.index == i
    requires x.o.meta.index >= |x.got|
    ensures ArrivesOnce(x)
  {
    forall i, j | 0 <= i < j < |Coming(x)| ensures Coming(x)[i] != Coming(x)[j] {
      assert Coming(x)[i].meta.index < Coming(x)[j].meta.index;
    }
  }

  lemma MinglingInOneGo(cfg: Config, kind: Kind)
    requires SizesFit(cfg) && kind != XorKind && cfg.xorSize >= 2 && DataOf(cfg, kind) >= 1
    ensures InOneGo(cfg, MinglingTrial(cfg, kind))
  {
    hide PacketOut, EncRun, Mingled, TwoGroups, AllFit, SizesFit;
    MingledAscend(cfg, kind, cfg.xorSize - 1);
    VictimParity(cfg);
    AscendingArriveOnce(MinglingTrial(cfg, kind));
    TwoGroupsFit(cfg, kind, Intruders(DataOf(cfg, kind)), XorKind, Victims(cfg.xorSize));
  }

  lemma StrangerInOneGo(cfg: Config)
    requires SizesFit(cfg) && cfg.rsData >= 2 && cfg.rsParity >= 1 && Strangers(cfg) != []
    ensures InOneGo(cfg, StrangerTrial(cfg))
  {
    hide PacketOut, EncRun, Visited, TwoGroups, AllFit, SizesFit, Strangers;
    VisitedAscend(cfg, cfg.rsData - 1);
    HostParityOut(cfg);
    AscendingArriveOnce(StrangerTrial(cfg));
    TwoGroupsFit(cfg, HeavyKind, Guests(cfg.HeavyData()), RsKind, Hosts(cfg.rsData));
  }

  lemma PairInOneGo(cfg: Config)
    requires SizesFit(cfg) && cfg.xorSize == 1 && cfg.rsData == 2 && cfg.rsParity == 0
    ensures InOneGo(cfg, PairTrial(cfg))
  {
    hide EncRun, TwoGroups, AllFit, SizesFit;
    var x := PairTrial(cfg);
    assert x.got[0].out.payload == [0, 1, 0] && x.got[0].out.meta.isParity == false;
    TwoGroupsFit(cfg, RsKind, [ZERO, [0, 1, 0]], XorKind, [[1, 0, 0]]);
  }

  lemma AloneInOneGo(cfg: Config)
    requires SizesFit(cfg) && cfg.rsData == 1 && cfg.rsParity == 1 && !XorParity(cfg.rsCodec, 1)
    ensures InOneGo(cfg, AloneTrial(cfg))
  {
    hide EncRun, AllFit, SizesFit, XorParity, RF.ParityBlock, XF.XorSeq;
    var group := W.Group(NotXorWord(cfg.rsCodec, 1));
    assert AloneTrial(cfg).got == [];
    GroupFits(cfg, RsKind, group);
  }

  lemma CollisionInOneGo(cfg: Config)
    requires cfg.LawfulCodes() && !TellsApart(cfg) && SizesFit(cfg)
    ensures InOneGo(cfg, Collision(cfg))
  {
    hide RF.Lawful, XorParity, MinglingTrial, PairTrial, AloneTrial, StrangerTrial, InOneGo, SizesFit, Fails;
    if TakenForXor(cfg, RsKind) && cfg.xorSize >= 2 {
      MinglingInOneGo(cfg, RsKind);
    } else if TakenForXor(cfg, RsKind) && cfg.rsParity == 0 {
      PairInOneGo(cfg);
    } else if TakenForXor(cfg, RsKind) && !OnlyCopies(cfg) {
      AloneInOneGo(cfg);
    } else if TakenForXor(cfg, HeavyKind) {
      MinglingInOneGo(cfg, HeavyKind);
    } else {
      StrangerFails(cfg);
      StrangerInOneGo(cfg);
    }
  }

  // ---------- exactly when everything written was sent ----------

  lemma ReleasedIsInput(u: C.State, released: seq<RB.Numbered>, w: seq<Write>, x: Write)
    requires InputsInOrder(u, released) && released == ReleasedOf(w) && x in w && x.Released?
    ensures PaddedInput(u.inputs, x.payload)
  {
    assert x.payload in u.inputs by {
      ReleasedIsThere(w, x);
      var i :| 0 <= i < |released| && released[i] == (x.q, x.payload);
    }
    InputIsPadded(u.inputs, x.payload);
  }

  lemma {:induction false} ReleasedIsThere(w: seq<Write>, x: Write)
    requires x in w && x.Released?
    ensures (x.q, x.payload) in ReleasedOf(w)
  {
    var n := |w| - 1;
    if w[n] != x { ReleasedIsThere(w[..n], x); }
  }

  lemma WritesAreInputs(cfg: Config, x: Episode)
    requires InputsMixed(cfg) && Possible(cfg, x)
    ensures PaddedInput(C.Run(cfg, x.mode, x.sends).inputs, x.w.payload)
  {
    hide FromChannel, C.Run, Writes, InputsInOrder, PaddedInput, Occurs, After;
    hide EngineEvents, EncodesOf, Inputs, ReleasedOf;
    if x.w.Released? {
      ReleasesAreInOrder(cfg, x.mode, x.sends, x.window, x.t0, x.es);
      var w := Writes(cfg, x.window, x.t0, x.es);
      ReleasedIsInput(C.Run(cfg, x.mode, x.sends), ReleasedOf(w), w, x.w);
    } else {
      ServerIsEngine(cfg, x.mode, x.sends, x.window, x.t0, x.es);
      ClientIsEngine(cfg, x.mode, x.sends);
      assert ComesFrom(cfg, x.mode, EncodesOf(x.sends), x.w);
    }
  }

  /** What a trial recovers whose packets fit and arrive once each is a write of some episode. */
  lemma RecoveryIsServed(cfg: Config, x: Trial) returns (y: Episode)
    requires Occurs(cfg, x) && InOneGo(cfg, x)
    ensures Possible(cfg, y) && IsRecovery(y.w, x.o.meta, x.r)
    ensures var u := C.Run(cfg, y.mode, y.sends);
            u.inputs == Inputs(x.sent) && u.enc == EncRun(cfg, EncInit(x.mode), x.sent).0
  {
    hide FromChannel, C.Run, Writes, Served, Sends, InOneGo, Inputs, Occurs, EncRun, IsRecovery;
    TrialIsServed(cfg, x, 0, 0.0);
    var sends, es := Sends(cfg, x.mode, x.sent), Served(cfg, x);
    var w :| w in Writes(cfg, 0, 0.0, es) && IsRecovery(w, x.o.meta, x.r);
    y := Episode(x.mode, sends, 0, 0.0, es, w);
  }

  /**
   End to end, for every configuration with lawful codes and group sizes that fit the header: on every run of the
   client and every run of the server fed from the channel, whatever the modes, tiers, losses, repetitions, orders,
   timeouts and expiries, all that is written are inputs, recovered ones padded, if and only if the sizes tell the
   kinds apart where it matters.
   */
  lemma ServerExactly(cfg: Config)
    requires cfg.LawfulCodes() && SizesFit(cfg)
    ensures WritesOnlyInputs(cfg) <==> TellsApart(cfg)
  {
    hide RF.Lawful, TellsApart, InputsMixed, Possible, PaddedInput, C.Run, InOneGo, SizesFit, Occurs;
    if TellsApart(cfg) {
      TellingApartSuffices(cfg);
      forall x: Episode | Possible(cfg, x) ensures PaddedInput(C.Run(cfg, x.mode, x.sends).inputs, x.w.payload) {
        WritesAreInputs(cfg, x);
      }
    } else {
      CollisionFails(cfg);
      CollisionInOneGo(cfg);
      var y := RecoveryIsServed(cfg, Collision(cfg));
    }
  }

  /** Every recovered write is the padded original of the packet it names. */
  ghost predicate WritesOnlyOriginals(cfg: Config) {
    forall x: Episode :: Possible(cfg, x) && x.w.Recovered? ==>
      Sound(cfg, C.Run(cfg, x.mode, x.sends).enc, x.w.meta, (x.w.index, x.w.payload))
  }

  lemma MarkKeepsSound(cfg: Config, e: EncState, m: Meta, r: (nat, bytes))
    ensures Sound(cfg, e, m, r) <==> Sound(cfg, e, m.(replicate := false), r)
  {
  }

  lemma WritesAreSound(cfg: Config, x: Episode)
    requires SoundMixed(cfg) && Possible(cfg, x) && x.w.Recovered?
    ensures Sound(cfg, C.Run(cfg, x.mode, x.sends).enc, x.w.meta, (x.w.index, x.w.payload))
  {
    hide FromChannel, C.Run, Writes, Sound, Occurs, After, EngineEvents, EncodesOf, EncRun;
    ServerIsEngine(cfg, x.mode, x.sends, x.window, x.t0, x.es);
    ClientIsEngine(cfg, x.mode, x.sends);
    assert ComesFrom(cfg, x.mode, EncodesOf(x.sends), x.w);
    var y: Trial :| y.mode == x.mode && y.sent == EncodesOf(x.sends)
                    && IsRecovery(x.w, y.o.meta, y.r) && Occurs(cfg, y);
    MarkKeepsSound(cfg, C.Run(cfg, x.mode, x.sends).enc, y.o.meta, y.r);
  }

  /**
   The same for the stricter question: every recovered write is the padded original of the packet it names, on all
   runs of client and server, if and only if every packet finds the decoder of its kind or one that never recovers.
   */
  lemma ServerNamesExactly(cfg: Config)
    requires cfg.LawfulCodes() && SizesFit(cfg)
    ensures WritesOnlyOriginals(cfg) <==> NamesApart(cfg)
  {
    hide RF.Lawful, NamesApart, SoundMixed, Possible, Sound, C.Run, InOneGo, SizesFit, Occurs, EncRun;
    if NamesApart(cfg) {
      SoundExactly(cfg);
      forall x: Episode | Possible(cfg, x) && x.w.Recovered?
        ensures Sound(cfg, C.Run(cfg, x.mode, x.sends).enc, x.w.meta, (x.w.index, x.w.payload))
      {
        WritesAreSound(cfg, x);
      }
    } else {
      Misnamed(cfg);
      var x := Misnaming(cfg);
      MisnamingInOneGo(cfg);
      var y := RecoveryIsServed(cfg, x);
      MarkKeepsSound(cfg, EncRun(cfg, EncInit(x.mode), x.sent).0, x.o.meta, x.r);
    }
  }

  lemma MisnamingInOneGo(cfg: Config)
    requires cfg.LawfulCodes() && !NamesApart(cfg) && SizesFit(cfg)
    ensures InOneGo(cfg, Misnaming(cfg))
  {
    hide RF.Lawful, XorParity, Collision, InOneGo, SizesFit, CopyTrial;
    if TellsApart(cfg) { CopyInOneGo(cfg); } else { CollisionInOneGo(cfg); }
  }

  lemma CopyInOneGo(cfg: Config)
    requires cfg.rsData == 1 && cfg.rsParity == 1 && SizesFit(cfg)
    ensures InOneGo(cfg, CopyTrial(cfg))
  {
    hide EncRun, AllFit, SizesFit, PacketOut;
    GroupFits(cfg, RsKind, [ZERO]);
  }
}
