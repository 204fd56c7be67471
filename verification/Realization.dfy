/** What the engine does on packets that arrive once each, the server does on datagrams that the client sent. */
module Realization {
  import opened Collections
  import opened Bytes
  import opened GroupStream
  import opened Packet
  import opened RsFec
  import opened FecEngine
  import opened KindRuns
  import opened Server
  import opened EndToEnd
  import C = Client
  import RB = ReorderBuffer
  import RR = ReorderRuns
  import M = Misrouting
  import W = Witness
  import XD = XorDecoder
  import RD = RsDecoder

  // ---------- a client that sends every output once, on path 0 ----------

  const ONCE: seq<C.Attempt> := [C.Attempt(0, Some(0), 0)]

  function OnceEach(n: nat): (plan: seq<seq<C.Attempt>>)
    ensures |plan| == n && forall j :: 0 <= j < n ==> plan[j] == ONCE
  {
    if n == 0 then [] else OnceEach(n - 1) + [ONCE]
  }

  /** The client's events for a run of the engine. */
  function Sends(cfg: Config, mode: Mode, es: seq<EncEvent>): seq<C.Event> {
    if es == [] then [] else
      var n := |es| - 1;
      Sends(cfg, mode, es[..n])
      + match es[n]
        case SetMode(m) => [C.SetMode(m)]
        case Encode(payload, tier) =>
          var outs := EncodeStep(cfg, EncRun(cfg, EncInit(mode), es[..n]).0, payload, tier).1;
          [C.Send(payload, tier, OnceEach(|outs|))]
  }

  /** The packet that carries the FEC output numbered q. */
  function Copy(log: seq<FecOut>, q: nat): Packet
    requires q < |log|
  {
    C.MakePacket(log[q], 0, q, q, 0)
  }

  ghost predicate OneCopyEach(s: C.State) {
    && |s.sent| == |s.log| == s.globalSeq == C.PathSeq(s.pathSeqs, 0)
    && forall q :: 0 <= q < |s.log| ==> s.sent[q] == Copy(s.log, q)
  }

  lemma SendOutOnce(s: C.State, o: FecOut)
    requires OneCopyEach(s)
    ensures OneCopyEach(C.SendOut(s, o, ONCE))
  {
    assert ONCE[..0] == [];
    assert C.SendCopies(o, s.globalSeq, ONCE, s.pathSeqs).1 == [C.MakePacket(o, 0, s.globalSeq, s.globalSeq, 0)];
  }

  lemma {:induction false} SendOutsOnce(s: C.State, outs: seq<FecOut>, plan: seq<seq<C.Attempt>>)
    requires OneCopyEach(s) && |outs| <= |plan| && forall j :: 0 <= j < |plan| ==> plan[j] == ONCE
    ensures OneCopyEach(C.SendOuts(s, outs, plan))
  {
    if outs != [] {
      var n := |outs| - 1;
      SendOutsOnce(s, outs[..n], plan);
      SendOutOnce(C.SendOuts(s, outs[..n], plan), outs[n]);
    }
  }

  lemma OnceAfterEncode(s: C.State, e: EncState, payload: bytes)
    requires OneCopyEach(s)
    ensures OneCopyEach(s.(enc := e, inputs := s.inputs + [payload]))
  {
  }

  lemma {:induction false} RunOfSends(cfg: Config, mode: Mode, es: seq<EncEvent>)
    ensures var s := C.Run(cfg, mode, Sends(cfg, mode, es));
            && OneCopyEach(s) && s.inputs == Inputs(es)
            && (s.enc, s.log) == EncRun(cfg, EncInit(mode), es)
  {
    if es != [] {
      hide EncodeStep, OneCopyEach, C.Numbered;
      var n := |es| - 1;
      var before, sends := Sends(cfg, mode, es[..n]), Sends(cfg, mode, es);
      RunOfSends(cfg, mode, es[..n]);
      C.RunNumbered(cfg, mode, before);
      var s := C.Run(cfg, mode, before);
      assert sends[..|sends| - 1] == before;
      match es[n]
      case SetMode(m) => OnceInAnyMode(s, m);
      case Encode(payload, tier) =>
        var (e, outs) := EncodeStep(cfg, s.enc, payload, tier);
        var s1 := s.(enc := e, inputs := s.inputs + [payload]);
        C.NumberedAfterEncode(s, e, payload);
        OnceAfterEncode(s, e, payload);
        C.SendOutsNumbered(s1, outs, OnceEach(|outs|));
        SendOutsOnce(s1, outs, OnceEach(|outs|));
    } else {
      NothingSent(mode);
    }
  }

  lemma NothingSent(mode: Mode)
    ensures OneCopyEach(C.Init(mode))
  {
  }

  lemma OnceInAnyMode(s: C.State, mode: Mode)
    requires OneCopyEach(s)
    ensures OneCopyEach(s.(enc := s.enc.(mode := mode)))
  {
  }

  // ---------- a server that gets some of them ----------

  /** The header fields of every copy fit. */
  predicate AllFit(log: seq<FecOut>) {
    forall q :: 0 <= q < |log| ==> Copy(log, q).InRange()
  }

  function DatagramOf(log: seq<FecOut>, q: nat): Event
    requires q < |log| && Copy(log, q).InRange()
  {
    Datagram(Serialize(Copy(log, q)).value, 0.0)
  }

  predicate Numbers(log: seq<FecOut>, qs: seq<nat>) {
    forall i :: 0 <= i < |qs| ==> qs[i] < |log|
  }

  /** The copies with these numbers arrive. */
  function Datagrams(log: seq<FecOut>, qs: seq<nat>): (es: seq<Event>)
    requires AllFit(log) && Numbers(log, qs)
    ensures |es| == |qs| && forall i :: 0 <= i < |es| ==> es[i] == DatagramOf(log, qs[i])
  {
    if qs == [] then [] else
      var n := |qs| - 1;
      Datagrams(log, qs[..n]) + [DatagramOf(log, qs[n])]
  }

  /** The same for the engine alone. */
  function Decodes(log: seq<FecOut>, qs: seq<nat>): (got: seq<DecEvent>)
    requires Numbers(log, qs)
    ensures |got| == |qs| && forall i :: 0 <= i < |got| ==> got[i] == Decode(log[qs[i]], 0.0)
  {
    if qs == [] then [] else
      var n := |qs| - 1;
      Decodes(log, qs[..n]) + [Decode(log[qs[n]], 0.0)]
  }

  lemma CopyIsPlain(log: seq<FecOut>, q: nat)
    requires q < |log|
    ensures var p := Copy(log, q);
            && !p.IsKeepalive() && !p.IsControl() && (p.InRange() ==> p.WellFormed())
            && p.globalSeq == q && p.payload == log[q].payload && MetaOf(p) == log[q].meta.(replicate := false)
  {
    hide Packet.InRange;
  }

  lemma CopyParses(log: seq<FecOut>, q: nat)
    requires q < |log| && Copy(log, q).InRange()
    ensures var d := DatagramOf(log, q).data;
            !Ignored(d) && Deserialize(d) == Ok(Copy(log, q))
  {
    hide Header, Deserialize, Copy, Packet.InRange;
    var p := Copy(log, q);
    CopyIsPlain(log, q);
    DeserializeSerialize(p, []);
    assert Serialize(p).value + [] == Serialize(p).value;
  }

  lemma CopyNumber(log: seq<FecOut>, q: nat)
    requires q < |log| && Copy(log, q).InRange()
    ensures DataNumber(DatagramOf(log, q)) == if log[q].meta.isParity then None else Some(q)
  {
    hide Serialize, Deserialize;
    CopyParses(log, q);
    CopyIsPlain(log, q);
  }

  /** Numbers that have not arrived are no duplicates. */
  lemma NewNumber(cfg: Config, window: nat, t0: real, log: seq<FecOut>, qs: seq<nat>, q: nat)
    requires AllFit(log) && Numbers(log, qs) && q !in qs
    ensures !After(cfg, window, t0, Datagrams(log, qs)).reorder.IsDuplicate(q)
  {
    hide After, RR.After, RR.First, DatagramOf, AllFit, Writes;
    var es := Datagrams(log, qs);
    var rs := ReorderEvents(cfg, window, t0, es);
    OnlyDatagrams(log, qs);
    FirstArrivals(cfg, window, t0, es);
    ReorderRun(cfg, window, t0, es);
    DuplicateMeansArrived(window, t0, rs, q);
    if DataArrived(es, q) { ArrivedNumbers(log, qs, q); }
  }

  lemma OnlyDatagrams(log: seq<FecOut>, qs: seq<nat>)
    requires AllFit(log) && Numbers(log, qs)
    ensures NoTicks(Datagrams(log, qs))
  {
    hide Serialize, AllFit;
    forall e | e in Datagrams(log, qs) ensures e.Datagram? {
      var i :| 0 <= i < |qs| && Datagrams(log, qs)[i] == e;
    }
  }

  lemma ArrivedNumbers(log: seq<FecOut>, qs: seq<nat>, q: nat)
    requires AllFit(log) && Numbers(log, qs) && DataArrived(Datagrams(log, qs), q)
    ensures q in qs
  {
    hide DatagramOf;
    var es := Datagrams(log, qs);
    var e :| e in es && DataNumber(e) == Some(q);
    var i :| 0 <= i < |es| && es[i] == e;
    CopyNumber(log, qs[i]);
  }

  /** Decoding does not look at the replicate mark, which is not on the wire. */
  lemma MarkIsIgnored(cfg: Config, d: DecState, m: Meta, payload: bytes, now: real)
    ensures DecodeStep(cfg, d, m, payload, now) == DecodeStep(cfg, d, m.(replicate := false), payload, now)
  {
    hide XD.ReceiveStep, RD.ReceiveStep;
  }

  /** The write is the recovery r, from a packet with this header. */
  predicate IsRecovery(x: Write, m: Meta, r: (nat, bytes)) {
    x.Recovered? && x.meta == m.(replicate := false) && x.index == r.0 && x.payload == r.1
  }

  ghost predicate WritesRecoveryOf(w: seq<Write>, m: Meta, r: (nat, bytes)) {
    exists x :: x in w && IsRecovery(x, m, r)
  }

  lemma NewCopyStep(cfg: Config, window: nat, s: State, log: seq<FecOut>, q: nat)
    requires q < |log| && Copy(log, q).InRange() && !s.reorder.IsDuplicate(q)
    ensures var (t, w) := Step(cfg, window, s, DatagramOf(log, q));
            var (d, rs) := DecodeStep(cfg, s.fec, log[q].meta, log[q].payload, 0.0);
            t.fec == d && forall r :: r in rs ==> WritesRecoveryOf(w, log[q].meta, r)
  {
    hide DecodeStep, RB.InsertStep, Serialize, Deserialize;
    CopyParses(log, q);
    MarkIsIgnored(cfg, s.fec, log[q].meta, log[q].payload, 0.0);
    var p := Copy(log, q);
    assert MetaOf(p) == log[q].meta.(replicate := false);
    NoGroupNoDecoding(cfg, s.fec, MetaOf(p), p.payload, 0.0);
    var rs := DecodeStep(cfg, s.fec, MetaOf(p), p.payload, 0.0).1;
    forall r | r in rs ensures WritesRecoveryOf(Step(cfg, window, s, DatagramOf(log, q)).1, log[q].meta, r) {
      var j :| 0 <= j < |rs| && rs[j] == r;
      var w := RecoveredWrites(MetaOf(p), rs);
      assert w[j] in w && IsRecovery(w[j], log[q].meta, r);
      assert w[j] in Step(cfg, window, s, DatagramOf(log, q)).1;
    }
  }

  lemma NoGroupNoDecoding(cfg: Config, d: DecState, m: Meta, payload: bytes, now: real)
    ensures m.groupSize == 0 ==> DecodeStep(cfg, d, m, payload, now) == (d, [])
  {
  }

  lemma OneMoreArrives(log: seq<FecOut>, qs: seq<nat>)
    requires AllFit(log) && Numbers(log, qs) && qs != []
    ensures var n := |qs| - 1;
            && Numbers(log, qs[..n])
            && Datagrams(log, qs)[..n] == Datagrams(log, qs[..n])
            && Decodes(log, qs)[..n] == Decodes(log, qs[..n])
  {
    hide DatagramOf;
  }

  /** The server's decoders are in the state of the engine's. */
  lemma {:induction false} SameDecoders(cfg: Config, window: nat, t0: real, log: seq<FecOut>, qs: seq<nat>)
    requires AllFit(log) && Numbers(log, qs) && Distinct(qs)
    ensures After(cfg, window, t0, Datagrams(log, qs)).fec == DecAfter(cfg, Decodes(log, qs))
  {
    hide DecodeStep, Step, DatagramOf, Datagrams, Decodes, Copy, AllFit;
    if qs != [] {
      var n := |qs| - 1;
      OneMoreArrives(log, qs);
      SameDecoders(cfg, window, t0, log, qs[..n]);
      AnotherCopy(cfg, window, t0, log, qs);
    } else {
      NothingArrives(cfg, window, t0, log);
    }
  }

  lemma NothingArrives(cfg: Config, window: nat, t0: real, log: seq<FecOut>)
    requires AllFit(log)
    ensures After(cfg, window, t0, Datagrams(log, [])).fec == DecAfter(cfg, Decodes(log, []))
  {
  }

  /** What the engine returns on the last packet is written by the server. */
  lemma AnotherCopy(cfg: Config, window: nat, t0: real, log: seq<FecOut>, qs: seq<nat>)
    requires AllFit(log) && Numbers(log, qs) && Distinct(qs) && qs != []
    ensures Numbers(log, qs[..|qs| - 1])
    ensures var n := |qs| - 1;
            var s := After(cfg, window, t0, Datagrams(log, qs[..n]));
            var (t, w) := Step(cfg, window, s, Datagrams(log, qs)[n]);
            var (d, rs) := DecodeStep(cfg, s.fec, log[qs[n]].meta, log[qs[n]].payload, 0.0);
            t.fec == d && forall r :: r in rs ==> WritesRecoveryOf(w, log[qs[n]].meta, r)
  {
    hide DecodeStep, Step, DatagramOf, After, DecAfter, Copy;
    var n := |qs| - 1;
    NewNumber(cfg, window, t0, log, qs[..n], qs[n]);
    NewCopyStep(cfg, window, After(cfg, window, t0, Datagrams(log, qs[..n])), log, qs[n]);
  }

  // ---------- trials of the engine as runs of client and server ----------

  ghost function Position(outs: seq<FecOut>, o: FecOut): (q: nat)
    requires o in outs
    ensures q < |outs| && outs[q] == o
  {
    var q: nat :| q < |outs| && outs[q] == o;
    q
  }

  ghost function Positions(outs: seq<FecOut>, os: seq<FecOut>): (qs: seq<nat>)
    requires forall i :: 0 <= i < |os| ==> os[i] in outs
    ensures |qs| == |os| && forall i :: 0 <= i < |os| ==> qs[i] == Position(outs, os[i])
  {
    if os == [] then [] else
      var n := |os| - 1;
      Positions(outs, os[..n]) + [Position(outs, os[n])]
  }

  /** The packets that arrive, the last one included. */
  function Coming(x: Trial): (os: seq<FecOut>)
    requires forall ev :: ev in x.got ==> ev.Decode?
    ensures |os| == |x.got| + 1 && os[|x.got|] == x.o
  {
    Outs(x.got) + [x.o]
  }

  function Outs(got: seq<DecEvent>): (os: seq<FecOut>)
    requires forall ev :: ev in got ==> ev.Decode?
    ensures |os| == |got| && forall i :: 0 <= i < |got| ==> os[i] == got[i].out
  {
    if got == [] then [] else
      var n := |got| - 1;
      assert got[n] in got;
      Outs(got[..n]) + [got[n].out]
  }

  /** Each packet arrives once, at time zero, and nothing expires. */
  predicate ArrivesOnce(x: Trial) {
    && (forall ev :: ev in x.got ==> ev.Decode? && ev.now == 0.0) && x.now == 0.0
    && (forall i, j :: 0 <= i < j < |Coming(x)| ==> Coming(x)[i] != Coming(x)[j])
  }

  /** And no header field overflows. */
  predicate InOneGo(cfg: Config, x: Trial) {
    ArrivesOnce(x) && AllFit(EncRun(cfg, EncInit(x.mode), x.sent).1)
  }

  ghost predicate ComingWasSent(cfg: Config, x: Trial) {
    && (forall ev :: ev in x.got ==> ev.Decode?)
    && var outs := EncRun(cfg, EncInit(x.mode), x.sent).1;
       forall i :: 0 <= i < |Coming(x)| ==> Coming(x)[i] in outs
  }

  lemma OccursFromSent(cfg: Config, x: Trial)
    requires Occurs(cfg, x) && forall ev :: ev in x.got ==> ev.Decode?
    ensures ComingWasSent(cfg, x)
  {
    hide DecodeStep, DecAfter, EncRun;
    forall i | 0 <= i < |Coming(x)| ensures Coming(x)[i] in EncRun(cfg, EncInit(x.mode), x.sent).1 {
      if i < |x.got| { assert x.got[i] in x.got; }
    }
  }

  /** The datagrams of the trial. */
  ghost function Served(cfg: Config, x: Trial): seq<Event>
    requires ComingWasSent(cfg, x) && AllFit(EncRun(cfg, EncInit(x.mode), x.sent).1)
  {
    var outs := EncRun(cfg, EncInit(x.mode), x.sent).1;
    Datagrams(outs, Positions(outs, Coming(x)))
  }

  lemma DatagramsAreSent(u: C.State, qs: seq<nat>)
    requires OneCopyEach(u) && AllFit(u.log) && Numbers(u.log, qs)
    ensures forall e :: e in Datagrams(u.log, qs) ==> e.Datagram? && FromChannel(u, e.data)
  {
    hide Copy, Serialize;
    var es := Datagrams(u.log, qs);
    forall e | e in es ensures e.Datagram? && FromChannel(u, e.data) {
      var i :| 0 <= i < |es| && es[i] == e;
      assert u.sent[qs[i]] in u.sent;
    }
  }

  lemma DecodesTheTrial(cfg: Config, x: Trial)
    requires ComingWasSent(cfg, x) && InOneGo(cfg, x)
    ensures var outs := EncRun(cfg, EncInit(x.mode), x.sent).1;
            var qs := Positions(outs, Coming(x));
            && Numbers(outs, qs) && Distinct(qs) && |qs| == |x.got| + 1
            && Numbers(outs, qs[..|x.got|]) && Decodes(outs, qs[..|x.got|]) == x.got && outs[qs[|x.got|]] == x.o
  {
    hide EncRun, AllFit;
    var outs := EncRun(cfg, EncInit(x.mode), x.sent).1;
    var qs := Positions(outs, Coming(x));
    forall i | 0 <= i < |x.got| ensures Decodes(outs, qs[..|x.got|])[i] == x.got[i] {
      assert x.got[i] in x.got;
    }
  }

  /** Whatever the engine recovers in such a trial, a server writes that gets datagrams the client sent. */
  lemma TrialIsServed(cfg: Config, x: Trial, window: nat, t0: real)
    requires Occurs(cfg, x) && InOneGo(cfg, x)
    ensures ComingWasSent(cfg, x) && AllFit(EncRun(cfg, EncInit(x.mode), x.sent).1)
    ensures var u := C.Run(cfg, x.mode, Sends(cfg, x.mode, x.sent));
            var es := Served(cfg, x);
            && u.inputs == Inputs(x.sent) && u.enc == EncRun(cfg, EncInit(x.mode), x.sent).0
            && (forall e :: e in es ==> e.Datagram? && FromChannel(u, e.data))
            && WritesRecoveryOf(Writes(cfg, window, t0, es), x.o.meta, x.r)
  {
    OccursFromSent(cfg, x);
    DecodesTheTrial(cfg, x);
    hide EncRun, AllFit, Writes, WritesRecoveryOf, C.Run, DecodeStep, DecAfter, Datagrams, Decodes;
    hide FromChannel, OneCopyEach, Distinct, Numbers, ComingWasSent, InOneGo;
    var outs := EncRun(cfg, EncInit(x.mode), x.sent).1;
    var qs := Positions(outs, Coming(x));
    RunOfSends(cfg, x.mode, x.sent);
    DatagramsAreSent(C.Run(cfg, x.mode, Sends(cfg, x.mode, x.sent)), qs);
    LastIsWritten(cfg, window, t0, outs, qs, x.r);
  }

  lemma LastIsWritten(cfg: Config, window: nat, t0: real, log: seq<FecOut>, qs: seq<nat>, r: (nat, bytes))
    requires AllFit(log) && Numbers(log, qs) && Distinct(qs) && qs != [] && Numbers(log, qs[..|qs| - 1])
    requires var o := log[qs[|qs| - 1]];
             r in DecodeStep(cfg, DecAfter(cfg, Decodes(log, qs[..|qs| - 1])), o.meta, o.payload, 0.0).1
    ensures WritesRecoveryOf(Writes(cfg, window, t0, Datagrams(log, qs)), log[qs[|qs| - 1]].meta, r)
  {
    hide AllFit, DecodeStep, DecAfter, After, Step, DatagramOf, Decodes, Copy;
    var n := |qs| - 1;
    assert Distinct(qs[..n]);
    SameDecoders(cfg, window, t0, log, qs[..n]);
    AnotherCopy(cfg, window, t0, log, qs);
    OneMoreArrives(log, qs);
    var es := Datagrams(log, qs);
    var before, w := Writes(cfg, window, t0, es[..n]), Step(cfg, window, After(cfg, window, t0, es[..n]), es[n]).1;
    assert Writes(cfg, window, t0, es) == before + w;
    var y :| y in w && IsRecovery(y, log[qs[n]].meta, r);
    assert y in before + w;
  }

  // ---------- heavy mode with the default sizes ----------

  /** The sizes of the default configuration. */
  predicate ShippedSizes(cfg: Config) {
    cfg.xorSize == 4 && cfg.rsData == 8 && cfg.rsParity == 2
  }

  /** A heavy group of payloads of eight bytes. */
  predicate ShortGroup(group: seq<bytes>) {
    |group| == 6 && MaxLen(group) == 8 && forall i :: 0 <= i < 6 ==> |group[i]| == 8
  }

  lemma HeavySizes(cfg: Config)
    requires ShippedSizes(cfg)
    ensures DataOf(cfg, HeavyKind) == cfg.HeavyData() == 6 && ParityOf(cfg, HeavyKind) == 4
    ensures cfg.Size(HeavyKind) == 10 && M.HeavyTakenForNormal(cfg)
  {
  }

  lemma HeavyOutputs(cfg: Config, group: seq<bytes>, q: nat)
    requires ShippedSizes(cfg) && ShortGroup(group) && q < 10
    ensures q < |group| + ParityOf(cfg, HeavyKind)
    ensures var outs := GroupRun(cfg, HeavyKind, group).1;
            |outs| == 10 && outs[q] == PacketOut(cfg, HeavyKind, group, q)
  {
    hide EncRun, PacketOut, MaxLen, Encodes;
    HeavySizes(cfg);
    WholeGroupFrom(cfg, HeavyKind, EncInit(ReedSolomonHeavy), group, q);
  }

  lemma HeavyPacket(cfg: Config, group: seq<bytes>, q: nat)
    requires ShippedSizes(cfg) && ShortGroup(group) && q < 10
    ensures q < |group| + ParityOf(cfg, HeavyKind)
    ensures var o := PacketOut(cfg, HeavyKind, group, q);
            |o.payload| == 8 && o.meta.gid == 0 && o.meta.index == q && o.meta.groupSize == 10
  {
    hide MaxLen, ParityBlock;
    HeavySizes(cfg);
    if q >= 6 {
      ParityBlocksAt(cfg.heavyCodec, 4, group, q - 6);
      M.ParityBlockLength(cfg.heavyCodec, group, q - 6);
    }
  }

  lemma SmallCopyFits(outs: seq<FecOut>, q: nat)
    requires q < |outs| == 10 && |outs[q].payload| == 8
    requires outs[q].meta.gid == 0 && outs[q].meta.index == q && outs[q].meta.groupSize == 10
    ensures Copy(outs, q).InRange()
  {
    assert Pow256(1) == 256 && Pow256(2) == 65536 && Pow256(4) == 4294967296 by { Powers(); }
  }

  lemma HeavyFits(cfg: Config, group: seq<bytes>)
    requires ShippedSizes(cfg) && ShortGroup(group)
    ensures AllFit(GroupRun(cfg, HeavyKind, group).1)
  {
    hide GroupRun, PacketOut, Copy, ShortGroup, ShippedSizes, Packet.InRange;
    var outs := GroupRun(cfg, HeavyKind, group).1;
    HeavyOutputs(cfg, group, 0);
    forall q | 0 <= q < |outs| ensures Copy(outs, q).InRange() {
      HeavyOutputs(cfg, group, q);
      HeavyPacket(cfg, group, q);
      SmallCopyFits(outs, q);
    }
  }

  lemma {:induction false} ArrivalsAscend(cfg: Config, group: seq<bytes>, n: nat)
    ensures forall ev :: ev in M.Arrivals(cfg, HeavyKind, group, n) ==> ev.Decode? && ev.now == 0.0
    ensures forall i :: 0 <= i < n ==> M.Arrivals(cfg, HeavyKind, group, n)[i].out.meta.index == i
  {
    hide Shard;
    var got := M.Arrivals(cfg, HeavyKind, group, n);
    forall ev | ev in got ensures ev.Decode? && ev.now == 0.0 { var i :| 0 <= i < n && got[i] == ev; }
  }

  lemma ForeignInOneGo(cfg: Config, group: seq<bytes>)
    requires ShippedSizes(cfg) && ShortGroup(group) && M.LastOutput(cfg, group) != []
    ensures InOneGo(cfg, M.ForeignTrial(cfg, group))
  {
    hide Shard, M.LastOutput, EncRun, M.Arrivals, Encodes, AllFit;
    HeavyFits(cfg, group);
    ArrivalsAscend(cfg, group, 6);
    var x := M.ForeignTrial(cfg, group);
    forall i, j | 0 <= i < j < |Coming(x)| ensures Coming(x)[i] != Coming(x)[j] {
      assert Coming(x)[i].meta.index < Coming(x)[j].meta.index;
    }
  }

  /**
   With the default sizes there are a run of a client in heavy mode, and datagrams it sent, on which the server writes
   a payload that was never sent, whatever its reorder window and without any timeout.
   */
  lemma DefaultHeavyModeWritesNoInput(window: nat, t0: real, timeoutMs: real)
    returns (sends: seq<C.Event>, es: seq<Event>, w: Write)
    ensures var cfg := InterpolatingConfig(4, 8, 2, timeoutMs);
            var u := C.Run(cfg, ReedSolomonHeavy, sends);
            && (forall e :: e in es ==> e.Datagram? && FromChannel(u, e.data))
            && w in Writes(cfg, window, t0, es) && w.Recovered? && !PaddedInput(u.inputs, w.payload)
  {
    hide FromChannel, C.Run, Writes, PaddedInput, M.Nested, InterpolatingConfig, M.LastOutput, Served, Sends;
    hide W.Group, InOneGo, Inputs, Encodes, Occurs, ShortGroup;
    var cfg := InterpolatingConfig(4, 8, 2, timeoutMs);
    LawfulConfigsExist(4, 8, 2, timeoutMs);
    InterpolatingConfigIsNested(4, 8, 2, timeoutMs);
    DefaultSizes(timeoutMs);
    HeavySizes(cfg);
    var group := W.Group(W.Zero(6));
    M.ForeignIsNoPayload(cfg);
    GroupIsShort();
    ForeignInOneGo(cfg, group);
    var x := M.ForeignTrial(cfg, group);
    TrialIsServed(cfg, x, window, t0);
    sends, es := Sends(cfg, x.mode, x.sent), Served(cfg, x);
    w :| w in Writes(cfg, window, t0, es) && IsRecovery(w, x.o.meta, x.r);
  }

  lemma GroupIsShort()
    ensures ShortGroup(W.Group(W.Zero(6)))
  {
    W.GroupLength(W.Zero(6));
  }
}
