/** Packets whose group size sends them to the decoder of another code; in runs of one code, when recovery is right. */
module Misrouting {
  import opened Collections
  import opened Bytes
  import opened GroupStream
  import opened RsFec
  import opened FecEngine
  import opened KindRuns
  import CC = ColumnCodes
  import CD = CodeDistance
  import W = Witness
  import XF = XorFec
  import XD = XorDecoder
  import RD = RsDecoder

  /** Packets of the kind end up in the XOR decoder. */
  predicate TakenForXor(cfg: Config, kind: Kind) {
    kind != XorKind && cfg.Dispatch(cfg.Size(kind)) == Some(XorKind)
  }

  /** Heavy packets end up in the normal Reed-Solomon decoder. */
  predicate HeavyTakenForNormal(cfg: Config) {
    cfg.Dispatch(cfg.Size(HeavyKind)) == Some(RsKind)
  }

  lemma HeavyTakenForNormalWhen(cfg: Config)
    ensures HeavyTakenForNormal(cfg) <==> cfg.rsData >= 6 && cfg.rsData + cfg.rsParity != cfg.xorSize + 1
    ensures HeavyTakenForNormal(cfg) ==> cfg.HeavyData() == cfg.rsData - 2
  {
  }

  // ---------- Reed-Solomon packets in the XOR decoder: no parity, or more than two ----------

  /** Only data packets of Reed-Solomon groups are held, and no parity if there is none. */
  ghost predicate DataOnly(k: nat, p: nat, s: XD.State) {
    && (forall gid, i :: gid in s.groups && i in s.groups[gid] ==> i < k)
    && (p == 0 ==> s.parities == map[])
  }

  lemma NeverRecoverable(n: nat, k: nat, p: nat, s: XD.State, gid: nat)
    requires n + 1 == k + p && (p == 0 || p >= 3) && DataOnly(k, p, s)
    ensures !s.Recoverable(n, gid)
  {
    if p != 0 {
      var missing := XF.Missing(n, s.Received(gid).Keys);
      assert k in missing && k + 1 in missing;
      SubsetSize({k, k + 1}, missing);
    }
  }

  lemma DataOnlyStep(cfg: Config, kind: Kind, e: EncState, d: DecState, o: FecOut, now: real)
    requires TakenForXor(cfg, kind) && (ParityOf(cfg, kind) == 0 || ParityOf(cfg, kind) >= 3)
    requires OfKind(cfg, e, kind, o) && DataOnly(DataOf(cfg, kind), ParityOf(cfg, kind), d.xor)
    ensures var (d', r) := DecodeStep(cfg, d, o.meta, o.payload, now);
            r == [] && DataOnly(DataOf(cfg, kind), ParityOf(cfg, kind), d'.xor)
  {
    var m := o.meta;
    if m.groupSize != 0 && m.gid !in d.xor.delivered {
      var s := XD.Store(d.xor, m.gid, m.index, m.isParity, o.payload, now);
      assert DataOnly(DataOf(cfg, kind), ParityOf(cfg, kind), s);
      NeverRecoverable(cfg.xorSize, DataOf(cfg, kind), ParityOf(cfg, kind), s, m.gid);
    }
  }

  lemma {:induction false} DataOnlyRun(cfg: Config, kind: Kind, e: EncState, got: seq<DecEvent>)
    requires TakenForXor(cfg, kind) && (ParityOf(cfg, kind) == 0 || ParityOf(cfg, kind) >= 3)
    requires forall ev :: ev in got && ev.Decode? ==> OfKind(cfg, e, kind, ev.out)
    ensures DataOnly(DataOf(cfg, kind), ParityOf(cfg, kind), DecAfter(cfg, got).xor)
  {
    if got != [] {
      hide DecodeStep, OfKind;
      var n := |got| - 1;
      assert forall ev :: ev in got[..n] ==> ev in got;
      DataOnlyRun(cfg, kind, e, got[..n]);
      assert got[n] in got;
      if got[n].Decode? { DataOnlyStep(cfg, kind, e, DecAfter(cfg, got[..n]), got[n].out, got[n].now); }
    }
  }

  lemma NothingRecovered(cfg: Config, kind: Kind, x: Trial)
    requires cfg.xorSize >= 1 && cfg.rsData >= 1 && TakenForXor(cfg, kind)
    requires ParityOf(cfg, kind) == 0 || ParityOf(cfg, kind) >= 3
    ensures !Happens(cfg, kind, x)
  {
    hide DecodeStep, OfKind;
    if Happens(cfg, kind, x) {
      RunOfKind(cfg, kind, x.mode, x.sent);
      var e := EncRun(cfg, EncInit(x.mode), x.sent).0;
      DataOnlyRun(cfg, kind, e, x.got);
      DataOnlyStep(cfg, kind, e, DecAfter(cfg, x.got), x.o, x.now);
    }
  }

  lemma SilentWithoutTwoOrOne(cfg: Config, kind: Kind)
    requires cfg.xorSize >= 1 && cfg.rsData >= 1 && TakenForXor(cfg, kind)
    requires ParityOf(cfg, kind) == 0 || ParityOf(cfg, kind) >= 3
    ensures SoundAlone(cfg, kind)
  {
    hide Happens;
    forall x: Trial ensures !Happens(cfg, kind, x) {
      NothingRecovered(cfg, kind, x);
    }
  }

  // ---------- Reed-Solomon packets in the XOR decoder: one parity ----------

  /** The parity byte of the code is the exclusive or of the data. */
  ghost predicate XorParity(c: Codec, k: nat) {
    forall d: bytes {:trigger c.enc(d)} :: |d| == k ==> At(c.enc(d), k) == CC.Sum(d)
  }

  lemma XorParityBlock(c: Codec, blocks: seq<bytes>)
    requires XorParity(c, |blocks|)
    ensures ParityBlock(c, blocks, 0) == XF.XorSeq(blocks)
  {
    var n := MaxLen(blocks);
    forall i | 0 <= i < n ensures At(ParityBlock(c, blocks, 0), i) == At(XF.XorSeq(blocks), i) {
      ParityBytesAt(c, blocks, 0, n, i);
      CC.SumOfColumn(blocks, i);
      XF.ParityColumns(blocks, i);
      assert |Column(blocks, i)| == |blocks|;
    }
    SameBytes(ParityBlock(c, blocks, 0), XF.XorSeq(blocks));
  }

  lemma ShardIsXorPacket(cfg: Config, kind: Kind, e: EncState, o: FecOut)
    requires TakenForXor(cfg, kind) && ParityOf(cfg, kind) == 1 && XorParity(CodecOf(cfg, kind), DataOf(cfg, kind))
    requires e.Valid(cfg) && EmittedKind(cfg, e, kind, o)
    ensures XF.Emitted(cfg.xorSize, e.Stream(kind), o.meta.gid, o.meta.index, o.meta.isParity, o.payload)
  {
    hide ParityBlock, XorParity;
    if o.meta.isParity {
      var group := e.Stream(kind).done[o.meta.gid];
      assert group in e.Stream(kind).done;
      XorParityBlock(CodecOf(cfg, kind), group);
    }
  }

  lemma XorLikeStep(cfg: Config, kind: Kind, e: EncState, d: DecState, o: FecOut, now: real)
    requires TakenForXor(cfg, kind) && ParityOf(cfg, kind) == 1 && XorParity(CodecOf(cfg, kind), DataOf(cfg, kind))
    requires e.Valid(cfg) && OfKind(cfg, e, kind, o) && XD.Faithful(cfg.xorSize, e.Stream(kind), d.xor)
    ensures var (d', rs) := DecodeStep(cfg, d, o.meta, o.payload, now);
            && XD.Faithful(cfg.xorSize, e.Stream(kind), d'.xor)
            && forall r :: r in rs ==> PaddedOriginal(e.Stream(kind), o.meta.gid, r)
  {
    hide XorParity, XD.Faithful, PaddedOriginal, EmittedKind;
    var m := o.meta;
    if m.groupSize != 0 {
      ShardIsXorPacket(cfg, kind, e, o);
      StreamValid(cfg, kind, e);
      XD.SoundStep(cfg.xorSize, e.Stream(kind), d.xor, XD.Receive(m.gid, m.index, m.isParity, o.payload, now));
    }
  }

  lemma StreamValid(cfg: Config, kind: Kind, e: EncState)
    requires e.Valid(cfg)
    ensures e.Stream(kind).Valid(DataOf(cfg, kind))
  {
  }

  lemma ExpireKeepsFaithful(cfg: Config, st: Stream, d: DecState, now: real)
    requires XD.Faithful(cfg.xorSize, st, d.xor)
    ensures XD.Faithful(cfg.xorSize, st, ExpireStep(cfg, d, now).xor)
  {
  }

  lemma {:induction false} XorLikeRun(cfg: Config, kind: Kind, e: EncState, got: seq<DecEvent>)
    requires TakenForXor(cfg, kind) && ParityOf(cfg, kind) == 1 && XorParity(CodecOf(cfg, kind), DataOf(cfg, kind))
    requires e.Valid(cfg) && forall ev :: ev in got && ev.Decode? ==> OfKind(cfg, e, kind, ev.out)
    ensures XD.Faithful(cfg.xorSize, e.Stream(kind), DecAfter(cfg, got).xor)
  {
    hide DecodeStep, ExpireStep, OfKind, XorParity, XD.Faithful, CodecOf, DataOf, ParityOf, EncState.Valid;
    if got != [] {
      var n := |got| - 1;
      assert forall ev :: ev in got[..n] ==> ev in got;
      XorLikeRun(cfg, kind, e, got[..n]);
      assert got[n] in got;
      match got[n]
      case Decode(o, now) => XorLikeStep(cfg, kind, e, DecAfter(cfg, got[..n]), o, now);
      case ExpireAll(now) => ExpireKeepsFaithful(cfg, e.Stream(kind), DecAfter(cfg, got[..n]), now);
    } else {
      NothingYet(cfg, e.Stream(kind));
    }
  }

  lemma NothingYet(cfg: Config, st: Stream)
    ensures XD.Faithful(cfg.xorSize, st, DEC_INIT.xor)
  {
  }

  lemma XorLikeIsSound(cfg: Config, kind: Kind)
    requires cfg.xorSize >= 1 && cfg.rsData >= 1 && TakenForXor(cfg, kind)
    requires ParityOf(cfg, kind) == 1 && XorParity(CodecOf(cfg, kind), DataOf(cfg, kind))
    ensures SoundAlone(cfg, kind)
  {
    hide DecodeStep, OfKind, PaddedOriginal, XorParity;
    forall x: Trial | Happens(cfg, kind, x)
      ensures PaddedOriginal(EncRun(cfg, EncInit(x.mode), x.sent).0.Stream(kind), x.o.meta.gid, x.r)
    {
      RunOfKind(cfg, kind, x.mode, x.sent);
      var e := EncRun(cfg, EncInit(x.mode), x.sent).0;
      XorLikeRun(cfg, kind, e, x.got);
      XorLikeStep(cfg, kind, e, DecAfter(cfg, x.got), x.o, x.now);
    }
  }

  // ---------- Reed-Solomon packets in the XOR decoder: a recovery that is no input ----------

  /** Data packets of group 0 as the XOR decoder sees them. */
  function Packets(held: seq<bytes>): (es: seq<XD.Event>)
    ensures |es| == |held|
    ensures forall i :: 0 <= i < |es| ==> es[i] == XD.Receive(0, i, false, held[i], 0.0)
  {
    if held == [] then [] else
      var n := |held| - 1;
      Packets(held[..n]) + [XD.Receive(0, n, false, held[n], 0.0)]
  }

  lemma {:induction false} NotCompleteWithoutParity(n: nat, es: seq<XD.Event>)
    requires forall e :: e in es ==> e.Receive? && !e.isParity
    ensures !XD.EverComplete(n, es, 0)
  {
    if es != [] {
      assert forall e :: e in es[..|es| - 1] ==> e in es;
      NotCompleteWithoutParity(n, es[..|es| - 1]);
      assert forall i :: 0 <= i < |es| ==> es[i] in es;
    }
  }

  lemma {:induction false} SeenPackets(held: seq<bytes>)
    ensures XD.SeenData(Packets(held), 0) == Range(0, |held|)
  {
    if held == [] {
      assert XD.SeenData([], 0) == {};
    } else {
      var n := |held| - 1;
      SeenPackets(held[..n]);
      XD.SeenMore(Packets(held), 0);
      assert Packets(held)[..n] == Packets(held[..n]);
    }
  }

  /** All data packets but one in the decoder's reckoning, then a parity packet: whatever is left over comes out. */
  lemma LeftoverComesOut(n: nat, held: seq<bytes>, parity: bytes)
    requires n == |held| + 1 && MaxLen(held) <= |parity|
    ensures var es := Packets(held) + [XD.Receive(0, n, true, parity, 0.0)];
            XD.Output(n, XD.INIT, es, |held|) == Some((|held|, XorBytes(XF.XorSeq(held), parity)))
  {
    hide XF.XorSeq, XorBytes, MaxLen, XD.Output, Packets, PadTo, XD.FromEncoder;
    var h := |held|;
    var es := Packets(held) + [XD.Receive(0, n, true, parity, 0.0)];
    assert es[..h] == Packets(held);
    CompletesWithParity(n, held, es);
    var left := XorBytes(XF.XorSeq(held), parity);
    var group := held + [left];
    LeftoverCompletes(held, parity);
    StreamOfOne(group, n);
    PacketsAreEmitted(n, held, left, parity);
    XD.EveryRecoveryIsRight(n, Stream([group], []), es, h);
  }

  lemma PacketsAreEmitted(n: nat, held: seq<bytes>, left: bytes, parity: bytes)
    requires n == |held| + 1 && XF.XorSeq(held + [left]) == parity
    ensures forall e :: e in Packets(held) + [XD.Receive(0, n, true, parity, 0.0)] ==>
              XD.FromEncoder(n, Stream([held + [left]], []), e)
  {
    hide XF.XorSeq, Packets;
    var last := XD.Receive(0, n, true, parity, 0.0);
    var st := Stream([held + [left]], []);
    assert st.Group(0) == held + [left];
    assert XD.FromEncoder(n, st, last);
    forall e | e in Packets(held) ensures XD.FromEncoder(n, st, e) {
      var i :| 0 <= i < |held| && Packets(held)[i] == e;
      PacketIsEmitted(n, held, left, i);
    }
  }

  lemma PacketIsEmitted(n: nat, held: seq<bytes>, left: bytes, i: nat)
    requires i < |held|
    ensures XD.FromEncoder(n, Stream([held + [left]], []), XD.Receive(0, i, false, held[i], 0.0))
  {
    assert (held + [left])[i] == held[i];
  }

  lemma CompletesWithParity(n: nat, held: seq<bytes>, es: seq<XD.Event>)
    requires n == |held| + 1 == |es| && es[..|held|] == Packets(held)
    requires es[|held|].Receive? && es[|held|].gid == 0 && es[|held|].isParity
    ensures XD.Output(n, XD.INIT, es, |held|).Some? && XD.Output(n, XD.INIT, es, |held|).value.0 == |held|
  {
    hide XD.SeenData, XD.SeenParity, XD.EverComplete, XD.Output, Packets, XF.Missing;
    var h := |held|;
    AllReceived(held, es);
    NotCompleteWithoutParity(n, es[..h]);
    SeenPackets(held);
    XD.SeenMore(es, 0);
    OneBeyond(h);
    XD.NothingExpires(n, es, 0);
    XD.RecoversOnCompletion(n, XD.INIT, es, 0);
    assert XD.Output(n, XD.INIT, es, h).value.0 in {h};
  }

  lemma AllReceived(held: seq<bytes>, es: seq<XD.Event>)
    requires |es| == |held| + 1 && es[..|held|] == Packets(held) && es[|held|].Receive?
    ensures forall e :: e in es ==> e.Receive?
    ensures forall e :: e in es[..|held|] ==> e.Receive? && !e.isParity
  {
    hide Packets;
    forall e | e in es ensures e.Receive? {
      var i :| 0 <= i < |es| && es[i] == e;
      if i < |held| { assert es[..|held|][i] == e; }
    }
  }

  lemma OneBeyond(h: nat)
    ensures XF.Missing(h + 1, Range(0, h)) == {h}
  {
  }

  /** With the leftover as one more packet the parity would be right. */
  lemma LeftoverCompletes(held: seq<bytes>, parity: bytes)
    requires MaxLen(held) <= |parity|
    ensures var left := XorBytes(XF.XorSeq(held), parity);
            && XF.XorSeq(held + [left]) == parity
            && MaxLen(held + [left]) == |left| == |parity|
            && PadTo(left, |left|) == left
  {
    var a := XF.XorSeq(held);
    var left := XorBytes(a, parity);
    assert (held + [left])[..|held|] == held;
    XorBytesComm(a, parity);
    XorBytesComm(a, left);
    XorBytesCancel(parity, a);
  }

  /** The first n shards of group 0 arrive. */
  function Arrivals(cfg: Config, kind: Kind, group: seq<bytes>, n: nat): (got: seq<DecEvent>)
    requires kind != XorKind
    ensures |got| == n && forall i :: 0 <= i < n ==> got[i] == Decode(ShardOut(cfg, kind, group, i), 0.0)
  {
    if n == 0 then [] else
      Arrivals(cfg, kind, group, n - 1) + [Decode(ShardOut(cfg, kind, group, n - 1), 0.0)]
  }

  lemma DataShardDecoded(cfg: Config, kind: Kind, group: seq<bytes>, i: nat, d: DecState)
    requires TakenForXor(cfg, kind) && |group| == DataOf(cfg, kind) && i < |group|
    ensures var o := ShardOut(cfg, kind, group, i);
            DecodeStep(cfg, d, o.meta, o.payload, 0.0).0.xor
            == XD.ReceiveStep(cfg.xorSize, d.xor, 0, i, false, group[i], 0.0).0
  {
    hide XD.ReceiveStep, DecodeStep, ShardOut;
    var o := ShardOut(cfg, kind, group, i);
    DataShardOut(cfg, kind, group, i);
    var (x, r) := XD.ReceiveStep(cfg.xorSize, d.xor, 0, i, false, group[i], 0.0);
    DecodeStepXor(cfg, d, o.meta, o.payload, 0.0, x, r);
  }

  lemma {:induction false} XorDecoderSeesThem(cfg: Config, kind: Kind, group: seq<bytes>, n: nat)
    requires TakenForXor(cfg, kind) && |group| == DataOf(cfg, kind) && n <= |group|
    ensures DecAfter(cfg, Arrivals(cfg, kind, group, n)).xor == XD.After(cfg.xorSize, XD.INIT, Packets(group[..n]))
  {
    if n != 0 {
      hide XD.ReceiveStep, DecodeStep, ShardOut, TakenForXor, Packets;
      XorDecoderSeesThem(cfg, kind, group, n - 1);
      var got, es := Arrivals(cfg, kind, group, n), Packets(group[..n]);
      assert got[..n - 1] == Arrivals(cfg, kind, group, n - 1);
      assert es[..n - 1] == Packets(group[..n - 1]);
      DataShardDecoded(cfg, kind, group, n - 1, DecAfter(cfg, got[..n - 1]));
    }
  }

  lemma {:induction false} FirstAreShorter(group: seq<bytes>, h: nat)
    requires h <= |group|
    ensures MaxLen(group[..h]) <= MaxLen(group)
  {
    if h < |group| {
      var n := |group| - 1;
      FirstAreShorter(group[..n], h);
      assert group[..n][..h] == group[..h];
    } else {
      assert group[..h] == group;
    }
  }

  /** One whole group with all data packets but as many as the parity, then its last parity packet. */
  function LeftoverTrial(cfg: Config, kind: Kind, group: seq<bytes>): Trial
    requires kind != XorKind && 1 <= ParityOf(cfg, kind) <= 2 && |group| == DataOf(cfg, kind) >= 1
  {
    var k, p := DataOf(cfg, kind), ParityOf(cfg, kind);
    var h := k + p - 2;
    Trial(ModeOf(kind), Encodes(group), Arrivals(cfg, kind, group, h), ShardOut(cfg, kind, group, k + p - 1), 0.0,
          (h, XorBytes(XF.XorSeq(group[..h]), ParityBlock(CodecOf(cfg, kind), group, p - 1))))
  }

  lemma LeftoverHappens(cfg: Config, kind: Kind, group: seq<bytes>)
    requires TakenForXor(cfg, kind) && 1 <= ParityOf(cfg, kind) <= 2 && |group| == DataOf(cfg, kind) >= 1
    ensures Happens(cfg, kind, LeftoverTrial(cfg, kind, group))
  {
    hide GroupRun, DecodeStep, DecAfter, Happens, Shard, ParityBlock, CodecOf;
    var k, p := DataOf(cfg, kind), ParityOf(cfg, kind);
    WholeGroup(cfg, kind, group, k + p - 1);
    ArrivalsWereSent(cfg, kind, group, k + p - 2);
    LeftoverStep(cfg, kind, group);
    GroupTrialHappens(cfg, kind, group, LeftoverTrial(cfg, kind, group));
  }

  lemma GroupTrialHappens(cfg: Config, kind: Kind, group: seq<bytes>, x: Trial)
    requires x.mode == ModeOf(kind) && x.sent == Encodes(group)
    requires x.o in GroupRun(cfg, kind, group).1
    requires forall ev :: ev in x.got && ev.Decode? ==> ev.out in GroupRun(cfg, kind, group).1
    requires x.r in DecodeStep(cfg, DecAfter(cfg, x.got), x.o.meta, x.o.payload, x.now).1
    ensures Happens(cfg, kind, x)
  {
    StaysInKind(cfg, kind, group);
    hide EncRun, UsesOnly, DecodeStep, DecAfter;
  }

  lemma ArrivalsWereSent(cfg: Config, kind: Kind, group: seq<bytes>, n: nat)
    requires kind != XorKind && |group| == DataOf(cfg, kind) >= 1 && n <= |group| + ParityOf(cfg, kind)
    ensures forall ev :: ev in Arrivals(cfg, kind, group, n) && ev.Decode? ==> ev.out in GroupRun(cfg, kind, group).1
  {
    hide GroupRun, ShardOut;
    var got := Arrivals(cfg, kind, group, n);
    forall ev | ev in got ensures ev.Decode? && ev.out in GroupRun(cfg, kind, group).1 {
      var i :| 0 <= i < |got| && got[i] == ev;
      WholeGroup(cfg, kind, group, i);
    }
  }

  lemma TrialParts(cfg: Config, kind: Kind, group: seq<bytes>)
    requires TakenForXor(cfg, kind) && 1 <= ParityOf(cfg, kind) <= 2 && |group| == DataOf(cfg, kind) >= 1
    ensures var x := LeftoverTrial(cfg, kind, group);
            var c, p, h := CodecOf(cfg, kind), ParityOf(cfg, kind), cfg.xorSize - 1;
            && 0 <= h <= |group| && x.now == 0.0
            && x.got == Arrivals(cfg, kind, group, h)
            && x.o == FecOut(ParityBlock(c, group, p - 1), Meta(0, cfg.xorSize, cfg.Size(kind), true, false))
            && x.r == (h, XorBytes(XF.XorSeq(group[..h]), ParityBlock(c, group, p - 1)))
  {
    hide ParityBlock, XF.XorSeq, XorBytes, Arrivals, CodecOf;
  }

  lemma LeftoverStep(cfg: Config, kind: Kind, group: seq<bytes>)
    requires TakenForXor(cfg, kind) && 1 <= ParityOf(cfg, kind) <= 2 && |group| == DataOf(cfg, kind) >= 1
    ensures var x := LeftoverTrial(cfg, kind, group);
            DecodeStep(cfg, DecAfter(cfg, x.got), x.o.meta, x.o.payload, x.now).1 == [x.r]
  {
    hide ParityBlock, XF.XorSeq, XD.ReceiveStep, CodecOf, Arrivals, DecAfter, DecodeStep, XorBytes, LeftoverTrial;
    TrialParts(cfg, kind, group);
    var n, h := cfg.xorSize, cfg.xorSize - 1;
    var x := LeftoverTrial(cfg, kind, group);
    ParityBlockLength(CodecOf(cfg, kind), group, ParityOf(cfg, kind) - 1);
    FirstAreShorter(group, h);
    LeftoverIsReceived(n, group[..h], x.o.payload);
    XorDecoderSeesThem(cfg, kind, group, h);
    var d := DecAfter(cfg, x.got);
    var (s, r) := XD.ReceiveStep(n, d.xor, 0, n, true, x.o.payload, 0.0);
    DecodeStepXor(cfg, d, x.o.meta, x.o.payload, 0.0, s, r);
  }

  lemma ParityBlockLength(c: Codec, group: seq<bytes>, q: nat)
    ensures |ParityBlock(c, group, q)| == MaxLen(group)
  {
  }

  lemma LeftoverIsReceived(n: nat, held: seq<bytes>, parity: bytes)
    requires n == |held| + 1 && MaxLen(held) <= |parity|
    ensures XD.ReceiveStep(n, XD.After(n, XD.INIT, Packets(held)), 0, n, true, parity, 0.0).1
            == Some((|held|, XorBytes(XF.XorSeq(held), parity)))
  {
    hide XD.ReceiveStep, XorBytes, XF.XorSeq, MaxLen, Packets;
    var es := Packets(held) + [XD.Receive(0, n, true, parity, 0.0)];
    assert es[..|held|] == Packets(held);
    LeftoverComesOut(n, held, parity);
  }

  /** Two parity packets, or one that is not the exclusive or: a payload comes out that is no payload sent. */
  lemma LeftoverIsNoPayload(cfg: Config, kind: Kind, b: bytes)
    requires cfg.LawfulCodes() && TakenForXor(cfg, kind) && |b| == DataOf(cfg, kind) >= 1
    requires ParityOf(cfg, kind) == 2
             || (ParityOf(cfg, kind) == 1 && At(CodecOf(cfg, kind).enc(b), |b|) != CC.Sum(b))
    ensures var x := LeftoverTrial(cfg, kind, W.Group(b));
            Happens(cfg, kind, x) && !PaddedInput(Inputs(x.sent), x.r.1)
  {
    hide W.Leftover, W.Payload, W.Group, Lawful, LeftoverTrial, CC.Sum, CodecOf, Happens, PaddedInput, Inputs;
    var p := ParityOf(cfg, kind);
    LawfulOf(cfg, kind);
    W.LeftoverIsNoPayload(CodecOf(cfg, kind), p, b);
    LeftoverHappens(cfg, kind, W.Group(b));
    LeftoverTrialIs(cfg, kind, b);
    NotAPayload(b, LeftoverTrial(cfg, kind, W.Group(b)).r.1);
  }

  lemma LeftoverIsNoInput(cfg: Config, kind: Kind, b: bytes)
    requires cfg.LawfulCodes() && TakenForXor(cfg, kind) && |b| == DataOf(cfg, kind) >= 1
    requires ParityOf(cfg, kind) == 2
             || (ParityOf(cfg, kind) == 1 && At(CodecOf(cfg, kind).enc(b), |b|) != CC.Sum(b))
    ensures !InputsAlone(cfg, kind)
  {
    hide W.Group, Lawful, LeftoverTrial, CC.Sum, CodecOf, Happens, PaddedInput, Inputs;
    LeftoverIsNoPayload(cfg, kind, b);
    assert Happens(cfg, kind, LeftoverTrial(cfg, kind, W.Group(b)));
  }

  lemma LeftoverTrialIs(cfg: Config, kind: Kind, b: bytes)
    requires kind != XorKind && 1 <= ParityOf(cfg, kind) <= 2 && |b| == DataOf(cfg, kind) >= 1
    ensures var x := LeftoverTrial(cfg, kind, W.Group(b));
            && x.sent == Encodes(W.Group(b))
            && x.r.1 == W.Leftover(CodecOf(cfg, kind), b, ParityOf(cfg, kind) - 1, |b| + ParityOf(cfg, kind) - 2)
  {
    hide ParityBlock, XF.XorSeq, W.Group, Encodes, Arrivals, CodecOf;
  }

  /** A byte string that is none of the payloads of the group sent. */
  lemma NotAPayload(b: bytes, y: bytes)
    requires |y| == |b| + 2 && forall j :: 0 <= j < |b| ==> y != W.Payload(b, j)
    ensures !PaddedInput(Inputs(Encodes(W.Group(b))), y)
  {
    hide W.Payload, W.Group, PadTo;
    InputsOfEncodes(W.Group(b));
    W.PaddedInputIsPayload(b, y);
  }

  lemma LawfulOf(cfg: Config, kind: Kind)
    requires cfg.LawfulCodes() && kind != XorKind
    ensures Lawful(CodecOf(cfg, kind), DataOf(cfg, kind), ParityOf(cfg, kind))
  {
  }

  // ---------- heavy packets in the normal decoder: no parity ----------

  /** Only shards below k are held. */
  ghost predicate Within(k: nat, s: RD.State) {
    forall gid, i :: gid in s.groups && i in s.groups[gid] ==> i < k
  }

  lemma NothingMissing(c: Codec, k: nat, p: nat, s: RD.State, gid: nat)
    requires Within(k, s)
    ensures RD.TryRecoverStep(c, k, p, s, gid).1 == [] && Within(k, RD.TryRecoverStep(c, k, p, s, gid).0)
  {
    var shards := s.Received(gid);
    assert |shards.Keys| == |shards|;
    if |shards| >= k {
      forall i | i in shards ensures i in Range(0, k) { }
      SubsetSize(shards.Keys, Range(0, k));
      assert RD.MissingData(k, shards.Keys) == {};
    }
  }

  lemma WithinStep(cfg: Config, e: EncState, d: DecState, o: FecOut, now: real)
    requires HeavyTakenForNormal(cfg) && cfg.rsParity == 0
    requires OfKind(cfg, e, HeavyKind, o) && Within(cfg.rsData, d.rs)
    ensures var (d', r) := DecodeStep(cfg, d, o.meta, o.payload, now); r == [] && Within(cfg.rsData, d'.rs)
  {
    hide RD.TryRecoverStep;
    var m := o.meta;
    if m.groupSize != 0 && m.gid !in d.rs.delivered {
      NothingMissing(cfg.rsCodec, cfg.rsData, cfg.rsParity, RD.Store(d.rs, m.gid, m.index, o.payload, now), m.gid);
    }
  }

  lemma {:induction false} WithinRun(cfg: Config, e: EncState, got: seq<DecEvent>)
    requires HeavyTakenForNormal(cfg) && cfg.rsParity == 0
    requires forall ev :: ev in got && ev.Decode? ==> OfKind(cfg, e, HeavyKind, ev.out)
    ensures Within(cfg.rsData, DecAfter(cfg, got).rs)
  {
    if got != [] {
      hide DecodeStep, OfKind;
      var n := |got| - 1;
      assert forall ev :: ev in got[..n] ==> ev in got;
      WithinRun(cfg, e, got[..n]);
      assert got[n] in got;
      if got[n].Decode? { WithinStep(cfg, e, DecAfter(cfg, got[..n]), got[n].out, got[n].now); }
    }
  }

  lemma NothingRecoveredByNormal(cfg: Config, x: Trial)
    requires cfg.xorSize >= 1 && cfg.rsData >= 1 && HeavyTakenForNormal(cfg) && cfg.rsParity == 0
    ensures !Happens(cfg, HeavyKind, x)
  {
    hide DecodeStep, OfKind;
    if Happens(cfg, HeavyKind, x) {
      RunOfKind(cfg, HeavyKind, x.mode, x.sent);
      var e := EncRun(cfg, EncInit(x.mode), x.sent).0;
      WithinRun(cfg, e, x.got);
      WithinStep(cfg, e, DecAfter(cfg, x.got), x.o, x.now);
    }
  }

  lemma SilentWithoutParity(cfg: Config)
    requires cfg.xorSize >= 1 && cfg.rsData >= 1 && HeavyTakenForNormal(cfg) && cfg.rsParity == 0
    ensures SoundAlone(cfg, HeavyKind)
  {
    hide Happens;
    forall x: Trial ensures !Happens(cfg, HeavyKind, x) {
      NothingRecoveredByNormal(cfg, x);
    }
  }

  // ---------- heavy packets in the normal decoder: parity handed out as data ----------

  /** Events of the normal decoder: heavy packets as it sees them, and expiries. */
  ghost predicate HeavyArrivals(cfg: Config, got: seq<DecEvent>) {
    forall ev :: ev in got ==> ev.Decode? && ev.out.meta.groupSize == cfg.Size(HeavyKind)
  }

  function AsShards(got: seq<DecEvent>): (es: seq<RD.Event>)
    requires forall ev :: ev in got ==> ev.Decode?
    ensures |es| == |got| && forall e :: e in es ==> e.Receive?
  {
    if got == [] then [] else
      var n := |got| - 1;
      var o := got[n].out;
      AsShards(got[..n]) + [RD.Receive(o.meta.gid, o.meta.index, o.payload, got[n].now)]
  }

  lemma {:induction false} NormalDecoderSeesThem(cfg: Config, got: seq<DecEvent>)
    requires HeavyTakenForNormal(cfg) && HeavyArrivals(cfg, got)
    ensures DecAfter(cfg, got).rs == RD.After(cfg.rsCodec, cfg.rsData, cfg.rsParity, RD.INIT, AsShards(got))
  {
    if got != [] {
      hide RD.ReceiveStep;
      var n := |got| - 1;
      assert forall ev :: ev in got[..n] ==> ev in got;
      NormalDecoderSeesThem(cfg, got[..n]);
      assert got[n] in got;
      var es := AsShards(got);
      assert es[..|es| - 1] == AsShards(got[..n]);
      var d, o := DecAfter(cfg, got[..n]), got[n].out;
      var (x, r) := RD.ReceiveStep(cfg.rsCodec, cfg.rsData, cfg.rsParity, d.rs, o.meta.gid, o.meta.index, o.payload,
                                   got[n].now);
      DecodeStepRs(cfg, d, o.meta, o.payload, got[n].now, x, r);
    }
  }

  /** The data packets of a heavy group and its second parity packet. */
  function AllButFirstParity(cfg: Config, group: seq<bytes>): seq<DecEvent> {
    Arrivals(cfg, HeavyKind, group, |group|) + [Decode(ShardOut(cfg, HeavyKind, group, |group| + 1), 0.0)]
  }

  lemma {:induction false} SeenArrivals(cfg: Config, group: seq<bytes>, n: nat)
    ensures forall ev :: ev in Arrivals(cfg, HeavyKind, group, n) ==> ev.Decode?
    ensures RD.Seen(AsShards(Arrivals(cfg, HeavyKind, group, n)), 0) == Range(0, n)
  {
    if n != 0 {
      hide ShardOut;
      SeenArrivals(cfg, group, n - 1);
      var got := Arrivals(cfg, HeavyKind, group, n);
      assert got[..n - 1] == Arrivals(cfg, HeavyKind, group, n - 1);
      SeenOneMore(cfg, group, got[..n - 1], n - 1);
      assert got == got[..n - 1] + [got[n - 1]];
    }
  }

  lemma SeenOneMore(cfg: Config, group: seq<bytes>, got: seq<DecEvent>, i: nat)
    requires forall ev :: ev in got ==> ev.Decode?
    ensures var more := got + [Decode(ShardOut(cfg, HeavyKind, group, i), 0.0)];
            RD.Seen(AsShards(more), 0) == RD.Seen(AsShards(got), 0) + {i}
  {
    var more := got + [Decode(ShardOut(cfg, HeavyKind, group, i), 0.0)];
    assert more[..|got|] == got;
    var es := AsShards(more);
    assert es[..|got|] == AsShards(got);
  }

  lemma SeenAllButFirstParity(cfg: Config, group: seq<bytes>)
    ensures HeavyArrivals(cfg, AllButFirstParity(cfg, group))
    ensures RD.Seen(AsShards(AllButFirstParity(cfg, group)), 0) == Range(0, |group|) + {|group| + 1}
  {
    SeenArrivals(cfg, group, |group|);
    SeenOneMore(cfg, group, Arrivals(cfg, HeavyKind, group, |group|), |group| + 1);
    hide Shard;
    var got := Arrivals(cfg, HeavyKind, group, |group|);
    forall ev | ev in AllButFirstParity(cfg, group) ensures ev.Decode? && ev.out.meta.groupSize == cfg.Size(HeavyKind) {
      if ev in got { var i :| 0 <= i < |got| && got[i] == ev; }
    }
  }

  /** The shards the normal decoder holds when the third parity packet has come as well. */
  ghost function HeldShards(cfg: Config, group: seq<bytes>): RD.State
    requires |group| == cfg.HeavyData()
  {
    var h := |group|;
    RD.Store(DecAfter(cfg, AllButFirstParity(cfg, group)).rs, 0, h + 2, Shard(cfg.heavyCodec, group, h + 2), 0.0)
  }

  /** These are as many as the normal decoder asks for, and the first parity is not among them. */
  lemma HeldAre(cfg: Config, group: seq<bytes>)
    requires HeavyTakenForNormal(cfg) && |group| == cfg.HeavyData()
    ensures 0 !in DecAfter(cfg, AllButFirstParity(cfg, group)).rs.delivered
    ensures var shards := HeldShards(cfg, group).Received(0);
            shards.Keys == Range(0, cfg.rsData + 1) - {cfg.HeavyData()} && |shards| == cfg.rsData
  {
    var h, k := |group|, cfg.rsData;
    var got := AllButFirstParity(cfg, group);
    hide AllButFirstParity, AsShards, Shard;
    HeavyTakenForNormalWhen(cfg);
    SeenAllButFirstParity(cfg, group);
    NormalDecoderSeesThem(cfg, got);
    var seen := RD.Seen(AsShards(got), 0);
    SizeOfSeen(h);
    RD.NothingExpires(k, AsShards(got), 0);
    RD.HoldsWhatWasSeen(cfg.rsCodec, k, cfg.rsParity, RD.INIT, AsShards(got), 0);
    RD.StoreSeen(DecAfter(cfg, got).rs, 0, h + 2, Shard(cfg.heavyCodec, group, h + 2), 0.0);
  }

  lemma SizeOfSeen(h: nat)
    ensures |Range(0, h) + {h + 1}| == h + 1
    ensures Range(0, h) + {h + 1} + {h + 2} == Range(0, h + 3) - {h}
    ensures |Range(0, h + 3) - {h}| == h + 2
  {
    assert h in Range(0, h + 3) && h + 1 !in Range(0, h);
  }

  lemma MissingIsFirstParity(k: nat, h: nat)
    requires k == h + 2
    ensures RD.MissingData(k, Range(0, k + 1) - {h}) == {h}
    ensures SortedSeq(RD.MissingData(k, Range(0, k + 1) - {h})) == [h]
  {
    var m := RD.MissingData(k, Range(0, k + 1) - {h});
    assert m == {h};
    var q := SortedSeq(m);
    assert |q| == 1 && q[0] in m;
  }

  /** Any lawful normal code finds something for the data packet it takes the first heavy parity for. */
  lemma HeldDecode(cfg: Config, group: seq<bytes>)
    requires cfg.LawfulCodes() && HeavyTakenForNormal(cfg) && |group| == cfg.HeavyData() && cfg.rsParity >= 1
    ensures Decoded(cfg.rsCodec, cfg.rsData, cfg.rsParity, HeldShards(cfg, group).Received(0)).Ok?
  {
    hide HeldShards, Lawful, Decoded;
    HeldAre(cfg, group);
    HeavyTakenForNormalWhen(cfg);
    CD.AnyKShardsDecode(cfg.rsCodec, cfg.rsData, cfg.rsParity, HeldShards(cfg, group).Received(0));
  }

  /** What the third parity packet of the group makes the engine return. */
  ghost function LastOutput(cfg: Config, group: seq<bytes>): RD.Recoveries {
    var o := ShardOut(cfg, HeavyKind, group, |group| + 2);
    DecodeStep(cfg, DecAfter(cfg, AllButFirstParity(cfg, group)), o.meta, o.payload, 0.0).1
  }

  lemma LastOutputIs(cfg: Config, group: seq<bytes>)
    requires HeavyTakenForNormal(cfg) && |group| == cfg.HeavyData()
    ensures LastOutput(cfg, group)
            == RD.TryRecoverStep(cfg.rsCodec, cfg.rsData, cfg.rsParity, HeldShards(cfg, group), 0).1
  {
    hide RD.TryRecoverStep, AllButFirstParity, Shard, DecAfter;
    HeldAre(cfg, group);
  }

  /** The normal decoder hands out a data packet numbered like the first parity packet: the group has none. */
  lemma ForeignIndexComesOut(cfg: Config, group: seq<bytes>)
    requires cfg.LawfulCodes() && HeavyTakenForNormal(cfg) && |group| == cfg.HeavyData() && cfg.rsParity >= 1
    ensures |LastOutput(cfg, group)| == 1 && LastOutput(cfg, group)[0].0 == |group|
  {
    hide LastOutput, HeldShards, Decoded;
    LastOutputIs(cfg, group);
    HeldAre(cfg, group);
    HeldDecode(cfg, group);
    HeavyTakenForNormalWhen(cfg);
    MissingIsFirstParity(cfg.rsData, |group|);
  }

  // ---------- what that packet is, when heavy codewords are normal ones ----------

  /** A heavy codeword is the normal codeword of its first rsData bytes. */
  ghost predicate Nested(cfg: Config) {
    forall d: bytes {:trigger cfg.heavyCodec.enc(d)} :: |d| == cfg.HeavyData() ==>
      |cfg.heavyCodec.enc(d)| >= cfg.rsData
      && cfg.rsCodec.enc(cfg.heavyCodec.enc(d)[..cfg.rsData]) == cfg.heavyCodec.enc(d)
  }

  /** The normal group that a heavy group is taken for: two parity blocks become data. */
  function TakenGroup(cfg: Config, group: seq<bytes>): (g: seq<bytes>)
    ensures |g| == |group| + 2
  {
    group + [ParityBlock(cfg.heavyCodec, group, 0), ParityBlock(cfg.heavyCodec, group, 1)]
  }

  lemma TakenLength(cfg: Config, group: seq<bytes>)
    ensures MaxLen(TakenGroup(cfg, group)) == MaxLen(group)
  {
    var p0, p1 := ParityBlock(cfg.heavyCodec, group, 0), ParityBlock(cfg.heavyCodec, group, 1);
    assert (group + [p0, p1])[..|group| + 1] == group + [p0];
    assert (group + [p0])[..|group|] == group;
  }

  lemma TakenColumn(cfg: Config, group: seq<bytes>, i: nat)
    requires cfg.LawfulCodes() && HeavyTakenForNormal(cfg) && |group| == cfg.HeavyData() && i < MaxLen(group)
    ensures |cfg.heavyCodec.enc(Column(group, i))| >= cfg.rsData
    ensures Column(TakenGroup(cfg, group), i) == cfg.heavyCodec.enc(Column(group, i))[..cfg.rsData]
  {
    hide ParityBytes, Column;
    var c, g, k := cfg.heavyCodec, TakenGroup(cfg, group), cfg.rsData;
    HeavyTakenForNormalWhen(cfg);
    SystematicAt(c, cfg.HeavyParity(), Column(group, i));
    forall j | 0 <= j < k ensures Column(g, i)[j] == c.enc(Column(group, i))[j] {
      ColumnAt(g, i, j);
      if j < |group| {
        ColumnAt(group, i, j);
      } else {
        ParityBytesAt(c, group, j - |group|, MaxLen(group), i);
      }
    }
  }

  lemma {:induction false} SameParityBytes(cfg: Config, group: seq<bytes>, r: nat, n: nat)
    requires cfg.LawfulCodes() && HeavyTakenForNormal(cfg) && Nested(cfg)
    requires |group| == cfg.HeavyData() && n <= MaxLen(group)
    ensures ParityBytes(cfg.rsCodec, TakenGroup(cfg, group), r, n) == ParityBytes(cfg.heavyCodec, group, r + 2, n)
  {
    if n != 0 {
      hide TakenGroup, Column;
      SameParityBytes(cfg, group, r, n - 1);
      HeavyTakenForNormalWhen(cfg);
      TakenColumn(cfg, group, n - 1);
      assert |Column(group, n - 1)| == cfg.HeavyData();
    }
  }

  /** The heavy shards are the normal shards of the group they are taken for. */
  lemma TakenShards(cfg: Config, group: seq<bytes>, i: nat)
    requires cfg.LawfulCodes() && HeavyTakenForNormal(cfg) && Nested(cfg)
    requires |group| == cfg.HeavyData() && i < cfg.rsData + cfg.rsParity
    ensures RD.EmittedShard(cfg.rsCodec, cfg.rsData, cfg.rsParity, Stream([TakenGroup(cfg, group)], []), 0, i,
                            Shard(cfg.heavyCodec, group, i))
  {
    HeavyTakenForNormalWhen(cfg);
    if i >= cfg.rsData {
      TakenLength(cfg, group);
      SameParityBytes(cfg, group, i - cfg.rsData, MaxLen(group));
    }
  }

  /** The arrival of a shard of the heavy group. */
  ghost predicate ArrivesFrom(cfg: Config, group: seq<bytes>, ev: DecEvent) {
    ev.Decode?
    && exists i :: 0 <= i < cfg.rsData + cfg.rsParity && ev.out == ShardOut(cfg, HeavyKind, group, i)
  }

  lemma {:induction false} TakenEvents(cfg: Config, group: seq<bytes>, got: seq<DecEvent>)
    requires cfg.LawfulCodes() && HeavyTakenForNormal(cfg) && Nested(cfg) && |group| == cfg.HeavyData()
    requires forall ev :: ev in got ==> ev.Decode? && ArrivesFrom(cfg, group, ev)
    ensures forall e :: e in AsShards(got) ==>
              RD.FromEncoder(cfg.rsCodec, cfg.rsData, cfg.rsParity, Stream([TakenGroup(cfg, group)], []), e)
  {
    if got != [] {
      hide TakenGroup, Shard, RD.EmittedShard, Nested;
      var n := |got| - 1;
      assert forall ev :: ev in got[..n] ==> ev in got;
      TakenEvents(cfg, group, got[..n]);
      assert got[n] in got;
      var i :| 0 <= i < cfg.rsData + cfg.rsParity && got[n].out == ShardOut(cfg, HeavyKind, group, i);
      TakenShards(cfg, group, i);
    }
  }

  /** The packet handed out is the heavy group's first parity packet. */
  lemma ParityComesOutAsData(cfg: Config, group: seq<bytes>)
    requires cfg.LawfulCodes() && HeavyTakenForNormal(cfg) && Nested(cfg)
    requires |group| == cfg.HeavyData() && cfg.rsParity >= 1
    ensures LastOutput(cfg, group) == [(|group|, ParityBlock(cfg.heavyCodec, group, 0))]
  {
    hide TakenGroup, ParityBlock, LastOutput, Nested;
    ForeignIndexComesOut(cfg, group);
    LastOutputIsTaken(cfg, group);
    var r := LastOutput(cfg, group)[0];
    assert r == (|group|, ParityBlock(cfg.heavyCodec, group, 0));
  }

  /** Everything returned is of the group that the heavy group is taken for. */
  lemma LastOutputIsTaken(cfg: Config, group: seq<bytes>)
    requires cfg.LawfulCodes() && HeavyTakenForNormal(cfg) && Nested(cfg)
    requires |group| == cfg.HeavyData() && cfg.rsParity >= 1
    ensures forall r :: r in LastOutput(cfg, group) && r.0 == |group| ==>
              r.1 == ParityBlock(cfg.heavyCodec, group, 0)
  {
    var k, g := cfg.rsData, TakenGroup(cfg, group);
    assert g[|group|] == ParityBlock(cfg.heavyCodec, group, 0);
    hide TakenGroup, ParityBlock, LastOutput, Lawful, Nested, HeldShards, RD.EmittedShard, SortedSeq, RD.MissingData;
    HeavyTakenForNormalWhen(cfg);
    LastOutputIs(cfg, group);
    HeldAreFaithful(cfg, group);
    HeldAre(cfg, group);
    StreamOfOne(g, k);
    RD.RecoveryIsRight(cfg.rsCodec, k, cfg.rsParity, Stream([g], []), HeldShards(cfg, group), 0);
    FirstParityLength(cfg, group);
  }

  lemma FirstParityLength(cfg: Config, group: seq<bytes>)
    ensures MaxLen(TakenGroup(cfg, group)) == |ParityBlock(cfg.heavyCodec, group, 0)|
  {
    TakenLength(cfg, group);
  }

  lemma HeldAreFaithful(cfg: Config, group: seq<bytes>)
    requires cfg.LawfulCodes() && HeavyTakenForNormal(cfg) && Nested(cfg)
    requires |group| == cfg.HeavyData() && cfg.rsParity >= 1
    ensures RD.Faithful(cfg.rsCodec, cfg.rsData, cfg.rsParity, Stream([TakenGroup(cfg, group)], []),
                        HeldShards(cfg, group))
  {
    var c, k, p, st := cfg.rsCodec, cfg.rsData, cfg.rsParity, Stream([TakenGroup(cfg, group)], []);
    var got, h := AllButFirstParity(cfg, group), |group|;
    HeavyTakenForNormalWhen(cfg);
    ArrivalsAreShards(cfg, group);
    SeenAllButFirstParity(cfg, group);
    TakenEvents(cfg, group, got);
    NormalDecoderSeesThem(cfg, got);
    StreamOfOne(TakenGroup(cfg, group), k);
    hide Lawful, Nested, TakenGroup, AllButFirstParity, AsShards;
    RD.FaithfulRun(c, k, p, st, AsShards(got));
    TakenShards(cfg, group, h + 2);
    var last := RD.Receive(0, h + 2, Shard(cfg.heavyCodec, group, h + 2), 0.0);
    RD.FaithfulStore(c, k, p, st, DecAfter(cfg, got).rs, last);
  }

  lemma StreamOfOne(group: seq<bytes>, k: nat)
    requires |group| == k >= 1
    ensures Stream([group], []).Valid(k)
  {
  }

  lemma ArrivalsAreShards(cfg: Config, group: seq<bytes>)
    requires HeavyTakenForNormal(cfg) && |group| == cfg.HeavyData()
    ensures forall ev :: ev in AllButFirstParity(cfg, group) ==> ArrivesFrom(cfg, group, ev)
  {
    hide ShardOut;
    HeavyTakenForNormalWhen(cfg);
    var got := Arrivals(cfg, HeavyKind, group, |group|);
    forall ev | ev in AllButFirstParity(cfg, group)
      ensures ArrivesFrom(cfg, group, ev)
    {
      if ev in got {
        var i :| 0 <= i < |got| && got[i] == ev;
        assert ev.out == ShardOut(cfg, HeavyKind, group, i);
      } else {
        assert ev.out == ShardOut(cfg, HeavyKind, group, |group| + 1);
      }
    }
  }

  /** The whole heavy group is sent; its data and its second and third parity packets arrive. */
  ghost function ForeignTrial(cfg: Config, group: seq<bytes>): Trial
    requires LastOutput(cfg, group) != []
  {
    Trial(ReedSolomonHeavy, Encodes(group), AllButFirstParity(cfg, group),
          ShardOut(cfg, HeavyKind, group, |group| + 2), 0.0, LastOutput(cfg, group)[0])
  }

  lemma ForeignHappens(cfg: Config, group: seq<bytes>)
    requires cfg.LawfulCodes() && HeavyTakenForNormal(cfg) && |group| == cfg.HeavyData()
    requires cfg.rsParity >= 1 && LastOutput(cfg, group) != []
    ensures Happens(cfg, HeavyKind, ForeignTrial(cfg, group))
  {
    hide GroupRun, DecodeStep, DecAfter, Happens, Shard;
    var h := |group|;
    forall ev | ev in AllButFirstParity(cfg, group) ensures ev.Decode? && ev.out in GroupRun(cfg, HeavyKind, group).1 {
      ArrivalsWereSent(cfg, HeavyKind, group, h);
      WholeGroup(cfg, HeavyKind, group, h + 1);
      var got := Arrivals(cfg, HeavyKind, group, h);
      if ev in got { var i :| 0 <= i < |got| && got[i] == ev; }
    }
    WholeGroup(cfg, HeavyKind, group, h + 2);
    GroupTrialHappens(cfg, HeavyKind, group, ForeignTrial(cfg, group));
  }

  /** The recovery names a data packet that the heavy group does not have, whatever lawful codes are used. */
  lemma ForeignIsUnsound(cfg: Config)
    requires cfg.LawfulCodes() && HeavyTakenForNormal(cfg) && cfg.rsParity >= 1
    ensures !SoundAlone(cfg, HeavyKind)
  {
    hide LastOutput, Happens, EncRun, UsesOnly;
    var group := W.Group(W.Zero(cfg.HeavyData()));
    ForeignIndexComesOut(cfg, group);
    ForeignHappens(cfg, group);
    WholeGroup(cfg, HeavyKind, group, 0);
    assert Happens(cfg, HeavyKind, ForeignTrial(cfg, group));
  }

  /** And its bytes are parity: no payload sent, padded or not. */
  lemma ForeignIsNoPayload(cfg: Config)
    requires cfg.LawfulCodes() && HeavyTakenForNormal(cfg) && Nested(cfg) && cfg.rsParity >= 1
    ensures var group := W.Group(W.Zero(cfg.HeavyData()));
            && LastOutput(cfg, group) != []
            && Happens(cfg, HeavyKind, ForeignTrial(cfg, group))
            && !PaddedInput(Inputs(Encodes(group)), LastOutput(cfg, group)[0].1)
  {
    var b := W.Zero(cfg.HeavyData());
    var group := W.Group(b);
    LawfulOf(cfg, HeavyKind);
    hide LastOutput, W.Payload, W.Group, ParityBlock, Lawful, Nested, Happens, PaddedInput, Encodes, Inputs;
    ParityComesOutAsData(cfg, group);
    ForeignHappens(cfg, group);
    FirstParityIsLong(cfg, b);
    forall j | 0 <= j < |b| ensures ParityBlock(cfg.heavyCodec, group, 0) != W.Payload(b, j) {
      W.ParityIsNotPayload(cfg.heavyCodec, cfg.HeavyParity(), b, 0, j);
    }
    NotAPayload(b, LastOutput(cfg, group)[0].1);
  }

  lemma ForeignIsNoInput(cfg: Config)
    requires cfg.LawfulCodes() && HeavyTakenForNormal(cfg) && Nested(cfg) && cfg.rsParity >= 1
    ensures !InputsAlone(cfg, HeavyKind)
  {
    hide LastOutput, Lawful, Nested, Happens, PaddedInput, Encodes, Inputs, W.Group;
    ForeignIsNoPayload(cfg);
    assert Happens(cfg, HeavyKind, ForeignTrial(cfg, W.Group(W.Zero(cfg.HeavyData()))));
  }

  lemma FirstParityIsLong(cfg: Config, b: bytes)
    requires b != []
    ensures |ParityBlock(cfg.heavyCodec, W.Group(b), 0)| == |b| + 2
  {
    W.GroupLength(b);
  }

  // ---------- too few shards for the normal decoder ----------

  /** The indices under which packets of a group have come to the normal decoder, of whatever kind they were. */
  ghost function SeenByNormal(cfg: Config, got: seq<DecEvent>, gid: nat): set<nat> {
    if got == [] then {} else
      var ev := got[|got| - 1];
      SeenByNormal(cfg, got[..|got| - 1], gid)
      + if ev.Decode? && cfg.Dispatch(ev.out.meta.groupSize) == Some(RsKind) && ev.out.meta.gid == gid
        then {ev.out.meta.index} else {}
  }

  lemma StepHoldsSeen(cfg: Config, d: DecState, o: FecOut, now: real, gid: nat)
    ensures DecodeStep(cfg, d, o.meta, o.payload, now).0.rs.Received(gid).Keys
            <= d.rs.Received(gid).Keys
               + if cfg.Dispatch(o.meta.groupSize) == Some(RsKind) && o.meta.gid == gid then {o.meta.index} else {}
  {
    hide XD.ReceiveStep, RD.TryRecoverStep;
    var m := o.meta;
    if cfg.Dispatch(m.groupSize) == Some(RsKind) && m.gid !in d.rs.delivered {
      RD.TryOnlyDrops(cfg.rsCodec, cfg.rsData, cfg.rsParity, RD.Store(d.rs, m.gid, m.index, o.payload, now), m.gid,
                      gid);
    }
  }

  lemma {:induction false} HeldWereSeen(cfg: Config, got: seq<DecEvent>, gid: nat)
    ensures DecAfter(cfg, got).rs.Received(gid).Keys <= SeenByNormal(cfg, got, gid)
  {
    if got != [] {
      hide DecodeStep;
      var n := |got| - 1;
      HeldWereSeen(cfg, got[..n], gid);
      if got[n].Decode? { StepHoldsSeen(cfg, DecAfter(cfg, got[..n]), got[n].out, got[n].now, gid); }
    }
  }

  /**
   Whatever else has arrived and expired: a heavy group of which fewer than rsData distinct packets have come is not
   recovered, although its own code needs two fewer.
   */
  lemma MisroutedHeavyIsNotRecovered(cfg: Config, got: seq<DecEvent>, o: FecOut, now: real)
    requires HeavyTakenForNormal(cfg) && o.meta.groupSize == cfg.Size(HeavyKind)
    requires |SeenByNormal(cfg, got, o.meta.gid) + {o.meta.index}| < cfg.rsData
    ensures DecodeStep(cfg, DecAfter(cfg, got), o.meta, o.payload, now).1 == []
    ensures cfg.HeavyData() + 2 == cfg.rsData
  {
    hide Decoded, SortedSeq, SeenByNormal;
    var m, s := o.meta, DecAfter(cfg, got).rs;
    HeavyTakenForNormalWhen(cfg);
    HeldWereSeen(cfg, got, m.gid);
    RD.StoreSeen(s, m.gid, m.index, o.payload, now);
    SubsetSize(s.Received(m.gid).Keys + {m.index}, SeenByNormal(cfg, got, m.gid) + {m.index});
  }

  // ---------- exactly when recovery is right ----------

  ghost predicate RsWorksAlone(cfg: Config) {
    || cfg.Routed(RsKind)
    || (cfg.rsParity != 1 && cfg.rsParity != 2)
    || (cfg.rsParity == 1 && XorParity(cfg.rsCodec, cfg.rsData))
  }

  predicate HeavyWorksAlone(cfg: Config) {
    || cfg.Routed(HeavyKind)
    || (TakenForXor(cfg, HeavyKind) && cfg.rsParity != 0)
    || (HeavyTakenForNormal(cfg) && cfg.rsParity == 0)
  }

  /** Runs that use XOR alone always recover rightly. */
  lemma XorAlone(cfg: Config)
    requires cfg.LawfulCodes()
    ensures SoundAlone(cfg, XorKind) && InputsAlone(cfg, XorKind)
  {
    RoutedWhen(cfg);
    RoutedIsSound(cfg, XorKind);
    SoundMeansInputs(cfg, XorKind);
  }

  /**
   Runs that use normal Reed-Solomon alone recover rightly if and only if its group size is not that of XOR, or the
   XOR decoder can do nothing with its parity, or the one parity is the exclusive or; it makes no difference whether
   the named packet is asked for or just any payload sent.
   */
  lemma RsAlone(cfg: Config)
    requires cfg.LawfulCodes()
    ensures SoundAlone(cfg, RsKind) <==> RsWorksAlone(cfg)
    ensures InputsAlone(cfg, RsKind) <==> RsWorksAlone(cfg)
  {
    hide SoundAlone, InputsAlone, Lawful;
    if RsWorksAlone(cfg) {
      if cfg.Routed(RsKind) {
        RoutedIsSound(cfg, RsKind);
      } else if cfg.rsParity == 1 {
        XorLikeIsSound(cfg, RsKind);
      } else {
        SilentWithoutTwoOrOne(cfg, RsKind);
      }
      SoundMeansInputs(cfg, RsKind);
    } else {
      var b := if cfg.rsParity == 1 then NotXorWord(cfg.rsCodec, cfg.rsData) else W.Zero(cfg.rsData);
      LeftoverIsNoInput(cfg, RsKind, b);
      if SoundAlone(cfg, RsKind) { SoundMeansInputs(cfg, RsKind); }
    }
  }

  ghost function NotXorWord(c: Codec, k: nat): (d: bytes)
    requires !XorParity(c, k)
    ensures |d| == k && At(c.enc(d), k) != CC.Sum(d)
  {
    var d: bytes :| |d| == k && At(c.enc(d), k) != CC.Sum(d);
    d
  }

  /**
   Runs that use heavy Reed-Solomon alone recover rightly if and only if its group size is its own, or is that of XOR
   and there is normal parity, or is the normal one and there is none. When heavy codewords are normal codewords, the
   bytes recovered are payloads sent under the same condition.
   */
  lemma HeavyAlone(cfg: Config)
    requires cfg.LawfulCodes()
    ensures SoundAlone(cfg, HeavyKind) <==> HeavyWorksAlone(cfg)
    ensures Nested(cfg) || !HeavyTakenForNormal(cfg) ==> (InputsAlone(cfg, HeavyKind) <==> HeavyWorksAlone(cfg))
  {
    hide SoundAlone, InputsAlone, Lawful, Nested;
    if HeavyWorksAlone(cfg) {
      if cfg.Routed(HeavyKind) {
        RoutedIsSound(cfg, HeavyKind);
      } else if TakenForXor(cfg, HeavyKind) {
        SilentWithoutTwoOrOne(cfg, HeavyKind);
      } else {
        SilentWithoutParity(cfg);
      }
      SoundMeansInputs(cfg, HeavyKind);
    } else if TakenForXor(cfg, HeavyKind) {
      LeftoverIsNoInput(cfg, HeavyKind, W.Zero(cfg.HeavyData()));
      if SoundAlone(cfg, HeavyKind) { SoundMeansInputs(cfg, HeavyKind); }
    } else {
      ForeignIsUnsound(cfg);
      if Nested(cfg) { ForeignIsNoInput(cfg); }
    }
  }
}
