/** Runs that mix codes: the configurations that recover only payloads that were sent, whatever modes and tiers. */
module Mixing {
  import opened Collections
  import opened Bytes
  import opened GroupStream
  import opened RsFec
  import opened FecEngine
  import opened KindRuns
  import opened Misrouting
  import XF = XorFec
  import XD = XorDecoder
  import RD = RsDecoder

  /** Whatever is sent, every recovered payload is a payload sent, padded with zeros. */
  ghost predicate InputsMixed(cfg: Config) {
    forall x: Trial :: Occurs(cfg, x) ==> PaddedInput(Inputs(x.sent), x.r.1)
  }

  /** XOR groups and normal groups of one packet with one copy of it each. */
  ghost predicate OnlyCopies(cfg: Config) {
    cfg.xorSize == 1 && cfg.rsData == 1 && cfg.rsParity == 1 && XorParity(cfg.rsCodec, 1)
  }

  /**
   Normal groups are told from XOR groups by their size, or both are mere copies; heavy groups are told from XOR groups;
   and they are told from normal ones, or there is no normal parity.
   */
  ghost predicate TellsApart(cfg: Config) {
    && (cfg.Routed(RsKind) || OnlyCopies(cfg))
    && !TakenForXor(cfg, HeavyKind)
    && (HeavyTakenForNormal(cfg) ==> cfg.rsParity == 0)
  }

  // ---------- when recovery is right ----------

  /** A packet outside FEC, or one of some kind that its encoder has put out. */
  ghost predicate OfSomeKind(cfg: Config, s: EncState, o: FecOut) {
    o.meta.groupSize == 0 || exists kind :: OfKind(cfg, s, kind, o)
  }

  lemma {:induction false} MixedRun(cfg: Config, mode: Mode, es: seq<EncEvent>)
    requires cfg.xorSize >= 1 && cfg.rsData >= 1
    ensures var (t, outs) := EncRun(cfg, EncInit(mode), es);
            t.Valid(cfg) && AllDraw(t, Inputs(es)) && forall o :: o in outs ==> OfSomeKind(cfg, t, o)
  {
    hide EncodeStep, OfKind, AllDraw, EffectiveMode, EncState.Valid;
    if es == [] {
      InitDraws(cfg, mode);
    } else {
      var init, e := es[..|es| - 1], es[|es| - 1];
      MixedRun(cfg, mode, init);
      var (s, outs) := EncRun(cfg, EncInit(mode), init);
      match e
      case SetMode(m) =>
        assert Inputs(es) == Inputs(init);
        ModeKeepsAll(cfg, s, m, outs, Inputs(init));
      case Encode(payload, tier) =>
        AllDrawStep(cfg, s, payload, tier, Inputs(init));
        StepOfSomeKind(cfg, s, payload, tier, outs);
    }
  }

  lemma ModeKeepsAll(cfg: Config, s: EncState, mode: Mode, outs: seq<FecOut>, inputs: seq<bytes>)
    requires s.Valid(cfg) && AllDraw(s, inputs) && forall o :: o in outs ==> OfSomeKind(cfg, s, o)
    ensures var t := s.(mode := mode);
            t.Valid(cfg) && AllDraw(t, inputs) && forall o :: o in outs ==> OfSomeKind(cfg, t, o)
  {
    var t := s.(mode := mode);
    forall o | o in outs ensures OfSomeKind(cfg, t, o) {
      assert OfSomeKind(cfg, s, o);
      if o.meta.groupSize != 0 {
        var kind :| OfKind(cfg, s, kind, o);
        assert OfKind(cfg, t, kind, o);
      }
    }
  }

  lemma StepOfSomeKind(cfg: Config, s: EncState, payload: bytes, tier: Tier, outs: seq<FecOut>)
    requires cfg.xorSize >= 1 && cfg.rsData >= 1 && s.Valid(cfg)
    requires forall o :: o in outs ==> OfSomeKind(cfg, s, o)
    ensures var (t, more) := EncodeStep(cfg, s, payload, tier);
            t.Valid(cfg) && forall o :: o in outs + more ==> OfSomeKind(cfg, t, o)
  {
    hide EncodeStep, EmittedKind, Later, EffectiveMode, EncState.Valid;
    StreamsGrow(cfg, s, payload, tier);
    var (t, more) := EncodeStep(cfg, s, payload, tier);
    forall o | o in outs ensures OfSomeKind(cfg, t, o) {
      if o.meta.groupSize != 0 {
        var kind :| OfKind(cfg, s, kind, o);
        EmittedKindLater(cfg, s, t, kind, o);
        assert OfKind(cfg, t, kind, o);
      }
    }
    forall o | o in more ensures OfSomeKind(cfg, t, o) {
      OutsOfKind(cfg, s, payload, tier, o);
      var kind := KindOf(EffectiveMode(s.mode, tier));
      if kind.Some? { assert OfKind(cfg, t, kind.value, o); }
    }
  }

  /** A decoder that packets of no other kind go to is its kind's alone in every run. */
  lemma {:induction false} AlwaysOwn(cfg: Config, s: EncState, es: seq<EncEvent>, kind: Kind)
    requires forall other :: other != kind ==> cfg.Dispatch(cfg.Size(other)) != Some(kind)
    ensures OwnRun(cfg, s, es, kind)
  {
    if es != [] { AlwaysOwn(cfg, s, es[..|es| - 1], kind); }
  }

  lemma OwnRecoversInputs(cfg: Config, kind: Kind, x: Trial)
    requires cfg.LawfulCode(kind) && Occurs(cfg, x) && cfg.Dispatch(x.o.meta.groupSize) == Some(kind)
    requires forall other :: other != kind ==> cfg.Dispatch(cfg.Size(other)) != Some(kind)
    ensures PaddedInput(Inputs(x.sent), x.r.1)
  {
    hide DecodeStep, EncRun, OwnRun, PaddedOriginal, PaddedInput, AllDraw, DecAfter;
    AlwaysOwn(cfg, EncInit(x.mode), x.sent, kind);
    EngineIsSound(cfg, kind, x.mode, x.sent, x.got, x.o, x.now, x.r);
    MixedRun(cfg, x.mode, x.sent);
    var t := EncRun(cfg, EncInit(x.mode), x.sent).0;
    StreamsDraw(t, kind, Inputs(x.sent));
    OriginalIsInput(t.Stream(kind), Inputs(x.sent), x.o.meta.gid, x.r);
  }

  // Without normal parity the normal decoder never misses anything.

  lemma ShortIndices(cfg: Config, e: EncState, o: FecOut)
    requires HeavyTakenForNormal(cfg) && cfg.rsParity == 0 && !TakenForXor(cfg, HeavyKind)
    requires OfSomeKind(cfg, e, o) && cfg.Dispatch(o.meta.groupSize) == Some(RsKind)
    ensures o.meta.index < cfg.rsData
  {
    var kind :| OfKind(cfg, e, kind, o);
  }

  lemma ShortStep(cfg: Config, e: EncState, d: DecState, o: FecOut, now: real)
    requires HeavyTakenForNormal(cfg) && cfg.rsParity == 0 && !TakenForXor(cfg, HeavyKind)
    requires OfSomeKind(cfg, e, o) && Within(cfg.rsData, d.rs)
    ensures var (d', r) := DecodeStep(cfg, d, o.meta, o.payload, now);
            Within(cfg.rsData, d'.rs) && (cfg.Dispatch(o.meta.groupSize) == Some(RsKind) ==> r == [])
  {
    hide RD.TryRecoverStep, XD.ReceiveStep, OfSomeKind;
    var m := o.meta;
    if cfg.Dispatch(m.groupSize) == Some(RsKind) && m.gid !in d.rs.delivered {
      ShortIndices(cfg, e, o);
      NothingMissing(cfg.rsCodec, cfg.rsData, cfg.rsParity, RD.Store(d.rs, m.gid, m.index, o.payload, now), m.gid);
    }
  }

  lemma {:induction false} ShortRun(cfg: Config, e: EncState, got: seq<DecEvent>)
    requires HeavyTakenForNormal(cfg) && cfg.rsParity == 0 && !TakenForXor(cfg, HeavyKind)
    requires forall ev :: ev in got && ev.Decode? ==> OfSomeKind(cfg, e, ev.out)
    ensures Within(cfg.rsData, DecAfter(cfg, got).rs)
  {
    if got != [] {
      hide DecodeStep, OfSomeKind;
      var n := |got| - 1;
      assert forall ev :: ev in got[..n] ==> ev in got;
      ShortRun(cfg, e, got[..n]);
      assert got[n] in got;
      if got[n].Decode? { ShortStep(cfg, e, DecAfter(cfg, got[..n]), got[n].out, got[n].now); }
    }
  }

  lemma ShortNeverRecovers(cfg: Config, x: Trial)
    requires cfg.xorSize >= 1 && cfg.rsData >= 1
    requires HeavyTakenForNormal(cfg) && cfg.rsParity == 0 && !TakenForXor(cfg, HeavyKind)
    requires cfg.Dispatch(x.o.meta.groupSize) == Some(RsKind)
    ensures !Occurs(cfg, x)
  {
    hide DecodeStep, OfSomeKind, EncRun;
    if Occurs(cfg, x) {
      MixedRun(cfg, x.mode, x.sent);
      var e := EncRun(cfg, EncInit(x.mode), x.sent).0;
      ShortRun(cfg, e, x.got);
      ShortStep(cfg, e, DecAfter(cfg, x.got), x.o, x.now);
    }
  }

  // Copies of single packets stay copies.

  /** Data packets have index 0, and every parity is a payload sent. */
  ghost predicate HoldsCopies(inputs: seq<bytes>, s: XD.State) {
    && (forall gid, i :: gid in s.groups && i in s.groups[gid] ==> i == 0)
    && (forall gid :: gid in s.parities ==> PaddedInput(inputs, s.parities[gid]))
  }

  lemma OneIsItsXor(x: bytes)
    ensures XF.XorSeq([x]) == x
  {
    assert [x][..0] == [];
    XorBytesUnit(x);
  }

  lemma InputIsPadded(inputs: seq<bytes>, x: bytes)
    requires x in inputs
    ensures PaddedInput(inputs, x)
  {
    var i :| 0 <= i < |inputs| && inputs[i] == x;
    assert x == PadTo(inputs[i], 0);
  }

  lemma CopyPacket(cfg: Config, e: EncState, inputs: seq<bytes>, o: FecOut)
    requires OnlyCopies(cfg) && e.Valid(cfg) && AllDraw(e, inputs)
    requires OfSomeKind(cfg, e, o) && cfg.Dispatch(o.meta.groupSize) == Some(XorKind)
    ensures o.meta.isParity ==> PaddedInput(inputs, o.payload)
    ensures !o.meta.isParity ==> o.meta.index == 0
  {
    hide PaddedInput, ParityBlock, XF.XorSeq, XorParity;
    var kind :| OfKind(cfg, e, kind, o);
    var st := e.Stream(kind);
    if o.meta.isParity {
      var group := st.done[o.meta.gid];
      assert group in st.done && |group| == 1 && group[0] in group;
      assert group == [group[0]];
      OneIsItsXor(group[0]);
      if kind == RsKind { XorParityBlock(cfg.rsCodec, group); }
      InputIsPadded(inputs, group[0]);
    }
  }

  lemma CopyRecovered(s: XD.State, gid: nat, inputs: seq<bytes>)
    requires HoldsCopies(inputs, s)
    ensures var (t, r) := XD.TryRecoverStep(1, s, gid);
            HoldsCopies(inputs, t) && (r.Some? ==> PaddedInput(inputs, r.value.1))
  {
    hide PaddedInput, XorBytes;
    if s.Recoverable(1, gid) {
      var received := s.Received(gid);
      var missing := XF.Missing(1, received.Keys);
      var m := MinOf(missing);
      assert m == 0 && 0 !in received;
      assert received.Keys - {m} == {};
      XorBytesUnit(s.parities[gid]);
    }
  }

  lemma CopyStep(cfg: Config, e: EncState, inputs: seq<bytes>, d: DecState, o: FecOut, now: real)
    requires OnlyCopies(cfg) && e.Valid(cfg) && AllDraw(e, inputs)
    requires OfSomeKind(cfg, e, o) && HoldsCopies(inputs, d.xor)
    ensures var (d', rs) := DecodeStep(cfg, d, o.meta, o.payload, now);
            && HoldsCopies(inputs, d'.xor)
            && (cfg.Dispatch(o.meta.groupSize) == Some(XorKind) ==> forall r :: r in rs ==> PaddedInput(inputs, r.1))
  {
    hide PaddedInput, XD.TryRecoverStep, RD.ReceiveStep, OfSomeKind, AllDraw, EncState.Valid;
    var m := o.meta;
    if cfg.Dispatch(m.groupSize) == Some(XorKind) && m.gid !in d.xor.delivered {
      CopyPacket(cfg, e, inputs, o);
      var s := XD.Store(d.xor, m.gid, m.index, m.isParity, o.payload, now);
      assert HoldsCopies(inputs, s);
      CopyRecovered(s, m.gid, inputs);
    }
  }

  lemma {:induction false} CopyRun(cfg: Config, e: EncState, inputs: seq<bytes>, got: seq<DecEvent>)
    requires OnlyCopies(cfg) && e.Valid(cfg) && AllDraw(e, inputs)
    requires forall ev :: ev in got && ev.Decode? ==> OfSomeKind(cfg, e, ev.out)
    ensures HoldsCopies(inputs, DecAfter(cfg, got).xor)
  {
    hide DecodeStep, ExpireStep, OfSomeKind, HoldsCopies, OnlyCopies, EncState.Valid, AllDraw;
    if got != [] {
      var n := |got| - 1;
      assert forall ev :: ev in got[..n] ==> ev in got;
      CopyRun(cfg, e, inputs, got[..n]);
      assert got[n] in got;
      match got[n]
      case Decode(o, now) => CopyStep(cfg, e, inputs, DecAfter(cfg, got[..n]), o, now);
      case ExpireAll(now) => ExpiryKeepsCopies(cfg, inputs, DecAfter(cfg, got[..n]), now);
    } else {
      NoCopiesYet(inputs);
    }
  }

  lemma ExpiryKeepsCopies(cfg: Config, inputs: seq<bytes>, d: DecState, now: real)
    requires HoldsCopies(inputs, d.xor)
    ensures HoldsCopies(inputs, ExpireStep(cfg, d, now).xor)
  {
    hide PaddedInput;
  }

  lemma NoCopiesYet(inputs: seq<bytes>)
    ensures HoldsCopies(inputs, DEC_INIT.xor)
  {
  }

  lemma CopiesAreInputs(cfg: Config, x: Trial)
    requires OnlyCopies(cfg) && Occurs(cfg, x) && cfg.Dispatch(x.o.meta.groupSize) == Some(XorKind)
    ensures PaddedInput(Inputs(x.sent), x.r.1)
  {
    hide DecodeStep, OfSomeKind, EncRun, PaddedInput, HoldsCopies, AllDraw, EncState.Valid;
    MixedRun(cfg, x.mode, x.sent);
    var e := EncRun(cfg, EncInit(x.mode), x.sent).0;
    CopyRun(cfg, e, Inputs(x.sent), x.got);
    CopyStep(cfg, e, Inputs(x.sent), DecAfter(cfg, x.got), x.o, x.now);
  }

  lemma SomethingDispatches(cfg: Config, x: Trial)
    requires Occurs(cfg, x)
    ensures cfg.Dispatch(x.o.meta.groupSize).Some?
  {
    hide DecAfter, EncRun;
  }

  lemma TellingApartSuffices(cfg: Config)
    requires cfg.LawfulCodes() && TellsApart(cfg)
    ensures InputsMixed(cfg)
  {
    hide Occurs, PaddedInput, Lawful, XorParity;
    forall x: Trial | Occurs(cfg, x) ensures PaddedInput(Inputs(x.sent), x.r.1) {
      SomethingDispatches(cfg, x);
      var kind := cfg.Dispatch(x.o.meta.groupSize).value;
      if kind == XorKind && OnlyCopies(cfg) {
        CopiesAreInputs(cfg, x);
      } else if kind == RsKind && HeavyTakenForNormal(cfg) {
        ShortNeverRecovers(cfg, x);
      } else {
        OwnRecoversInputs(cfg, kind, x);
      }
    }
  }
}
