/** Runs of the FEC engine that use one code, and what it means that such runs recover rightly. */
module KindRuns {
  import opened Collections
  import opened Bytes
  import opened GroupStream
  import opened RsFec
  import opened FecEngine
  import XF = XorFec

  /** Every packet of the run is encoded with the given kind, or outside FEC. */
  predicate UsesOnly(cfg: Config, s: EncState, es: seq<EncEvent>, kind: Kind) {
    es != [] ==>
      && UsesOnly(cfg, s, es[..|es| - 1], kind)
      && var e := es[|es| - 1];
         e.Encode? ==> KindOf(EffectiveMode(EncRun(cfg, s, es[..|es| - 1]).0.mode, e.tier)) in {None, Some(kind)}
  }

  /** The payloads encoded in a run. */
  function Inputs(es: seq<EncEvent>): seq<bytes> {
    if es == [] then [] else
      Inputs(es[..|es| - 1]) + if es[|es| - 1].Encode? then [es[|es| - 1].payload] else []
  }

  /** What was sent, what arrived before, the packet that arrives now, and something it recovers. */
  datatype Trial = Trial(
    mode: Mode, sent: seq<EncEvent>, got: seq<DecEvent>, o: FecOut, now: real, r: (nat, bytes))

  ghost predicate Occurs(cfg: Config, x: Trial) {
    var outs := EncRun(cfg, EncInit(x.mode), x.sent).1;
    && x.o in outs && (forall ev :: ev in x.got && ev.Decode? ==> ev.out in outs)
    && x.r in DecodeStep(cfg, DecAfter(cfg, x.got), x.o.meta, x.o.payload, x.now).1
  }

  ghost predicate Happens(cfg: Config, kind: Kind, x: Trial) {
    UsesOnly(cfg, EncInit(x.mode), x.sent, kind) && Occurs(cfg, x)
  }

  /** Whatever is sent with this kind alone, every recovery is the padded original it names. */
  ghost predicate SoundAlone(cfg: Config, kind: Kind) {
    forall x: Trial :: Happens(cfg, kind, x) ==>
      PaddedOriginal(EncRun(cfg, EncInit(x.mode), x.sent).0.Stream(kind), x.o.meta.gid, x.r)
  }

  /** Whatever is sent with this kind alone, every recovered payload is a payload sent, padded with zeros. */
  ghost predicate InputsAlone(cfg: Config, kind: Kind) {
    forall x: Trial :: Happens(cfg, kind, x) ==> PaddedInput(Inputs(x.sent), x.r.1)
  }

  // ---------- what a run of one kind puts out ----------

  /** A packet outside FEC, or one of the given kind that its encoder has put out. */
  ghost predicate OfKind(cfg: Config, s: EncState, kind: Kind, o: FecOut) {
    o.meta.groupSize == 0 || (o.meta.groupSize == cfg.Size(kind) && EmittedKind(cfg, s, kind, o))
  }

  lemma {:induction false} RunOfKind(cfg: Config, kind: Kind, mode: Mode, es: seq<EncEvent>)
    requires cfg.xorSize >= 1 && cfg.rsData >= 1 && UsesOnly(cfg, EncInit(mode), es, kind)
    ensures var (t, outs) := EncRun(cfg, EncInit(mode), es);
            t.Valid(cfg) && AllDraw(t, Inputs(es)) && forall o :: o in outs ==> OfKind(cfg, t, kind, o)
  {
    hide EncodeStep, OfKind, AllDraw, EffectiveMode, EncState.Valid;
    if es == [] {
      InitDraws(cfg, mode);
    } else {
      var init, e := es[..|es| - 1], es[|es| - 1];
      RunOfKind(cfg, kind, mode, init);
      var (s, outs) := EncRun(cfg, EncInit(mode), init);
      match e
      case SetMode(m) =>
        assert Inputs(es) == Inputs(init);
        ModeKeepsKind(cfg, kind, s, m, outs, Inputs(init));
      case Encode(payload, tier) =>
        AllDrawStep(cfg, s, payload, tier, Inputs(init));
        StepOfKind(cfg, kind, s, payload, tier, outs);
    }
  }

  lemma InitDraws(cfg: Config, mode: Mode)
    requires cfg.xorSize >= 1 && cfg.rsData >= 1
    ensures EncInit(mode).Valid(cfg) && AllDraw(EncInit(mode), [])
  {
  }

  lemma StepOfKind(cfg: Config, kind: Kind, s: EncState, payload: bytes, tier: Tier, outs: seq<FecOut>)
    requires cfg.xorSize >= 1 && cfg.rsData >= 1 && s.Valid(cfg)
    requires KindOf(EffectiveMode(s.mode, tier)) in {None, Some(kind)}
    requires forall o :: o in outs ==> OfKind(cfg, s, kind, o)
    ensures var (t, more) := EncodeStep(cfg, s, payload, tier);
            t.Valid(cfg) && forall o :: o in outs + more ==> OfKind(cfg, t, kind, o)
  {
    hide EncodeStep, EmittedKind, Later, EffectiveMode;
    StreamsGrow(cfg, s, payload, tier);
    var (t, more) := EncodeStep(cfg, s, payload, tier);
    forall o | o in outs ensures OfKind(cfg, t, kind, o) {
      if o.meta.groupSize != 0 { EmittedKindLater(cfg, s, t, kind, o); }
    }
    forall o | o in more ensures OfKind(cfg, t, kind, o) {
      OutsOfKind(cfg, s, payload, tier, o);
    }
  }

  lemma ModeKeepsKind(cfg: Config, kind: Kind, s: EncState, mode: Mode, outs: seq<FecOut>, inputs: seq<bytes>)
    requires s.Valid(cfg) && AllDraw(s, inputs) && forall o :: o in outs ==> OfKind(cfg, s, kind, o)
    ensures var t := s.(mode := mode);
            t.Valid(cfg) && AllDraw(t, inputs) && forall o :: o in outs ==> OfKind(cfg, t, kind, o)
  {
    forall o | o in outs ensures OfKind(cfg, s.(mode := mode), kind, o) {
      assert OfKind(cfg, s, kind, o);
    }
  }

  /** A sound recovery is a padded input. */
  lemma SoundMeansInputs(cfg: Config, kind: Kind)
    requires cfg.xorSize >= 1 && cfg.rsData >= 1 && SoundAlone(cfg, kind)
    ensures InputsAlone(cfg, kind)
  {
    hide PaddedOriginal, PaddedInput, Inputs, EncRun, AllDraw;
    forall x: Trial | Happens(cfg, kind, x) ensures PaddedInput(Inputs(x.sent), x.r.1) {
      RunOfKind(cfg, kind, x.mode, x.sent);
      var t := EncRun(cfg, EncInit(x.mode), x.sent).0;
      StreamsDraw(t, kind, Inputs(x.sent));
      OriginalIsInput(t.Stream(kind), Inputs(x.sent), x.o.meta.gid, x.r);
    }
  }

  lemma StreamsDraw(s: EncState, kind: Kind, inputs: seq<bytes>)
    requires AllDraw(s, inputs)
    ensures Draws(s.Stream(kind), inputs)
  {
  }

  /** A kind that is routed to its own decoder recovers rightly. */
  lemma RoutedIsSound(cfg: Config, kind: Kind)
    requires cfg.LawfulCodes() && cfg.Routed(kind)
    ensures SoundAlone(cfg, kind)
  {
    forall x: Trial | Happens(cfg, kind, x)
      ensures PaddedOriginal(EncRun(cfg, EncInit(x.mode), x.sent).0.Stream(kind), x.o.meta.gid, x.r)
    {
      OnlyKindIsOwn(cfg, kind, EncInit(x.mode), x.sent);
      RunOfKind(cfg, kind, x.mode, x.sent);
      EngineIsSound(cfg, kind, x.mode, x.sent, x.got, x.o, x.now, x.r);
    }
  }

  lemma {:induction false} OnlyKindIsOwn(cfg: Config, kind: Kind, s: EncState, es: seq<EncEvent>)
    requires UsesOnly(cfg, s, es, kind)
    ensures OwnRun(cfg, s, es, kind)
  {
    if es != [] { OnlyKindIsOwn(cfg, kind, s, es[..|es| - 1]); }
  }

  // ---------- one group from a fresh encoder ----------

  /** The numbers of data and parity packets of a Reed-Solomon kind, and its code. */
  function DataOf(cfg: Config, kind: Kind): nat {
    match kind
    case XorKind => cfg.xorSize
    case RsKind => cfg.rsData
    case HeavyKind => cfg.HeavyData()
  }

  function ParityOf(cfg: Config, kind: Kind): nat {
    match kind
    case XorKind => 1
    case RsKind => cfg.rsParity
    case HeavyKind => cfg.HeavyParity()
  }

  function CodecOf(cfg: Config, kind: Kind): Codec
    requires kind != XorKind
  {
    if kind == RsKind then cfg.rsCodec else cfg.heavyCodec
  }

  function ModeOf(kind: Kind): Mode {
    match kind
    case XorKind => Xor
    case RsKind => ReedSolomon
    case HeavyKind => ReedSolomonHeavy
  }

  function Encodes(payloads: seq<bytes>): seq<EncEvent> {
    if payloads == [] then [] else
      Encodes(payloads[..|payloads| - 1]) + [Encode(payloads[|payloads| - 1], Bulk)]
  }

  /** Shard i of group 0, as the engine puts it out. */
  function ShardOut(cfg: Config, kind: Kind, group: seq<bytes>, i: nat): FecOut
    requires kind != XorKind
  {
    FecOut(Shard(CodecOf(cfg, kind), group, i), Meta(0, i, cfg.Size(kind), i >= DataOf(cfg, kind), false))
  }

  lemma {:induction false} InputsOfEncodes(payloads: seq<bytes>)
    ensures Inputs(Encodes(payloads)) == payloads
  {
    if payloads != [] {
      var n := |payloads| - 1;
      InputsOfEncodes(payloads[..n]);
      var es := Encodes(payloads);
      assert es[..|es| - 1] == Encodes(payloads[..n]) && es[|es| - 1].payload == payloads[n];
      assert payloads == payloads[..n] + [payloads[n]];
    }
  }

  /** The parity payloads of a complete group. */
  function ParitySeq(cfg: Config, kind: Kind, group: seq<bytes>): (r: seq<bytes>)
    ensures |r| == ParityOf(cfg, kind)
  {
    if kind == XorKind then [XF.XorSeq(group)] else ParityBlocks(CodecOf(cfg, kind), ParityOf(cfg, kind), group)
  }

  /** Packet i of group 0, as the engine puts it out. */
  function PacketOut(cfg: Config, kind: Kind, group: seq<bytes>, i: nat): FecOut
    requires i < |group| + ParityOf(cfg, kind)
  {
    FecOut(if i < |group| then group[i] else ParitySeq(cfg, kind, group)[i - |group|],
           Meta(0, i, cfg.Size(kind), i >= DataOf(cfg, kind), false))
  }

  lemma EncodeStepOf(cfg: Config, kind: Kind, s: EncState, payload: bytes)
    requires s.mode == ModeOf(kind)
    ensures var (t, outs) := EncodeStep(cfg, s, payload, Bulk);
            var st := s.Stream(kind);
            && t.mode == s.mode && t.Stream(kind) == st.Feed(DataOf(cfg, kind), payload)
            && outs == GroupOuts(st, DataOf(cfg, kind), payload, ParitySeq(cfg, kind, st.current + [payload]),
                                 cfg.Size(kind))
  {
  }

  /** The state is in the mode of this kind and has encoded nothing with it. */
  predicate Starts(s: EncState, kind: Kind) {
    s.mode == ModeOf(kind) && s.Stream(kind) == EMPTY
  }

  lemma EncodesMore(payloads: seq<bytes>, payload: bytes)
    ensures Encodes(payloads + [payload]) == Encodes(payloads) + [Encode(payload, Bulk)]
  {
    assert (payloads + [payload])[..|payloads|] == payloads;
  }

  lemma RunMore(cfg: Config, s: EncState, es: seq<EncEvent>, e: EncEvent)
    ensures var (t, outs) := EncRun(cfg, s, es);
            EncRun(cfg, s, es + [e]) == match e
                                        case SetMode(mode) => (t.(mode := mode), outs)
                                        case Encode(payload, tier) =>
                                          (EncodeStep(cfg, t, payload, tier).0,
                                           outs + EncodeStep(cfg, t, payload, tier).1)
  {
    hide EncodeStep;
    assert (es + [e])[..|es|] == es;
  }

  lemma OneMore(cfg: Config, kind: Kind, s0: EncState, payloads: seq<bytes>, payload: bytes)
    requires EncRun(cfg, s0, Encodes(payloads)).0.mode == ModeOf(kind)
    ensures var (s, outs) := EncRun(cfg, s0, Encodes(payloads));
            var (t, outs') := EncRun(cfg, s0, Encodes(payloads + [payload]));
            var st := s.Stream(kind);
            && t.mode == s.mode && t.Stream(kind) == st.Feed(DataOf(cfg, kind), payload)
            && outs' == outs + GroupOuts(st, DataOf(cfg, kind), payload,
                                         ParitySeq(cfg, kind, st.current + [payload]), cfg.Size(kind))
  {
    hide EncodeStep, EncRun, ParitySeq, GroupOuts, Encodes;
    EncodesMore(payloads, payload);
    RunMore(cfg, s0, Encodes(payloads), Encode(payload, Bulk));
    EncodeStepOf(cfg, kind, EncRun(cfg, s0, Encodes(payloads)).0, payload);
  }

  lemma NothingEncoded(cfg: Config, s0: EncState)
    ensures EncRun(cfg, s0, Encodes([])) == (s0, [])
  {
  }

  /** While the group is incomplete, its data packets are out, in order. */
  lemma {:induction false} PartOfGroup(cfg: Config, kind: Kind, s0: EncState, group: seq<bytes>, n: nat)
    requires Starts(s0, kind) && |group| == DataOf(cfg, kind) && n < |group|
    ensures var (s, outs) := EncRun(cfg, s0, Encodes(group[..n]));
            && s.mode == ModeOf(kind) && s.Stream(kind) == Stream([], group[..n])
            && |outs| == n && forall i :: 0 <= i < n ==> outs[i] == PacketOut(cfg, kind, group, i)
  {
    hide EncRun, ParitySeq, Encodes;
    if n == 0 {
      NothingEncoded(cfg, s0);
      assert group[..0] == [];
    } else {
      PartOfGroup(cfg, kind, s0, group, n - 1);
      OneMore(cfg, kind, s0, group[..n - 1], group[n - 1]);
      assert group[..n - 1] + [group[n - 1]] == group[..n];
    }
  }

  /** After the whole group its packets are out, in order, and nothing else. */
  lemma WholeGroupFrom(cfg: Config, kind: Kind, s0: EncState, group: seq<bytes>, i: nat)
    requires Starts(s0, kind) && |group| == DataOf(cfg, kind) >= 1 && i < |group| + ParityOf(cfg, kind)
    ensures var (s, outs) := EncRun(cfg, s0, Encodes(group));
            && s.Stream(kind) == Stream([group], [])
            && |outs| == |group| + ParityOf(cfg, kind) && outs[i] == PacketOut(cfg, kind, group, i)
  {
    hide EncRun, ParitySeq, Encodes;
    var n := |group| - 1;
    PartOfGroup(cfg, kind, s0, group, n);
    OneMore(cfg, kind, s0, group[..n], group[n]);
    assert group[..n] + [group[n]] == group;
    if i > n {
      assert ParityOuts(ParitySeq(cfg, kind, group), 0, |group|, cfg.Size(kind))[i - |group|]
             == PacketOut(cfg, kind, group, i);
    }
  }

  // ---------- runs that encode one group of one kind ----------

  /** The run that encodes these payloads. */
  function GroupRun(cfg: Config, kind: Kind, payloads: seq<bytes>): (EncState, seq<FecOut>) {
    EncRun(cfg, EncInit(ModeOf(kind)), Encodes(payloads))
  }

  lemma {:induction false} StaysInKind(cfg: Config, kind: Kind, payloads: seq<bytes>)
    ensures UsesOnly(cfg, EncInit(ModeOf(kind)), Encodes(payloads), kind)
    ensures GroupRun(cfg, kind, payloads).0.mode == ModeOf(kind)
  {
    hide EncodeStep;
    if payloads != [] {
      var n := |payloads| - 1;
      StaysInKind(cfg, kind, payloads[..n]);
      var es := Encodes(payloads);
      assert es[..|es| - 1] == Encodes(payloads[..n]);
      EncodeStepOf(cfg, kind, GroupRun(cfg, kind, payloads[..n]).0, payloads[n]);
    }
  }

  lemma DataShardOut(cfg: Config, kind: Kind, group: seq<bytes>, i: nat)
    requires kind != XorKind && i < |group| == DataOf(cfg, kind)
    ensures ShardOut(cfg, kind, group, i) == FecOut(group[i], Meta(0, i, cfg.Size(kind), false, false))
  {
  }

  /** After the whole group all its shards are out. */
  lemma WholeGroup(cfg: Config, kind: Kind, group: seq<bytes>, i: nat)
    requires kind != XorKind && |group| == DataOf(cfg, kind) >= 1 && i < |group| + ParityOf(cfg, kind)
    ensures var (s, outs) := GroupRun(cfg, kind, group);
            s.Stream(kind) == Stream([group], []) && ShardOut(cfg, kind, group, i) in outs
  {
    hide EncRun, ParityBlock, CodecOf, Encodes;
    WholeGroupFrom(cfg, kind, EncInit(ModeOf(kind)), group, i);
    if i >= |group| { ParityBlocksAt(CodecOf(cfg, kind), ParityOf(cfg, kind), group, i - |group|); }
  }
}
