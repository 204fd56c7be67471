/** The FEC engine: encoders chosen by mode and traffic tier, decoders by nothing but the group size in the header. */
module FecEngine {
  import opened Collections
  import opened Bytes
  import opened GroupStream
  import opened RsFec
  import XF = XorFec
  import XD = XorDecoder
  import RD = RsDecoder

  datatype Mode = NoFec | Xor | ReedSolomon | ReedSolomonHeavy | Replicate | UnknownMode

  datatype Tier = Realtime | Streaming | Bulk

  /** Which of the three codes. */
  datatype Kind = XorKind | RsKind | HeavyKind

  datatype Config = Config(
    xorSize: nat, rsData: nat, rsParity: nat, rsCodec: Codec, heavyCodec: Codec, timeoutMs: real)
  {
    function HeavyData(): nat {
      if rsData - 2 > 4 then rsData - 2 else 4
    }

    function HeavyParity(): nat {
      rsParity + 2
    }

    /** The group size written into the headers of a kind: data plus parity. */
    function Size(kind: Kind): nat {
      match kind
      case XorKind => xorSize + 1
      case RsKind => rsData + rsParity
      case HeavyKind => HeavyData() + HeavyParity()
    }

    /** The decoder that a header's group size selects. */
    function Dispatch(groupSize: nat): Option<Kind> {
      if groupSize == 0 then None
      else if groupSize == xorSize + 1 then Some(XorKind)
      else if groupSize == rsData + rsParity then Some(RsKind)
      else if groupSize == HeavyData() + HeavyParity() then Some(HeavyKind)
      else None
    }

    /** Packets of this kind reach the decoder of this kind. */
    predicate Routed(kind: Kind) {
      Dispatch(Size(kind)) == Some(kind)
    }

    ghost predicate Valid() {
      && xorSize >= 1 && rsData >= 1
      && Systematic(rsCodec, rsData, rsParity)
      && Systematic(heavyCodec, HeavyData(), HeavyParity())
    }

    /** The sizes are positive, and the column code of this kind, if it has one, meets the law. */
    ghost predicate LawfulCode(kind: Kind) {
      && xorSize >= 1 && rsData >= 1
      && match kind
         case XorKind => true
         case RsKind => Lawful(rsCodec, rsData, rsParity)
         case HeavyKind => Lawful(heavyCodec, HeavyData(), HeavyParity())
    }

    ghost predicate LawfulCodes() {
      LawfulCode(RsKind) && LawfulCode(HeavyKind)
    }
  }

  /** Exactly when each kind's packets find their own decoder. */
  lemma RoutedWhen(cfg: Config)
    requires cfg.xorSize >= 1 && cfg.rsData >= 1
    ensures cfg.Routed(XorKind)
    ensures cfg.Routed(RsKind) <==> cfg.rsData + cfg.rsParity != cfg.xorSize + 1
    ensures cfg.Routed(HeavyKind) <==> cfg.rsData < 6 && cfg.rsParity + 6 != cfg.xorSize + 1
    ensures cfg.rsData + cfg.rsParity == cfg.HeavyData() + cfg.HeavyParity() <==> cfg.rsData >= 6
  {
  }

  // ---------- encoding ----------

  datatype Meta = Meta(gid: nat, index: nat, groupSize: nat, isParity: bool, replicate: bool)

  datatype FecOut = FecOut(payload: bytes, meta: Meta)

  datatype EncState = EncState(mode: Mode, xor: Stream, rs: Stream, heavy: Stream) {
    function Stream(kind: Kind): Stream {
      match kind
      case XorKind => xor
      case RsKind => rs
      case HeavyKind => heavy
    }

    ghost predicate Valid(cfg: Config) {
      xor.Valid(cfg.xorSize) && rs.Valid(cfg.rsData) && heavy.Valid(cfg.HeavyData())
    }
  }

  /** The tier overrides the mode: realtime is always replicated, streaming never uses XOR. */
  function EffectiveMode(mode: Mode, tier: Tier): Mode {
    if tier == Realtime then Replicate
    else if tier == Streaming && mode == Xor then ReedSolomon
    else mode
  }

  function KindOf(mode: Mode): Option<Kind> {
    match mode
    case Xor => Some(XorKind)
    case ReedSolomon => Some(RsKind)
    case ReedSolomonHeavy => Some(HeavyKind)
    case _ => None
  }

  /** Parity packets of one group, numbered after its data packets. */
  function ParityOuts(parity: seq<bytes>, gid: nat, first: nat, groupSize: nat): (r: seq<FecOut>)
    ensures |r| == |parity|
    ensures forall j :: 0 <= j < |r| ==> r[j] == FecOut(parity[j], Meta(gid, first + j, groupSize, true, false))
  {
    if parity == [] then [] else
      var n := |parity| - 1;
      ParityOuts(parity[..n], gid, first, groupSize) + [FecOut(parity[n], Meta(gid, first + n, groupSize, true, false))]
  }

  /** The packets a group emits on its newest payload: the payload, and the parity if it completes the group. */
  function GroupOuts(st: Stream, n: nat, payload: bytes, parity: seq<bytes>, groupSize: nat): seq<FecOut> {
    var gid, index := |st.done|, |st.current|;
    [FecOut(payload, Meta(gid, index, groupSize, false, false))]
    + if index + 1 == n then ParityOuts(parity, gid, n, groupSize) else []
  }

  function EncodeStep(cfg: Config, s: EncState, payload: bytes, tier: Tier): (EncState, seq<FecOut>) {
    match EffectiveMode(s.mode, tier)
    case Xor =>
      var group := s.xor.current + [payload];
      (s.(xor := s.xor.Feed(cfg.xorSize, payload)),
       GroupOuts(s.xor, cfg.xorSize, payload, [XF.XorSeq(group)], cfg.Size(XorKind)))
    case ReedSolomon =>
      var group := s.rs.current + [payload];
      (s.(rs := s.rs.Feed(cfg.rsData, payload)),
       GroupOuts(s.rs, cfg.rsData, payload, ParityBlocks(cfg.rsCodec, cfg.rsParity, group), cfg.Size(RsKind)))
    case ReedSolomonHeavy =>
      var group := s.heavy.current + [payload];
      (s.(heavy := s.heavy.Feed(cfg.HeavyData(), payload)),
       GroupOuts(s.heavy, cfg.HeavyData(), payload,
                 ParityBlocks(cfg.heavyCodec, cfg.HeavyParity(), group), cfg.Size(HeavyKind)))
    case Replicate => (s, [FecOut(payload, Meta(0, 0, 0, false, true))])
    case _ => (s, [FecOut(payload, Meta(0, 0, 0, false, false))])
  }

  lemma EncodeStepXor(cfg: Config, s: EncState, payload: bytes, tier: Tier)
    requires EffectiveMode(s.mode, tier) == Xor
    ensures EncodeStep(cfg, s, payload, tier).0 == s.(xor := s.xor.Feed(cfg.xorSize, payload))
    ensures EncodeStep(cfg, s, payload, tier).1
            == GroupOuts(s.xor, cfg.xorSize, payload, [XF.XorSeq(s.xor.current + [payload])], cfg.Size(XorKind))
  {
  }

  lemma EncodeStepRs(cfg: Config, s: EncState, payload: bytes, tier: Tier)
    requires EffectiveMode(s.mode, tier) == ReedSolomon
    ensures EncodeStep(cfg, s, payload, tier).0 == s.(rs := s.rs.Feed(cfg.rsData, payload))
    ensures EncodeStep(cfg, s, payload, tier).1
            == GroupOuts(s.rs, cfg.rsData, payload,
                         ParityBlocks(cfg.rsCodec, cfg.rsParity, s.rs.current + [payload]), cfg.Size(RsKind))
  {
  }

  lemma EncodeStepHeavy(cfg: Config, s: EncState, payload: bytes, tier: Tier)
    requires EffectiveMode(s.mode, tier) == ReedSolomonHeavy
    ensures EncodeStep(cfg, s, payload, tier).0 == s.(heavy := s.heavy.Feed(cfg.HeavyData(), payload))
    ensures EncodeStep(cfg, s, payload, tier).1
            == GroupOuts(s.heavy, cfg.HeavyData(), payload,
                         ParityBlocks(cfg.heavyCodec, cfg.HeavyParity(), s.heavy.current + [payload]),
                         cfg.Size(HeavyKind))
  {
  }

  lemma EncodeStepPlain(cfg: Config, s: EncState, payload: bytes, tier: Tier)
    requires KindOf(EffectiveMode(s.mode, tier)).None?
    ensures EncodeStep(cfg, s, payload, tier).0 == s
    ensures EncodeStep(cfg, s, payload, tier).1
            == [FecOut(payload, Meta(0, 0, 0, false, EffectiveMode(s.mode, tier) == Replicate))]
  {
  }

  /** A packet of the given kind that its encoder has put out. */
  ghost predicate EmittedKind(cfg: Config, s: EncState, kind: Kind, o: FecOut) {
    match kind
    case XorKind => XF.Emitted(cfg.xorSize, s.xor, o.meta.gid, o.meta.index, o.meta.isParity, o.payload)
    case RsKind =>
      && RD.EmittedShard(cfg.rsCodec, cfg.rsData, cfg.rsParity, s.rs, o.meta.gid, o.meta.index, o.payload)
      && (o.meta.isParity <==> o.meta.index >= cfg.rsData)
    case HeavyKind =>
      && RD.EmittedShard(cfg.heavyCodec, cfg.HeavyData(), cfg.HeavyParity(), s.heavy, o.meta.gid, o.meta.index,
                         o.payload)
      && (o.meta.isParity <==> o.meta.index >= cfg.HeavyData())
  }

  /** If the packet goes to the decoder of this kind, it is what that decoder takes it for. */
  ghost predicate EmittedTo(cfg: Config, s: EncState, kind: Kind, o: FecOut) {
    cfg.Dispatch(o.meta.groupSize) == Some(kind) ==> EmittedKind(cfg, s, kind, o)
  }

  /** The packet is encoded with this kind, or does not go to the decoder of this kind. */
  predicate OwnStep(cfg: Config, s: EncState, tier: Tier, kind: Kind) {
    var used := KindOf(EffectiveMode(s.mode, tier));
    used.Some? && used.value != kind ==> cfg.Dispatch(cfg.Size(used.value)) != Some(kind)
  }

  ghost predicate Later(s: EncState, t: EncState) {
    s.xor.ExtendedBy(t.xor) && s.rs.ExtendedBy(t.rs) && s.heavy.ExtendedBy(t.heavy)
  }

  lemma EmittedKindLater(cfg: Config, s: EncState, t: EncState, kind: Kind, o: FecOut)
    requires Later(s, t) && EmittedKind(cfg, s, kind, o)
    ensures EmittedKind(cfg, t, kind, o)
  {
    var m := o.meta;
    match kind
    case XorKind => XF.EmittedLater(cfg.xorSize, s.xor, t.xor, m.gid, m.index, m.isParity, o.payload);
    case RsKind => RD.EmittedShardLater(cfg.rsCodec, cfg.rsData, cfg.rsParity, s.rs, t.rs, m.gid, m.index, o.payload);
    case HeavyKind =>
      RD.EmittedShardLater(cfg.heavyCodec, cfg.HeavyData(), cfg.HeavyParity(), s.heavy, t.heavy, m.gid, m.index,
                           o.payload);
  }

  lemma EmittedToLater(cfg: Config, s: EncState, t: EncState, kind: Kind, o: FecOut)
    requires Later(s, t) && EmittedTo(cfg, s, kind, o)
    ensures EmittedTo(cfg, t, kind, o)
  {
    hide EmittedKind, Later;
    if cfg.Dispatch(o.meta.groupSize) == Some(kind) {
      EmittedKindLater(cfg, s, t, kind, o);
    }
  }

  lemma XorOutsEmitted(cfg: Config, s: EncState, payload: bytes, t: EncState, outs: seq<FecOut>, o: FecOut)
    requires s.Valid(cfg) && cfg.xorSize >= 1
    requires t == s.(xor := s.xor.Feed(cfg.xorSize, payload))
    requires outs == GroupOuts(s.xor, cfg.xorSize, payload, [XF.XorSeq(s.xor.current + [payload])], cfg.Size(XorKind))
    requires o in outs
    ensures o.meta.groupSize == cfg.Size(XorKind) && EmittedKind(cfg, t, XorKind, o)
  {
    FeedExtends(s.xor, cfg.xorSize, payload);
  }

  lemma RsOutsEmitted(c: Codec, k: nat, p: nat, st: Stream, payload: bytes, size: nat, o: FecOut)
    requires st.Valid(k) && k >= 1
    requires o in GroupOuts(st, k, payload, ParityBlocks(c, p, st.current + [payload]), size)
    ensures o.meta.groupSize == size && o.meta.gid == |st.done|
    ensures RD.EmittedShard(c, k, p, st.Feed(k, payload), o.meta.gid, o.meta.index, o.payload)
    ensures o.meta.isParity <==> o.meta.index >= k
  {
    hide ParityBlocks, ParityBlock, ParityOuts;
    FeedExtends(st, k, payload);
    var group := st.current + [payload];
    var parity := ParityBlocks(c, p, group);
    if o.meta.isParity {
      var outs := ParityOuts(parity, |st.done|, k, size);
      var j :| 0 <= j < |outs| && o == outs[j];
      ParityBlocksAt(c, p, group, j);
      assert st.Feed(k, payload).done[|st.done|] == group;
    }
  }

  lemma RsKindEmitted(cfg: Config, s: EncState, payload: bytes, t: EncState, o: FecOut)
    requires s.Valid(cfg) && cfg.rsData >= 1 && t == s.(rs := s.rs.Feed(cfg.rsData, payload))
    requires o in GroupOuts(s.rs, cfg.rsData, payload,
                            ParityBlocks(cfg.rsCodec, cfg.rsParity, s.rs.current + [payload]), cfg.Size(RsKind))
    ensures o.meta.groupSize == cfg.Size(RsKind) && EmittedKind(cfg, t, RsKind, o)
  {
    RsOutsEmitted(cfg.rsCodec, cfg.rsData, cfg.rsParity, s.rs, payload, cfg.Size(RsKind), o);
  }

  lemma HeavyKindEmitted(cfg: Config, s: EncState, payload: bytes, t: EncState, o: FecOut)
    requires s.Valid(cfg) && t == s.(heavy := s.heavy.Feed(cfg.HeavyData(), payload))
    requires o in GroupOuts(s.heavy, cfg.HeavyData(), payload,
                            ParityBlocks(cfg.heavyCodec, cfg.HeavyParity(), s.heavy.current + [payload]),
                            cfg.Size(HeavyKind))
    ensures o.meta.groupSize == cfg.Size(HeavyKind) && EmittedKind(cfg, t, HeavyKind, o)
  {
    RsOutsEmitted(cfg.heavyCodec, cfg.HeavyData(), cfg.HeavyParity(), s.heavy, payload, cfg.Size(HeavyKind), o);
  }

  /** One packet through the encoder: the streams grow, and every output is emitted as what it will be taken for. */
  lemma EncodeStepEmits(cfg: Config, s: EncState, payload: bytes, tier: Tier, kind: Kind)
    requires cfg.xorSize >= 1 && cfg.rsData >= 1 && s.Valid(cfg) && OwnStep(cfg, s, tier, kind)
    ensures var (t, outs) := EncodeStep(cfg, s, payload, tier);
            && t.Valid(cfg) && Later(s, t) && t.mode == s.mode
            && forall o :: o in outs ==> EmittedTo(cfg, t, kind, o)
  {
    hide EncodeStep, EmittedKind, EffectiveMode;
    StreamsGrow(cfg, s, payload, tier);
    forall o | o in EncodeStep(cfg, s, payload, tier).1
      ensures EmittedTo(cfg, EncodeStep(cfg, s, payload, tier).0, kind, o)
    {
      OutsOfKind(cfg, s, payload, tier, o);
    }
  }

  lemma SelfExtends(st: Stream)
    ensures st.ExtendedBy(st)
  {
  }

  lemma StreamsGrow(cfg: Config, s: EncState, payload: bytes, tier: Tier)
    requires cfg.xorSize >= 1 && cfg.rsData >= 1 && s.Valid(cfg)
    ensures var t := EncodeStep(cfg, s, payload, tier).0;
            t.Valid(cfg) && Later(s, t) && t.mode == s.mode
  {
    hide EncodeStep, GroupOuts, ParityBlocks, XF.XorSeq, EffectiveMode;
    SelfExtends(s.xor);
    SelfExtends(s.rs);
    SelfExtends(s.heavy);
    hide Stream.ExtendedBy, Stream.Valid, Stream.Feed;
    match EffectiveMode(s.mode, tier)
    case Xor =>
      EncodeStepXor(cfg, s, payload, tier);
      FeedExtends(s.xor, cfg.xorSize, payload);
    case ReedSolomon =>
      EncodeStepRs(cfg, s, payload, tier);
      FeedExtends(s.rs, cfg.rsData, payload);
    case ReedSolomonHeavy =>
      EncodeStepHeavy(cfg, s, payload, tier);
      FeedExtends(s.heavy, cfg.HeavyData(), payload);
    case _ =>
      EncodeStepPlain(cfg, s, payload, tier);
  }

  /** What comes out of one packet belongs to the kind it is encoded with. */
  lemma OutsOfKind(cfg: Config, s: EncState, payload: bytes, tier: Tier, o: FecOut)
    requires cfg.xorSize >= 1 && cfg.rsData >= 1 && s.Valid(cfg)
    requires o in EncodeStep(cfg, s, payload, tier).1
    ensures var kind := KindOf(EffectiveMode(s.mode, tier));
            if kind.None? then o.meta.groupSize == 0
            else o.meta.groupSize == cfg.Size(kind.value)
                 && EmittedKind(cfg, EncodeStep(cfg, s, payload, tier).0, kind.value, o)
  {
    hide GroupOuts, ParityBlocks, XF.XorSeq, EmittedKind;
    var (t, outs) := EncodeStep(cfg, s, payload, tier);
    match EffectiveMode(s.mode, tier)
    case Xor => XorOutsEmitted(cfg, s, payload, t, outs, o);
    case ReedSolomon => RsKindEmitted(cfg, s, payload, t, o);
    case ReedSolomonHeavy => HeavyKindEmitted(cfg, s, payload, t, o);
    case _ =>
  }

  /** Each payload comes out once as data, first; everything after it is parity. */
  lemma OneDataPerPayload(cfg: Config, s: EncState, payload: bytes, tier: Tier)
    ensures var outs := EncodeStep(cfg, s, payload, tier).1;
            && outs != [] && outs[0].payload == payload && !outs[0].meta.isParity
            && forall j :: 1 <= j < |outs| ==> outs[j].meta.isParity
  {
  }

  // ---------- what a tier does ----------

  /** A realtime payload is sent as it is, outside FEC and marked for replication, in every mode and state. */
  lemma RealtimeIsReplicated(cfg: Config, s: EncState, payload: bytes)
    ensures EncodeStep(cfg, s, payload, Realtime) == (s, [FecOut(payload, Meta(0, 0, 0, false, true))])
  {
  }

  /** A streaming payload in mode XOR joins a normal Reed-Solomon group instead. */
  lemma StreamingAvoidsXor(cfg: Config, s: EncState, payload: bytes)
    requires s.mode == Xor
    ensures var (t, outs) := EncodeStep(cfg, s, payload, Streaming);
            && t == s.(rs := s.rs.Feed(cfg.rsData, payload))
            && forall o :: o in outs ==> o.meta.groupSize == cfg.rsData + cfg.rsParity && !o.meta.replicate
  {
    hide ParityBlocks;
  }

  /** Otherwise the mode alone decides: one stream is fed and gives the group size, or none is and there is no group. */
  lemma ModeDecides(cfg: Config, s: EncState, payload: bytes, tier: Tier)
    requires tier == Bulk || (tier == Streaming && s.mode != Xor)
    ensures var (t, outs) := EncodeStep(cfg, s, payload, tier);
            match s.mode
            case Xor =>
              && t == s.(xor := s.xor.Feed(cfg.xorSize, payload))
              && forall o :: o in outs ==> o.meta.groupSize == cfg.xorSize + 1 && !o.meta.replicate
            case ReedSolomon =>
              && t == s.(rs := s.rs.Feed(cfg.rsData, payload))
              && forall o :: o in outs ==> o.meta.groupSize == cfg.rsData + cfg.rsParity && !o.meta.replicate
            case ReedSolomonHeavy =>
              var heavyData := if cfg.rsData > 6 then cfg.rsData - 2 else 4;
              && t == s.(heavy := s.heavy.Feed(heavyData, payload))
              && forall o :: o in outs ==> o.meta.groupSize == heavyData + cfg.rsParity + 2 && !o.meta.replicate
            case Replicate => t == s && outs == [FecOut(payload, Meta(0, 0, 0, false, true))]
            case NoFec => t == s && outs == [FecOut(payload, Meta(0, 0, 0, false, false))]
            case UnknownMode => t == s && outs == [FecOut(payload, Meta(0, 0, 0, false, false))]
  {
    hide ParityBlocks, XF.XorSeq;
  }

  // ---------- where the groups come from ----------

  /** Every payload in a stream is an input. */
  ghost predicate Draws(st: Stream, inputs: seq<bytes>) {
    && (forall g, p :: g in st.done && p in g ==> p in inputs)
    && (forall p :: p in st.current ==> p in inputs)
  }

  ghost predicate AllDraw(e: EncState, inputs: seq<bytes>) {
    Draws(e.xor, inputs) && Draws(e.rs, inputs) && Draws(e.heavy, inputs)
  }

  lemma DrawsFeed(st: Stream, n: nat, payload: bytes, inputs: seq<bytes>)
    requires Draws(st, inputs)
    ensures Draws(st.Feed(n, payload), inputs + [payload])
    ensures Draws(st, inputs + [payload])
  {
  }

  lemma AllDrawStep(cfg: Config, e: EncState, payload: bytes, tier: Tier, inputs: seq<bytes>)
    requires AllDraw(e, inputs)
    ensures AllDraw(EncodeStep(cfg, e, payload, tier).0, inputs + [payload])
  {
    hide GroupOuts, Draws;
    DrawsFeed(e.xor, cfg.xorSize, payload, inputs);
    DrawsFeed(e.rs, cfg.rsData, payload, inputs);
    DrawsFeed(e.heavy, cfg.HeavyData(), payload, inputs);
  }

  lemma OriginalIsInput(st: Stream, inputs: seq<bytes>, gid: nat, r: (nat, bytes))
    requires Draws(st, inputs) && PaddedOriginal(st, gid, r)
    ensures PaddedInput(inputs, r.1)
  {
    var group := st.done[gid];
    assert group in st.done && group[r.0] in group;
    var i :| 0 <= i < |inputs| && inputs[i] == group[r.0];
    assert r.1 == PadTo(inputs[i], MaxLen(group));
  }

  // ---------- decoding ----------

  datatype DecState = DecState(xor: XD.State, rs: RD.State, heavy: RD.State, recoveries: nat)

  const DEC_INIT := DecState(XD.INIT, RD.INIT, RD.INIT, 0)

  ghost function DecodeStep(cfg: Config, s: DecState, m: Meta, payload: bytes, now: real): (DecState, RD.Recoveries) {
    match cfg.Dispatch(m.groupSize)
    case None => (s, [])
    case Some(XorKind) =>
      var (x, r) := XD.ReceiveStep(cfg.xorSize, s.xor, m.gid, m.index, m.isParity, payload, now);
      XorResult(s, x, r)
    case Some(RsKind) =>
      var (x, r) := RD.ReceiveStep(cfg.rsCodec, cfg.rsData, cfg.rsParity, s.rs, m.gid, m.index, payload, now);
      RsResult(s, x, r)
    case Some(HeavyKind) =>
      var (x, r) := RD.ReceiveStep(cfg.heavyCodec, cfg.HeavyData(), cfg.HeavyParity(), s.heavy, m.gid, m.index, payload,
                                   now);
      HeavyResult(s, x, r)
  }

  /** The effect on the engine of a result of the XOR decoder, and of a Reed-Solomon decoder. */
  function XorResult(s: DecState, x: XD.State, r: XD.Recovery): (DecState, RD.Recoveries) {
    var l := if r.Some? then [r.value] else [];
    (s.(xor := x, recoveries := s.recoveries + |l|), l)
  }

  function RsResult(s: DecState, x: RD.State, r: RD.Recoveries): (DecState, RD.Recoveries) {
    (s.(rs := x, recoveries := s.recoveries + |r|), r)
  }

  function HeavyResult(s: DecState, x: RD.State, r: RD.Recoveries): (DecState, RD.Recoveries) {
    (s.(heavy := x, recoveries := s.recoveries + |r|), r)
  }

  lemma DecodeStepXor(cfg: Config, s: DecState, m: Meta, payload: bytes, now: real, x: XD.State, r: XD.Recovery)
    requires cfg.Dispatch(m.groupSize) == Some(XorKind)
    requires (x, r) == XD.ReceiveStep(cfg.xorSize, s.xor, m.gid, m.index, m.isParity, payload, now)
    ensures DecodeStep(cfg, s, m, payload, now).0 == XorResult(s, x, r).0
    ensures DecodeStep(cfg, s, m, payload, now).1 == XorResult(s, x, r).1
  {
    hide XD.ReceiveStep, RD.ReceiveStep;
  }

  lemma DecodeStepRs(cfg: Config, s: DecState, m: Meta, payload: bytes, now: real, x: RD.State, r: RD.Recoveries)
    requires cfg.Dispatch(m.groupSize) == Some(RsKind)
    requires (x, r) == RD.ReceiveStep(cfg.rsCodec, cfg.rsData, cfg.rsParity, s.rs, m.gid, m.index, payload, now)
    ensures DecodeStep(cfg, s, m, payload, now).0 == RsResult(s, x, r).0
    ensures DecodeStep(cfg, s, m, payload, now).1 == RsResult(s, x, r).1
  {
    hide XD.ReceiveStep, RD.ReceiveStep;
  }

  lemma DecodeStepHeavy(cfg: Config, s: DecState, m: Meta, payload: bytes, now: real, x: RD.State, r: RD.Recoveries)
    requires cfg.Dispatch(m.groupSize) == Some(HeavyKind)
    requires (x, r) == RD.ReceiveStep(cfg.heavyCodec, cfg.HeavyData(), cfg.HeavyParity(), s.heavy, m.gid, m.index,
                                      payload, now)
    ensures DecodeStep(cfg, s, m, payload, now).0 == HeavyResult(s, x, r).0
    ensures DecodeStep(cfg, s, m, payload, now).1 == HeavyResult(s, x, r).1
  {
    hide XD.ReceiveStep, RD.ReceiveStep;
  }

  function ExpireStep(cfg: Config, s: DecState, now: real): DecState {
    var cutoff := now - cfg.timeoutMs / 1000.0;
    s.(xor := s.xor.Without(XD.Stale(s.xor, cutoff)),
       rs := s.rs.Without(RD.Stale(s.rs, cutoff)),
       heavy := s.heavy.Without(RD.Stale(s.heavy, cutoff)))
  }

  /** Everything the decoder of this kind holds was put out by the encoder of this kind. */
  ghost predicate Faithful(cfg: Config, kind: Kind, e: EncState, d: DecState) {
    match kind
    case XorKind => XD.Faithful(cfg.xorSize, e.xor, d.xor)
    case RsKind => RD.Faithful(cfg.rsCodec, cfg.rsData, cfg.rsParity, e.rs, d.rs)
    case HeavyKind => RD.Faithful(cfg.heavyCodec, cfg.HeavyData(), cfg.HeavyParity(), e.heavy, d.heavy)
  }

  /** The recovery is the padded original of the group and index it names, in the stream its group size selects. */
  ghost predicate Sound(cfg: Config, e: EncState, m: Meta, r: (nat, bytes)) {
    && cfg.Dispatch(m.groupSize).Some?
    && PaddedOriginal(e.Stream(cfg.Dispatch(m.groupSize).value), m.gid, r)
  }

  lemma DecodeStepSound(cfg: Config, kind: Kind, e: EncState, d: DecState, o: FecOut, now: real)
    requires cfg.LawfulCode(kind) && e.Valid(cfg) && Faithful(cfg, kind, e, d) && EmittedTo(cfg, e, kind, o)
    ensures var (d', rs) := DecodeStep(cfg, d, o.meta, o.payload, now);
            && Faithful(cfg, kind, e, d')
            && (cfg.Dispatch(o.meta.groupSize) == Some(kind) ==> forall r :: r in rs ==> Sound(cfg, e, o.meta, r))
  {
    var m := o.meta;
    if cfg.Dispatch(m.groupSize) == Some(kind) {
      match kind
      case XorKind =>
        XD.SoundStep(cfg.xorSize, e.xor, d.xor, XD.Receive(m.gid, m.index, m.isParity, o.payload, now));
      case RsKind =>
        RD.SoundStep(cfg.rsCodec, cfg.rsData, cfg.rsParity, e.rs, d.rs, RD.Receive(m.gid, m.index, o.payload, now));
      case HeavyKind =>
        RD.SoundStep(cfg.heavyCodec, cfg.HeavyData(), cfg.HeavyParity(), e.heavy, d.heavy,
                     RD.Receive(m.gid, m.index, o.payload, now));
    }
  }

  lemma ExpireStepFaithful(cfg: Config, kind: Kind, e: EncState, d: DecState, now: real)
    requires Faithful(cfg, kind, e, d)
    ensures Faithful(cfg, kind, e, ExpireStep(cfg, d, now))
  {
  }

  // ---------- runs of the sender and the receiver ----------

  datatype EncEvent = SetMode(mode: Mode) | Encode(payload: bytes, tier: Tier)

  function EncInit(mode: Mode): EncState {
    EncState(mode, EMPTY, EMPTY, EMPTY)
  }

  /** State and all outputs after a run of mode changes and packets. */
  function EncRun(cfg: Config, s: EncState, es: seq<EncEvent>): (EncState, seq<FecOut>) {
    if es == [] then (s, []) else
      var (t, outs) := EncRun(cfg, s, es[..|es| - 1]);
      match es[|es| - 1]
      case SetMode(mode) => (t.(mode := mode), outs)
      case Encode(payload, tier) =>
        var (t', more) := EncodeStep(cfg, t, payload, tier);
        (t', outs + more)
  }

  /** No packet of another kind goes to the decoder of this kind. */
  predicate OwnRun(cfg: Config, s: EncState, es: seq<EncEvent>, kind: Kind) {
    es != [] ==>
      && OwnRun(cfg, s, es[..|es| - 1], kind)
      && var e := es[|es| - 1];
         e.Encode? ==> OwnStep(cfg, EncRun(cfg, s, es[..|es| - 1]).0, e.tier, kind)
  }

  lemma {:induction false} EncRunEmits(cfg: Config, mode: Mode, es: seq<EncEvent>, kind: Kind)
    requires cfg.xorSize >= 1 && cfg.rsData >= 1 && OwnRun(cfg, EncInit(mode), es, kind)
    ensures var (t, outs) := EncRun(cfg, EncInit(mode), es);
            t.Valid(cfg) && forall o :: o in outs ==> EmittedTo(cfg, t, kind, o)
  {
    if es != [] {
      hide EncodeStep, OwnStep, Later;
      var init, e := es[..|es| - 1], es[|es| - 1];
      EncRunEmits(cfg, mode, init, kind);
      var (s, outs) := EncRun(cfg, EncInit(mode), init);
      if e.Encode? {
        EncodeStepEmits(cfg, s, e.payload, e.tier, kind);
        var (t, more) := EncodeStep(cfg, s, e.payload, e.tier);
        forall o | o in outs ensures EmittedTo(cfg, t, kind, o) {
          EmittedToLater(cfg, s, t, kind, o);
        }
      } else {
        var t := s.(mode := e.mode);
        forall o | o in outs ensures EmittedTo(cfg, t, kind, o) {
          assert EmittedTo(cfg, s, kind, o);
        }
      }
    }
  }

  datatype DecEvent = Decode(out: FecOut, now: real) | ExpireAll(now: real)

  ghost function DecAfter(cfg: Config, es: seq<DecEvent>): DecState {
    if es == [] then DEC_INIT else
      var d := DecAfter(cfg, es[..|es| - 1]);
      match es[|es| - 1]
      case Decode(o, now) => DecodeStep(cfg, d, o.meta, o.payload, now).0
      case ExpireAll(now) => ExpireStep(cfg, d, now)
  }

  lemma {:induction false} DecAfterFaithful(cfg: Config, kind: Kind, e: EncState, es: seq<DecEvent>)
    requires cfg.LawfulCode(kind) && e.Valid(cfg)
    requires forall ev :: ev in es && ev.Decode? ==> EmittedTo(cfg, e, kind, ev.out)
    ensures Faithful(cfg, kind, e, DecAfter(cfg, es))
  {
    if es != [] {
      hide DecodeStep, Faithful, EmittedTo;
      var d, ev := DecAfter(cfg, es[..|es| - 1]), es[|es| - 1];
      assert forall x :: x in es[..|es| - 1] ==> x in es;
      assert ev in es;
      DecAfterFaithful(cfg, kind, e, es[..|es| - 1]);
      match ev
      case Decode(o, now) => DecodeStepSound(cfg, kind, e, d, o, now);
      case ExpireAll(now) => ExpireStepFaithful(cfg, kind, e, d, now);
    } else {
      NothingHeld(cfg, kind, e);
    }
  }

  lemma NothingHeld(cfg: Config, kind: Kind, e: EncState)
    ensures Faithful(cfg, kind, e, DEC_INIT)
  {
  }

  /**
   Modes and tiers may change between any two packets, and the channel may drop, repeat and reorder: every recovery
   by the decoder of a kind that no other kind reaches is the padded original of the packet it names, whatever the
   other kinds run into.
   */
  lemma EngineIsSound(cfg: Config, kind: Kind, mode: Mode, sent: seq<EncEvent>, got: seq<DecEvent>, o: FecOut,
                      now: real, r: (nat, bytes))
    requires cfg.LawfulCode(kind) && OwnRun(cfg, EncInit(mode), sent, kind)
    requires var outs := EncRun(cfg, EncInit(mode), sent).1;
             o in outs && forall ev :: ev in got && ev.Decode? ==> ev.out in outs
    requires cfg.Dispatch(o.meta.groupSize) == Some(kind)
    requires r in DecodeStep(cfg, DecAfter(cfg, got), o.meta, o.payload, now).1
    ensures Sound(cfg, EncRun(cfg, EncInit(mode), sent).0, o.meta, r)
  {
    hide DecodeStep, EncRun, OwnRun, Faithful, EmittedTo, Sound;
    var e := EncRun(cfg, EncInit(mode), sent).0;
    EncRunEmits(cfg, mode, sent, kind);
    DecAfterFaithful(cfg, kind, e, got);
    DecodeStepSound(cfg, kind, e, DecAfter(cfg, got), o, now);
  }
}
