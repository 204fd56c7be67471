/** The engine object: three encoders and three decoders behind one interface. */
module Engine {
  import opened Collections
  import opened Bytes
  import opened GroupStream
  import opened RsFec
  import opened FecEngine
  import XF = XorFec
  import XD = XorDecoder
  import RD = RsDecoder

  /** The packets of an XOR group, spelled out. */
  lemma XorGroupOuts(st: Stream, n: nat, payload: bytes, parity: bytes, groupSize: nat)
    ensures GroupOuts(st, n, payload, [parity], groupSize)
            == [FecOut(payload, Meta(|st.done|, |st.current|, groupSize, false, false))]
               + if |st.current| + 1 == n then [FecOut(parity, Meta(|st.done|, n, groupSize, true, false))] else []
  {
    assert ParityOuts([parity], |st.done|, n, groupSize)
           == [FecOut(parity, Meta(|st.done|, n, groupSize, true, false))];
  }

  class Engine {
    const cfg: Config
    var currentMode: Mode
    var totalRecoveries: nat
    const xorEncoder: XF.XorFecEncoder
    const rsEncoder: RD.RSFecEncoder
    const rsHeavyEncoder: RD.RSFecEncoder
    const xorDecoder: XD.XorFecDecoder
    const rsDecoder: RD.RSFecDecoder
    const rsHeavyDecoder: RD.RSFecDecoder

    /** The parts are distinct and built for this configuration; all of it is fixed at construction. */
    ghost predicate Wired() {
      && cfg.Valid()
      && rsEncoder != rsHeavyEncoder && rsDecoder != rsHeavyDecoder
      && xorEncoder.groupSize == cfg.xorSize
      && rsEncoder.codec == cfg.rsCodec
      && rsEncoder.dataShards == cfg.rsData && rsEncoder.parityShards == cfg.rsParity
      && rsHeavyEncoder.codec == cfg.heavyCodec
      && rsHeavyEncoder.dataShards == cfg.HeavyData() && rsHeavyEncoder.parityShards == cfg.HeavyParity()
      && xorDecoder.groupSize == cfg.xorSize && xorDecoder.timeoutMs == cfg.timeoutMs
      && rsDecoder.codec == cfg.rsCodec && rsDecoder.timeoutMs == cfg.timeoutMs
      && rsDecoder.dataShards == cfg.rsData && rsDecoder.parityShards == cfg.rsParity
      && rsHeavyDecoder.codec == cfg.heavyCodec && rsHeavyDecoder.timeoutMs == cfg.timeoutMs
      && rsHeavyDecoder.dataShards == cfg.HeavyData() && rsHeavyDecoder.parityShards == cfg.HeavyParity()
    }

    ghost predicate EncodersValid()
      reads xorEncoder, rsEncoder, rsHeavyEncoder
    {
      xorEncoder.Valid() && rsEncoder.Valid() && rsHeavyEncoder.Valid()
    }

    ghost predicate DecodersValid()
      reads rsDecoder, rsHeavyDecoder
    {
      rsDecoder.Valid() && rsHeavyDecoder.Valid()
    }

    ghost function Enc(): EncState
      reads this, xorEncoder, rsEncoder, rsHeavyEncoder
    {
      EncState(currentMode, xorEncoder.stream, rsEncoder.stream, rsHeavyEncoder.stream)
    }

    ghost function Dec(): DecState
      reads this, xorDecoder, rsDecoder, rsHeavyDecoder
    {
      DecState(xorDecoder.Model(), rsDecoder.Model(), rsHeavyDecoder.Model(), totalRecoveries)
    }

    constructor (cfg: Config, mode: Mode)
      requires cfg.Valid()
      ensures Wired() && EncodersValid() && DecodersValid() && this.cfg == cfg
      ensures Enc() == EncInit(mode) && Dec() == DEC_INIT
      ensures fresh(xorEncoder) && fresh(rsEncoder) && fresh(rsHeavyEncoder)
      ensures fresh(xorDecoder) && fresh(rsDecoder) && fresh(rsHeavyDecoder)
    {
      this.cfg := cfg;
      currentMode := mode;
      totalRecoveries := 0;
      xorEncoder := new XF.XorFecEncoder(cfg.xorSize);
      rsEncoder := new RD.RSFecEncoder(cfg.rsCodec, cfg.rsData, cfg.rsParity);
      rsHeavyEncoder := new RD.RSFecEncoder(cfg.heavyCodec, cfg.HeavyData(), cfg.HeavyParity());
      xorDecoder := new XD.XorFecDecoder(cfg.xorSize, cfg.timeoutMs);
      rsDecoder := new RD.RSFecDecoder(cfg.rsCodec, cfg.rsData, cfg.rsParity, cfg.timeoutMs);
      rsHeavyDecoder := new RD.RSFecDecoder(cfg.heavyCodec, cfg.HeavyData(), cfg.HeavyParity(), cfg.timeoutMs);
    }

    /** The traffic tier may override the current mode. */
    method OverrideMode(tier: Tier) returns (mode: Mode)
      ensures mode == EffectiveMode(currentMode, tier)
    {
      mode := currentMode;
      if tier == Realtime {
        mode := Replicate;
      } else if tier == Streaming && mode == Xor {
        mode := ReedSolomon;
      }
    }

    method EncodePacket(payload: bytes, tier: Tier) returns (outs: seq<FecOut>)
      requires Wired() && EncodersValid()
      modifies xorEncoder, rsEncoder, rsHeavyEncoder
      ensures EncodersValid()
      ensures Enc() == EncodeStep(cfg, old(Enc()), payload, tier).0
      ensures outs == EncodeStep(cfg, old(Enc()), payload, tier).1
    {
      hide EncodeStep, GroupOuts, ParityBlocks, XF.XorSeq, Systematic, EffectiveMode, Stream.Valid, Stream.Feed;
      ghost var e := Enc();
      var mode := OverrideMode(tier);
      match mode {
        case Replicate =>
          outs := [FecOut(payload, Meta(0, 0, 0, false, true))];
          EncodeStepPlain(cfg, e, payload, tier);
        case Xor =>
          outs := EncodeXor(payload);
          EncodeStepXor(cfg, e, payload, tier);
          assert Enc() == e.(xor := xorEncoder.stream);
          assert outs == EncodeStep(cfg, e, payload, tier).1;
        case ReedSolomon =>
          outs := EncodeRs(payload, rsEncoder);
          EncodeStepRs(cfg, e, payload, tier);
          assert Enc() == e.(rs := rsEncoder.stream);
          assert outs == EncodeStep(cfg, e, payload, tier).1;
        case ReedSolomonHeavy =>
          outs := EncodeRs(payload, rsHeavyEncoder);
          EncodeStepHeavy(cfg, e, payload, tier);
          assert Enc() == e.(heavy := rsHeavyEncoder.stream);
          assert outs == EncodeStep(cfg, e, payload, tier).1;
        case _ =>
          outs := [FecOut(payload, Meta(0, 0, 0, false, false))];
          EncodeStepPlain(cfg, e, payload, tier);
      }
    }

    method EncodeXor(payload: bytes) returns (outs: seq<FecOut>)
      requires xorEncoder.Valid()
      modifies xorEncoder
      ensures xorEncoder.Valid()
      ensures xorEncoder.stream == old(xorEncoder.stream).Feed(xorEncoder.groupSize, payload)
      ensures outs == GroupOuts(old(xorEncoder.stream), xorEncoder.groupSize, payload,
                                [XF.XorSeq(old(xorEncoder.stream).current + [payload])], xorEncoder.groupSize + 1)
    {
      var n := xorEncoder.groupSize;
      var gid, index, parity := xorEncoder.AddPacket(payload);
      outs := [FecOut(payload, Meta(gid, index, n + 1, false, false))];
      if parity.Some? {
        outs := outs + [FecOut(parity.value, Meta(gid, n, n + 1, true, false))];
      }
      XorGroupOuts(old(xorEncoder.stream), n, payload, XF.XorSeq(old(xorEncoder.stream).current + [payload]), n + 1);
    }

    method EncodeRs(payload: bytes, encoder: RD.RSFecEncoder) returns (outs: seq<FecOut>)
      requires encoder.Valid()
      modifies encoder
      ensures encoder.Valid() && encoder.stream == old(encoder.stream).Feed(encoder.dataShards, payload)
      ensures outs == GroupOuts(old(encoder.stream), encoder.dataShards, payload,
                                ParityBlocks(encoder.codec, encoder.parityShards,
                                             old(encoder.stream).current + [payload]),
                                encoder.dataShards + encoder.parityShards)
    {
      hide ParityBlocks, Systematic;
      var gid, index, parity := encoder.AddPacket(payload);
      var total := encoder.dataShards + encoder.parityShards;
      outs := [FecOut(payload, Meta(gid, index, total, false, false))];
      if parity.Some? {
        var rest := ParityPackets(parity.value, gid, encoder.dataShards, total);
        outs := outs + rest;
      }
    }

    static method ParityPackets(parity: seq<bytes>, gid: nat, first: nat, total: nat) returns (outs: seq<FecOut>)
      ensures outs == ParityOuts(parity, gid, first, total)
    {
      outs := [];
      for j := 0 to |parity|
        invariant outs == ParityOuts(parity[..j], gid, first, total)
      {
        assert parity[..j + 1][..j] == parity[..j];
        outs := outs + [FecOut(parity[j], Meta(gid, first + j, total, true, false))];
      }
      assert parity[..|parity|] == parity;
    }

    method DecodePacket(m: Meta, payload: bytes, now: real) returns (r: RD.Recoveries)
      requires Wired() && DecodersValid()
      modifies this`totalRecoveries, xorDecoder, rsDecoder, rsHeavyDecoder
      ensures DecodersValid()
      ensures Dec() == DecodeStep(cfg, old(Dec()), m, payload, now).0
      ensures r == DecodeStep(cfg, old(Dec()), m, payload, now).1
    {
      hide XD.ReceiveStep, RD.ReceiveStep;
      if m.groupSize == 0 {
        return [];
      }
      if m.groupSize == cfg.xorSize + 1 {
        r := DecodeXor(m, payload, now);
      } else {
        r := DecodeRs(m, payload, now);
      }
    }

    method DecodeXor(m: Meta, payload: bytes, now: real) returns (r: RD.Recoveries)
      requires Wired() && cfg.Dispatch(m.groupSize) == Some(XorKind)
      modifies this`totalRecoveries, xorDecoder
      ensures Dec() == DecodeStep(cfg, old(Dec()), m, payload, now).0
      ensures r == DecodeStep(cfg, old(Dec()), m, payload, now).1
    {
      hide DecodeStep, XD.ReceiveStep;
      ghost var d := Dec();
      var result := xorDecoder.ReceivePacket(m.gid, m.index, m.isParity, payload, now);
      r := if result.Some? then [result.value] else [];
      totalRecoveries := totalRecoveries + |r|;
      DecodeStepXor(cfg, d, m, payload, now, xorDecoder.Model(), result);
      assert r == XorResult(d, xorDecoder.Model(), result).1;
      assert rsDecoder.Model() == d.rs && rsHeavyDecoder.Model() == d.heavy;
      assert Dec() == XorResult(d, xorDecoder.Model(), result).0;
    }

    method DecodeRs(m: Meta, payload: bytes, now: real) returns (r: RD.Recoveries)
      requires Wired() && DecodersValid() && m.groupSize != 0 && m.groupSize != cfg.xorSize + 1
      modifies this`totalRecoveries, rsDecoder, rsHeavyDecoder
      ensures DecodersValid()
      ensures Dec() == DecodeStep(cfg, old(Dec()), m, payload, now).0
      ensures r == DecodeStep(cfg, old(Dec()), m, payload, now).1
    {
      hide XD.ReceiveStep, RD.ReceiveStep;
      if m.groupSize == cfg.rsData + cfg.rsParity {
        r := DecodeNormal(m, payload, now);
      } else if m.groupSize == cfg.HeavyData() + cfg.HeavyParity() {
        r := DecodeHeavy(m, payload, now);
      } else {
        return [];
      }
    }

    method DecodeNormal(m: Meta, payload: bytes, now: real) returns (r: RD.Recoveries)
      requires Wired() && rsDecoder.Valid() && cfg.Dispatch(m.groupSize) == Some(RsKind)
      modifies this`totalRecoveries, rsDecoder
      ensures rsDecoder.Valid()
      ensures Dec() == DecodeStep(cfg, old(Dec()), m, payload, now).0
      ensures r == DecodeStep(cfg, old(Dec()), m, payload, now).1
    {
      hide DecodeStep, RD.ReceiveStep;
      ghost var d := Dec();
      r := rsDecoder.ReceiveShard(m.gid, m.index, payload, now);
      totalRecoveries := totalRecoveries + |r|;
      DecodeStepRs(cfg, d, m, payload, now, rsDecoder.Model(), r);
      assert xorDecoder.Model() == d.xor && rsHeavyDecoder.Model() == d.heavy;
      assert Dec() == RsResult(d, rsDecoder.Model(), r).0;
    }

    method DecodeHeavy(m: Meta, payload: bytes, now: real) returns (r: RD.Recoveries)
      requires Wired() && rsHeavyDecoder.Valid() && cfg.Dispatch(m.groupSize) == Some(HeavyKind)
      modifies this`totalRecoveries, rsHeavyDecoder
      ensures rsHeavyDecoder.Valid()
      ensures Dec() == DecodeStep(cfg, old(Dec()), m, payload, now).0
      ensures r == DecodeStep(cfg, old(Dec()), m, payload, now).1
    {
      hide DecodeStep, RD.ReceiveStep;
      ghost var d := Dec();
      r := rsHeavyDecoder.ReceiveShard(m.gid, m.index, payload, now);
      totalRecoveries := totalRecoveries + |r|;
      DecodeStepHeavy(cfg, d, m, payload, now, rsHeavyDecoder.Model(), r);
      assert xorDecoder.Model() == d.xor && rsDecoder.Model() == d.rs;
      assert Dec() == HeavyResult(d, rsHeavyDecoder.Model(), r).0;
    }

    method ExpireGroups(now: real)
      requires Wired() && DecodersValid()
      modifies xorDecoder, rsDecoder, rsHeavyDecoder
      ensures DecodersValid() && Dec() == ExpireStep(cfg, old(Dec()), now)
    {
      hide XD.Stale, RD.Stale;
      var _ := xorDecoder.ExpireGroups(now);
      var _ := rsDecoder.ExpireGroups(now);
      var _ := rsHeavyDecoder.ExpireGroups(now);
    }
  }
}
