/** What each decoder of the server sees of a run: the packets that reach it, and the expiries. */
module DecoderShares {
  import opened Collections
  import opened Bytes
  import opened Packet
  import opened FecEngine
  import opened KindRuns
  import opened Server
  import opened EndToEnd
  import RB = ReorderBuffer
  import XD = XorDecoder
  import RD = RsDecoder

  datatype Share =
    | Got(gid: nat, index: nat, isParity: bool, payload: bytes, now: real)
    | Expired(cutoff: real)

  /** A packet that gets as far as deduplication. */
  function PacketOf(e: Event): Option<Packet> {
    if e.Datagram? && !Ignored(e.data) then Some(Deserialize(e.data).value) else None
  }

  /** What an event of the server is to the decoder of this kind. */
  ghost function ShareOf(cfg: Config, kind: Kind, s: State, e: Event): seq<Share> {
    if e.Tick? then [Expired(e.now - cfg.timeoutMs / 1000.0)]
    else if PacketOf(e).None? then []
    else
      var p := PacketOf(e).value;
      if s.reorder.IsDuplicate(p.globalSeq) || cfg.Dispatch(p.groupSize) != Some(kind) then []
      else [Got(p.gid, p.index, p.IsFecParity(), p.payload, e.now)]
  }

  ghost function Shares(cfg: Config, kind: Kind, window: nat, t0: real, es: seq<Event>): seq<Share> {
    if es == [] then [] else
      var n := |es| - 1;
      Shares(cfg, kind, window, t0, es[..n]) + ShareOf(cfg, kind, After(cfg, window, t0, es[..n]), es[n])
  }

  /** The write of a recovery by the decoder of this kind. */
  ghost predicate WritesRecovery(cfg: Config, kind: Kind, w: seq<Write>, gid: nat, r: (nat, bytes)) {
    exists x :: x in w && x.Recovered? && cfg.Dispatch(x.meta.groupSize) == Some(kind)
                && x.meta.gid == gid && x.index == r.0 && x.payload == r.1
  }

  lemma WrittenInMore(cfg: Config, kind: Kind, a: seq<Write>, b: seq<Write>, gid: nat, r: (nat, bytes))
    ensures WritesRecovery(cfg, kind, a, gid, r) || WritesRecovery(cfg, kind, b, gid, r)
            ==> WritesRecovery(cfg, kind, a + b, gid, r)
  {
    if WritesRecovery(cfg, kind, a, gid, r) {
      var x :| x in a && x.Recovered? && cfg.Dispatch(x.meta.groupSize) == Some(kind)
               && x.meta.gid == gid && x.index == r.0 && x.payload == r.1;
      assert x in a + b;
    }
  }

  /** The writes of a new packet start with what the engine recovers from it. */
  lemma NewPacketWrites(cfg: Config, kind: Kind, window: nat, s: State, p: Packet, now: real, r: (nat, bytes))
    requires cfg.Dispatch(p.groupSize) == Some(kind)
    requires r in DecodeStep(cfg, s.fec, MetaOf(p), p.payload, now).1
    ensures WritesRecovery(cfg, kind, NewPacketStep(cfg, window, s, p, now).1, p.gid, r)
  {
    hide DecodeStep, RB.InsertStep;
    var l := DecodeStep(cfg, s.fec, MetaOf(p), p.payload, now).1;
    var j :| 0 <= j < |l| && l[j] == r;
    var w := RecoveredWrites(MetaOf(p), l);
    assert w[j] == Recovered(MetaOf(p), r.0, r.1) && w[j] in w;
    assert forall x :: x in w ==> x in NewPacketStep(cfg, window, s, p, now).1;
  }

  // ---------- the XOR decoder ----------

  function AsXor(x: Share): XD.Event {
    match x
    case Got(gid, index, isParity, payload, now) => XD.Receive(gid, index, isParity, payload, now)
    case Expired(cutoff) => XD.Expire(cutoff)
  }

  function AllAsXor(xs: seq<Share>): (es: seq<XD.Event>)
    ensures |es| == |xs| && forall i :: 0 <= i < |xs| ==> es[i] == AsXor(xs[i])
  {
    if xs == [] then [] else AllAsXor(xs[..|xs| - 1]) + [AsXor(xs[|xs| - 1])]
  }

  ghost function XorEvents(cfg: Config, window: nat, t0: real, es: seq<Event>): seq<XD.Event> {
    AllAsXor(Shares(cfg, XorKind, window, t0, es))
  }

  /** One step: the decoder runs its share, and what that returns is written. */
  lemma XorStep(cfg: Config, window: nat, s: State, e: Event)
    ensures var (t, w) := Step(cfg, window, s, e);
            var xs := ShareOf(cfg, XorKind, s, e);
            if xs == [] then t.fec.xor == s.fec.xor
            else
              var (x, r) := XD.Step(cfg.xorSize, s.fec.xor, AsXor(xs[0]));
              && |xs| == 1 && t.fec.xor == x
              && (r.Some? ==> xs[0].Got? && WritesRecovery(cfg, XorKind, w, xs[0].gid, r.value))
  {
    hide XD.ReceiveStep, RD.ReceiveStep, NewPacketStep, RB.CheckStep, WritesRecovery;
    if PacketOf(e).Some? {
      XorPacketStep(cfg, window, s, PacketOf(e).value, e.now);
    }
  }

  lemma XorPacketStep(cfg: Config, window: nat, s: State, p: Packet, now: real)
    ensures var (t, w) := NewPacketStep(cfg, window, s, p, now);
            if cfg.Dispatch(p.groupSize) != Some(XorKind) then t.fec.xor == s.fec.xor
            else
              var (x, r) := XD.ReceiveStep(cfg.xorSize, s.fec.xor, p.gid, p.index, p.IsFecParity(), p.payload, now);
              t.fec.xor == x && (r.Some? ==> WritesRecovery(cfg, XorKind, w, p.gid, r.value))
  {
    hide XD.ReceiveStep, RD.ReceiveStep, RB.InsertStep, WritesRecovery;
    if cfg.Dispatch(p.groupSize) == Some(XorKind) {
      var m := MetaOf(p);
      var (x, r) := XD.ReceiveStep(cfg.xorSize, s.fec.xor, m.gid, m.index, m.isParity, p.payload, now);
      DecodeStepXor(cfg, s.fec, m, p.payload, now, x, r);
      if r.Some? { NewPacketWrites(cfg, XorKind, window, s, p, now, r.value); }
    }
  }

  lemma AllAsXorMore(xs: seq<Share>, more: seq<Share>)
    requires |more| <= 1
    ensures more == [] ==> AllAsXor(xs + more) == AllAsXor(xs)
    ensures more != [] ==> AllAsXor(xs + more) == AllAsXor(xs) + [AsXor(more[0])]
  {
    hide AsXor;
    if more == [] { assert xs + more == xs; }
  }

  lemma XorAfterMore(n: nat, es: seq<XD.Event>, e: XD.Event)
    ensures XD.After(n, XD.INIT, es + [e]) == XD.Step(n, XD.After(n, XD.INIT, es), e).0
    ensures XD.Output(n, XD.INIT, es + [e], |es|) == XD.Step(n, XD.After(n, XD.INIT, es), e).1
    ensures forall j :: 0 <= j < |es| ==> XD.Output(n, XD.INIT, es + [e], j) == XD.Output(n, XD.INIT, es, j)
  {
    assert (es + [e])[..|es|] == es;
    forall j | 0 <= j < |es| ensures XD.Output(n, XD.INIT, es + [e], j) == XD.Output(n, XD.INIT, es, j) {
      assert (es + [e])[..j] == es[..j];
    }
  }

  lemma {:induction false} XorRun(cfg: Config, window: nat, t0: real, es: seq<Event>)
    ensures After(cfg, window, t0, es).fec.xor == XD.After(cfg.xorSize, XD.INIT, XorEvents(cfg, window, t0, es))
  {
    if es != [] {
      hide Step, ShareOf, XD.Step, AllAsXor, AsXor;
      var n := |es| - 1;
      XorRun(cfg, window, t0, es[..n]);
      var before, s := Shares(cfg, XorKind, window, t0, es[..n]), After(cfg, window, t0, es[..n]);
      var more := ShareOf(cfg, XorKind, s, es[n]);
      XorStep(cfg, window, s, es[n]);
      AllAsXorMore(before, more);
      if more != [] { XorAfterMore(cfg.xorSize, AllAsXor(before), AsXor(more[0])); }
    }
  }

  /** Every recovery of the XOR decoder's run is written. */
  lemma {:induction false} RecoveryIsWritten(cfg: Config, window: nat, t0: real, es: seq<Event>, j: nat)
    requires var xs := XorEvents(cfg, window, t0, es);
             j < |xs| && XD.Output(cfg.xorSize, XD.INIT, xs, j).Some?
    ensures var xs := XorEvents(cfg, window, t0, es);
            xs[j].Receive? && WritesRecovery(cfg, XorKind, Writes(cfg, window, t0, es), xs[j].gid,
                                             XD.Output(cfg.xorSize, XD.INIT, xs, j).value)
  {
    hide Step, ShareOf, XD.Step, XD.Output, XD.After, WritesRecovery;
    var n := |es| - 1;
    var before, s := Shares(cfg, XorKind, window, t0, es[..n]), After(cfg, window, t0, es[..n]);
    var more := ShareOf(cfg, XorKind, s, es[n]);
    var xs := XorEvents(cfg, window, t0, es);
    XorStep(cfg, window, s, es[n]);
    XorRun(cfg, window, t0, es[..n]);
    AllAsXorMore(before, more);
    if more != [] { XorAfterMore(cfg.xorSize, AllAsXor(before), AsXor(more[0])); }
    if j < |before| { RecoveryIsWritten(cfg, window, t0, es[..n], j); }
    WrittenInMore(cfg, XorKind, Writes(cfg, window, t0, es[..n]), Step(cfg, window, s, es[n]).1, xs[j].gid,
                  XD.Output(cfg.xorSize, XD.INIT, xs, j).value);
  }

  // ---------- a Reed-Solomon decoder ----------

  function AsShard(x: Share): RD.Event {
    match x
    case Got(gid, index, _, payload, now) => RD.Receive(gid, index, payload, now)
    case Expired(cutoff) => RD.Expire(cutoff)
  }

  function AllAsShards(xs: seq<Share>): (es: seq<RD.Event>)
    ensures |es| == |xs| && forall i :: 0 <= i < |xs| ==> es[i] == AsShard(xs[i])
  {
    if xs == [] then [] else AllAsShards(xs[..|xs| - 1]) + [AsShard(xs[|xs| - 1])]
  }

  ghost function ShardEvents(cfg: Config, kind: Kind, window: nat, t0: real, es: seq<Event>): seq<RD.Event> {
    AllAsShards(Shares(cfg, kind, window, t0, es))
  }

  /** The state of the decoder of a Reed-Solomon kind. */
  function RsState(d: DecState, kind: Kind): RD.State {
    if kind == HeavyKind then d.heavy else d.rs
  }

  ghost function RsReceive(cfg: Config, kind: Kind, s: RD.State, gid: nat, index: nat, payload: bytes, now: real)
    : (RD.State, RD.Recoveries)
    requires kind != XorKind
  {
    RD.ReceiveStep(CodecOf(cfg, kind), DataOf(cfg, kind), ParityOf(cfg, kind), s, gid, index, payload, now)
  }

  ghost function RsStep(cfg: Config, kind: Kind, s: RD.State, e: RD.Event): (RD.State, RD.Recoveries)
    requires kind != XorKind
  {
    RD.Step(CodecOf(cfg, kind), DataOf(cfg, kind), ParityOf(cfg, kind), s, e)
  }

  ghost function RsAfter(cfg: Config, kind: Kind, es: seq<RD.Event>): RD.State
    requires kind != XorKind
  {
    RD.After(CodecOf(cfg, kind), DataOf(cfg, kind), ParityOf(cfg, kind), RD.INIT, es)
  }

  ghost function RsOutput(cfg: Config, kind: Kind, es: seq<RD.Event>, j: nat): RD.Recoveries
    requires kind != XorKind && j < |es|
  {
    RD.Output(CodecOf(cfg, kind), DataOf(cfg, kind), ParityOf(cfg, kind), RD.INIT, es, j)
  }

  lemma DecodeStepShard(cfg: Config, kind: Kind, d: DecState, m: Meta, payload: bytes, now: real)
    requires kind != XorKind
    ensures var (d', r) := DecodeStep(cfg, d, m, payload, now);
            if cfg.Dispatch(m.groupSize) != Some(kind) then RsState(d', kind) == RsState(d, kind)
            else (RsState(d', kind), r) == RsReceive(cfg, kind, RsState(d, kind), m.gid, m.index, payload, now)
  {
    hide XD.ReceiveStep, RD.ReceiveStep;
  }

  lemma ShardStep(cfg: Config, kind: Kind, window: nat, s: State, e: Event)
    requires kind != XorKind
    ensures var (t, w) := Step(cfg, window, s, e);
            var xs := ShareOf(cfg, kind, s, e);
            if xs == [] then RsState(t.fec, kind) == RsState(s.fec, kind)
            else
              var (x, rs) := RsStep(cfg, kind, RsState(s.fec, kind), AsShard(xs[0]));
              && |xs| == 1 && RsState(t.fec, kind) == x
              && forall r :: r in rs ==> xs[0].Got? && WritesRecovery(cfg, kind, w, xs[0].gid, r)
  {
    hide RD.ReceiveStep, NewPacketStep, RB.CheckStep, WritesRecovery, CodecOf, DataOf, ParityOf;
    if PacketOf(e).Some? {
      ShardPacketStep(cfg, kind, window, s, PacketOf(e).value, e.now);
    }
  }

  lemma ShardPacketStep(cfg: Config, kind: Kind, window: nat, s: State, p: Packet, now: real)
    requires kind != XorKind
    ensures var (t, w) := NewPacketStep(cfg, window, s, p, now);
            if cfg.Dispatch(p.groupSize) != Some(kind) then RsState(t.fec, kind) == RsState(s.fec, kind)
            else
              var (x, rs) := RsReceive(cfg, kind, RsState(s.fec, kind), p.gid, p.index, p.payload, now);
              RsState(t.fec, kind) == x && forall r :: r in rs ==> WritesRecovery(cfg, kind, w, p.gid, r)
  {
    hide DecodeStep, RsReceive, RB.InsertStep, WritesRecovery;
    DecodeStepShard(cfg, kind, s.fec, MetaOf(p), p.payload, now);
    if cfg.Dispatch(p.groupSize) == Some(kind) {
      forall r | r in DecodeStep(cfg, s.fec, MetaOf(p), p.payload, now).1
        ensures WritesRecovery(cfg, kind, NewPacketStep(cfg, window, s, p, now).1, p.gid, r)
      {
        NewPacketWrites(cfg, kind, window, s, p, now, r);
      }
    }
  }

  lemma AllAsShardsMore(xs: seq<Share>, more: seq<Share>)
    requires |more| <= 1
    ensures more == [] ==> AllAsShards(xs + more) == AllAsShards(xs)
    ensures more != [] ==> AllAsShards(xs + more) == AllAsShards(xs) + [AsShard(more[0])]
  {
    hide AsShard;
    if more == [] { assert xs + more == xs; }
  }

  lemma ShardAfterMore(cfg: Config, kind: Kind, es: seq<RD.Event>, e: RD.Event)
    requires kind != XorKind
    ensures RsAfter(cfg, kind, es + [e]) == RsStep(cfg, kind, RsAfter(cfg, kind, es), e).0
    ensures RsOutput(cfg, kind, es + [e], |es|) == RsStep(cfg, kind, RsAfter(cfg, kind, es), e).1
    ensures forall j :: 0 <= j < |es| ==> RsOutput(cfg, kind, es + [e], j) == RsOutput(cfg, kind, es, j)
  {
    hide CodecOf, DataOf, ParityOf, RD.Step;
    assert (es + [e])[..|es|] == es;
    forall j | 0 <= j < |es| ensures RsOutput(cfg, kind, es + [e], j) == RsOutput(cfg, kind, es, j) {
      assert (es + [e])[..j] == es[..j];
    }
  }

  lemma {:induction false} ShardRun(cfg: Config, kind: Kind, window: nat, t0: real, es: seq<Event>)
    requires kind != XorKind
    ensures RsState(After(cfg, window, t0, es).fec, kind)
            == RsAfter(cfg, kind, ShardEvents(cfg, kind, window, t0, es))
  {
    if es != [] {
      hide Step, ShareOf, RsStep, RsAfter, AllAsShards, AsShard, RsState;
      var n := |es| - 1;
      ShardRun(cfg, kind, window, t0, es[..n]);
      var before, s := Shares(cfg, kind, window, t0, es[..n]), After(cfg, window, t0, es[..n]);
      var more := ShareOf(cfg, kind, s, es[n]);
      ShardStep(cfg, kind, window, s, es[n]);
      AllAsShardsMore(before, more);
      if more != [] { ShardAfterMore(cfg, kind, AllAsShards(before), AsShard(more[0])); }
    }
  }

  /** Every recovery of a Reed-Solomon decoder's run is written. */
  lemma {:induction false} ShardRecoveryIsWritten(cfg: Config, kind: Kind, window: nat, t0: real, es: seq<Event>,
                                                  j: nat, r: (nat, bytes))
    requires kind != XorKind
    requires var xs := ShardEvents(cfg, kind, window, t0, es); j < |xs| && r in RsOutput(cfg, kind, xs, j)
    ensures var xs := ShardEvents(cfg, kind, window, t0, es);
            xs[j].Receive? && WritesRecovery(cfg, kind, Writes(cfg, window, t0, es), xs[j].gid, r)
  {
    hide Step, ShareOf, RsStep, RsOutput, RsAfter, WritesRecovery;
    var n := |es| - 1;
    var before, s := Shares(cfg, kind, window, t0, es[..n]), After(cfg, window, t0, es[..n]);
    var more := ShareOf(cfg, kind, s, es[n]);
    var xs := ShardEvents(cfg, kind, window, t0, es);
    ShardStep(cfg, kind, window, s, es[n]);
    ShardRun(cfg, kind, window, t0, es[..n]);
    AllAsShardsMore(before, more);
    if more != [] { ShardAfterMore(cfg, kind, AllAsShards(before), AsShard(more[0])); }
    if j < |before| { ShardRecoveryIsWritten(cfg, kind, window, t0, es[..n], j, r); }
    WrittenInMore(cfg, kind, Writes(cfg, window, t0, es[..n]), Step(cfg, window, s, es[n]).1, xs[j].gid, r);
  }
}
