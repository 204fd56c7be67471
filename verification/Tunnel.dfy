/** The client and server objects: their callbacks do what the step functions say. */
module Tunnel {
  import opened Bytes
  import opened Packet
  import opened FecEngine
  import E = Engine
  import C = Client
  import S = Server
  import RB = ReorderBuffer
  import RD = RsDecoder

  class TunnelClient {
    const fec: E.Engine
    var pathSeqs: map<nat, nat>
    var globalSeq: nat
    var datagrams: seq<bytes>          // handed to the sockets, in order
    ghost var sent: seq<Packet>
    ghost var log: seq<FecOut>
    ghost var inputs: seq<bytes>

    ghost predicate Valid()
      reads fec.xorEncoder, fec.rsEncoder, fec.rsHeavyEncoder
    {
      fec.Wired() && fec.EncodersValid()
    }

    ghost function Model(): C.State
      reads this, fec, fec.xorEncoder, fec.rsEncoder, fec.rsHeavyEncoder
    {
      C.State(fec.Enc(), pathSeqs, globalSeq, sent, log, inputs)
    }

    constructor (cfg: Config, mode: Mode)
      requires cfg.Valid()
      ensures Valid() && Model() == C.Init(mode) && fec.cfg == cfg && datagrams == []
    {
      fec := new E.Engine(cfg, mode);
      pathSeqs, globalSeq, datagrams := map[], 0, [];
      sent, log, inputs := [], [], [];
    }

    /** One outbound payload; fails like struct.pack does as soon as some header field of a copy overflows. */
    method SendPacket(payload: bytes, tier: Tier, plan: seq<seq<C.Attempt>>) returns (ok: bool)
      requires Valid()
      modifies this, fec.xorEncoder, fec.rsEncoder, fec.rsHeavyEncoder
      ensures Valid()
      ensures var (e, outs) := EncodeStep(fec.cfg, old(Model()).enc, payload, tier);
              var s := old(Model()).(enc := e, inputs := old(inputs) + [payload]);
              && (ok <==> C.OutsFit(s, outs, plan))
              && (ok ==> Model() == C.SendStep(fec.cfg, old(Model()), payload, tier, plan))
      ensures ok ==> old(sent) <= sent && datagrams == old(datagrams) + Wires(sent[|old(sent)|..])
    {
      hide EncodeStep, C.SendOut, C.SendOuts, C.OutsFit, C.CopiesFit;
      ghost var s0 := Model();
      var outs := fec.EncodePacket(payload, tier);
      inputs := inputs + [payload];
      ghost var s := Model();
      assert s == s0.(enc := EncodeStep(fec.cfg, s0.enc, payload, tier).0, inputs := s0.inputs + [payload]);
      ok := SendOuts(outs, plan);
    }

    /** The loop over the FEC outputs. */
    method SendOuts(outs: seq<FecOut>, plan: seq<seq<C.Attempt>>) returns (ok: bool)
      modifies this`pathSeqs, this`globalSeq, this`datagrams, this`sent, this`log
      ensures ok <==> C.OutsFit(old(Model()), outs, plan)
      ensures ok ==> Model() == C.SendOuts(old(Model()), outs, plan)
      ensures ok ==> old(sent) <= sent && datagrams == old(datagrams) + Wires(sent[|old(sent)|..])
    {
      hide C.SendOut, C.SendOuts, C.OutsFit, C.CopiesFit, Wires;
      ghost var s, out, d := Model(), sent, datagrams;
      NoneSent(s, plan);
      assert outs[..0] == [];
      ghost var more: seq<Packet> := [];
      for j := 0 to |outs|
        invariant Model() == C.SendOuts(s, outs[..j], plan)
        invariant C.OutsFit(s, outs[..j], plan)
        invariant sent == out + more && datagrams == d + Wires(more)
      {
        SendOutsMore(s, outs, plan, j);
        ghost var before := sent;
        var fits := SendOut(outs[j], C.AttemptsFor(plan, j));
        if !fits {
          StaysUnfit(s, outs, plan, j + 1);
          return false;
        }
        ghost var new' := sent[|before|..];
        WiresConcat(more, new');
        more := more + new';
      }
      assert outs[..|outs|] == outs;
      assert sent[|out|..] == more;
      return true;
    }

    /** The loop over the attempts for one output, and the step to the next global number. */
    method SendOut(o: FecOut, attempts: seq<C.Attempt>) returns (ok: bool)
      modifies this`pathSeqs, this`globalSeq, this`datagrams, this`sent, this`log
      ensures ok <==> C.CopiesFit(o, old(globalSeq), attempts, old(pathSeqs))
      ensures ok ==> Model() == C.SendOut(old(Model()), o, attempts)
      ensures ok ==> old(sent) <= sent && datagrams == old(datagrams) + Wires(sent[|old(sent)|..])
    {
      hide C.MakePacket, Serialize, C.SendCopies, C.CopiesFit, Wires;
      ghost var seqs, out, d := pathSeqs, sent, datagrams;
      NoCopies(o, globalSeq, seqs);
      assert attempts[..0] == [];
      ghost var more: seq<Packet> := [];
      for j := 0 to |attempts|
        invariant pathSeqs == C.SendCopies(o, globalSeq, attempts[..j], seqs).0
        invariant more == C.SendCopies(o, globalSeq, attempts[..j], seqs).1
        invariant C.CopiesFit(o, globalSeq, attempts[..j], seqs)
        invariant sent == out + more && datagrams == d + Wires(more)
        invariant globalSeq == old(globalSeq) && log == old(log)
      {
        var a := attempts[j];
        CopiesMore(o, globalSeq, attempts, seqs, j);
        var pathSeq := C.PathSeq(pathSeqs, a.pathId);
        var p := C.MakePacket(o, a.pathId, pathSeq, globalSeq, a.timestamp);
        var wire := Serialize(p);
        SerializesIffInRange(p);
        if wire.None? {
          CopiesStayUnfit(o, globalSeq, attempts, seqs, j + 1);
          return false;
        }
        if a.sentOn.Some? {
          datagrams := datagrams + [wire.value];
          sent := sent + [p];
          pathSeqs := pathSeqs[a.sentOn.value := pathSeq + 1];
          WiresConcat(more, [p]);
          OneWire(p);
          more := more + [p];
        }
      }
      assert attempts[..|attempts|] == attempts;
      assert sent[|out|..] == more;
      log := log + [o];
      globalSeq := globalSeq + 1;
      return true;
    }
  }

  lemma NoneSent(s: C.State, plan: seq<seq<C.Attempt>>)
    ensures C.SendOuts(s, [], plan) == s && C.OutsFit(s, [], plan) && Wires([]) == []
  {
  }

  lemma SendOutsMore(s: C.State, outs: seq<FecOut>, plan: seq<seq<C.Attempt>>, j: nat)
    requires j < |outs|
    ensures var t := C.SendOuts(s, outs[..j], plan);
            && C.SendOuts(s, outs[..j + 1], plan) == C.SendOut(t, outs[j], C.AttemptsFor(plan, j))
            && (C.OutsFit(s, outs[..j + 1], plan) <==>
                C.OutsFit(s, outs[..j], plan) && C.CopiesFit(outs[j], t.globalSeq, C.AttemptsFor(plan, j), t.pathSeqs))
  {
    hide C.SendOut, C.CopiesFit;
    assert outs[..j + 1][..j] == outs[..j];
  }

  lemma NoCopies(o: FecOut, globalSeq: nat, seqs: map<nat, nat>)
    ensures C.SendCopies(o, globalSeq, [], seqs) == (seqs, []) && C.CopiesFit(o, globalSeq, [], seqs) && Wires([]) == []
  {
  }

  lemma CopiesMore(o: FecOut, globalSeq: nat, attempts: seq<C.Attempt>, seqs: map<nat, nat>, j: nat)
    requires j < |attempts|
    ensures var (m, sent) := C.SendCopies(o, globalSeq, attempts[..j], seqs);
            var a := attempts[j];
            var pathSeq := C.PathSeq(m, a.pathId);
            var p := C.MakePacket(o, a.pathId, pathSeq, globalSeq, a.timestamp);
            && C.SendCopies(o, globalSeq, attempts[..j + 1], seqs)
               == (if a.sentOn.None? then (m, sent) else (m[a.sentOn.value := pathSeq + 1], sent + [p]))
            && (C.CopiesFit(o, globalSeq, attempts[..j + 1], seqs) <==>
                C.CopiesFit(o, globalSeq, attempts[..j], seqs) && p.InRange())
  {
    hide C.MakePacket;
    assert attempts[..j + 1][..j] == attempts[..j];
  }

  lemma SerializesIffInRange(p: Packet)
    ensures Serialize(p).Some? <==> p.InRange()
  {
  }

  /** The wire forms of some packets. */
  ghost function Wires(ps: seq<Packet>): seq<bytes> {
    if ps == [] then [] else
      var n := |ps| - 1;
      Wires(ps[..n]) + if ps[n].InRange() then [Serialize(ps[n]).value] else []
  }

  lemma {:induction false} WiresConcat(a: seq<Packet>, b: seq<Packet>)
    ensures Wires(a + b) == Wires(a) + Wires(b)
  {
    if b == [] {
      assert a + b == a;
    } else {
      hide Serialize;
      WiresConcat(a, b[..|b| - 1]);
      assert (a + b)[..|a + b| - 1] == a + b[..|b| - 1];
    }
  }

  lemma OneWire(p: Packet)
    requires p.InRange()
    ensures Wires([p]) == [Serialize(p).value]
  {
    hide Serialize;
    assert [p][..0] == [];
  }

  lemma {:induction false} StaysUnfit(s: C.State, outs: seq<FecOut>, plan: seq<seq<C.Attempt>>, j: nat)
    requires j <= |outs| && !C.OutsFit(s, outs[..j], plan)
    ensures !C.OutsFit(s, outs, plan)
    decreases |outs| - j
  {
    if j < |outs| {
      assert outs[..j + 1][..j] == outs[..j];
      StaysUnfit(s, outs, plan, j + 1);
    } else {
      assert outs[..j] == outs;
    }
  }

  lemma {:induction false} CopiesStayUnfit(o: FecOut, globalSeq: nat, attempts: seq<C.Attempt>, seqs: map<nat, nat>,
                                           j: nat)
    requires j <= |attempts| && !C.CopiesFit(o, globalSeq, attempts[..j], seqs)
    ensures !C.CopiesFit(o, globalSeq, attempts, seqs)
    decreases |attempts| - j
  {
    if j < |attempts| {
      assert attempts[..j + 1][..j] == attempts[..j];
      CopiesStayUnfit(o, globalSeq, attempts, seqs, j + 1);
    } else {
      assert attempts[..j] == attempts;
    }
  }

  class TunnelServer {
    const fec: E.Engine
    const reorder: RB.AdaptiveReorderBuffer
    var tunOpen: bool
    var tun: seq<bytes>                // what has been written to the TUN device
    var packetsReceived: nat
    var fecRecoveries: nat
    var duplicatesDropped: nat

    ghost predicate Valid()
      reads fec.rsDecoder, fec.rsHeavyDecoder, reorder
    {
      fec.Wired() && fec.DecodersValid() && reorder.Valid()
    }

    ghost function Model(): S.State
      reads this, fec, fec.xorDecoder, fec.rsDecoder, fec.rsHeavyDecoder, reorder
    {
      S.State(reorder.Model(), fec.Dec(), packetsReceived, fecRecoveries, duplicatesDropped)
    }

    constructor (cfg: Config, mode: Mode, window: nat, timeoutMs: real, tunOpen: bool)
      requires cfg.Valid()
      ensures Valid() && Model() == S.Init(timeoutMs) && tun == [] && this.tunOpen == tunOpen
      ensures fec.cfg == cfg && reorder.window == window
    {
      fec := new E.Engine(cfg, mode);
      reorder := new RB.AdaptiveReorderBuffer(window, timeoutMs);
      this.tunOpen := tunOpen;
      tun, packetsReceived, fecRecoveries, duplicatesDropped := [], 0, 0, 0;
    }

    /** The socket callback, given the datagram read. */
    method OnUdpReadable(data: bytes, now: real)
      requires Valid()
      modifies this`tun, this`packetsReceived, this`fecRecoveries, this`duplicatesDropped
      modifies fec`totalRecoveries, fec.xorDecoder, fec.rsDecoder, fec.rsHeavyDecoder, reorder
      ensures Valid()
      ensures Model() == S.DatagramStep(fec.cfg, reorder.window, old(Model()), data, now).0
      ensures tun == old(tun) + if tunOpen
                                then S.WritePayloads(S.DatagramStep(fec.cfg, reorder.window, old(Model()), data, now).1)
                                else []
    {
      hide S.PacketStep, Deserialize;
      var r := Deserialize(data);
      if r.Err? {
        return;
      }
      var p := r.value;
      if p.IsKeepalive() {
        return;
      }
      if p.IsControl() {
        return;
      }
      HandlePacket(p, now);
    }

    method HandlePacket(p: Packet, now: real)
      requires Valid()
      modifies this`tun, this`packetsReceived, this`fecRecoveries, this`duplicatesDropped
      modifies fec`totalRecoveries, fec.xorDecoder, fec.rsDecoder, fec.rsHeavyDecoder, reorder
      ensures Valid()
      ensures Model() == S.PacketStep(fec.cfg, reorder.window, old(Model()), p, now).0
      ensures tun == old(tun) + if tunOpen
                                then S.WritePayloads(S.PacketStep(fec.cfg, reorder.window, old(Model()), p, now).1)
                                else []
    {
      hide S.NewPacketStep, S.WritePayloads, RB.Inv;
      NoWrites();
      assert tun + [] == tun;
      var dup := reorder.IsDuplicate(p.globalSeq);
      if dup {
        duplicatesDropped := duplicatesDropped + 1;
        return;
      }
      HandleNewPacket(p, now);
    }

    method HandleNewPacket(p: Packet, now: real)
      requires Valid() && !Model().reorder.IsDuplicate(p.globalSeq)
      modifies this`tun, this`packetsReceived, this`fecRecoveries
      modifies fec`totalRecoveries, fec.xorDecoder, fec.rsDecoder, fec.rsHeavyDecoder, reorder
      ensures Valid()
      ensures Model() == S.NewPacketStep(fec.cfg, reorder.window, old(Model()), p, now).0
      ensures tun == old(tun) + if tunOpen
                                then S.WritePayloads(S.NewPacketStep(fec.cfg, reorder.window, old(Model()), p, now).1)
                                else []
    {
      hide DecodeStep, RB.InsertStep, S.WritePayloads, S.RecoveredWrites, S.ReleasedWrites, RB.Inv;
      ghost var s := Model();
      NoWrites();
      assert tun + [] == tun;
      ghost var recovered := DecodeAndWrite(p, now);
      assert reorder.Model() == s.reorder;
      if p.IsFecParity() {
        return;
      }
      ghost var out := RB.InsertStep(reorder.window, s.reorder, p.globalSeq, p.payload, now).1;
      InsertAndWrite(p, now);
      WritePayloadsConcat(S.RecoveredWrites(S.MetaOf(p), recovered), S.ReleasedWrites(out));
    }

    /** Insertion into the reorder buffer, and the writes of what it releases. */
    method InsertAndWrite(p: Packet, now: real)
      requires reorder.Valid()
      modifies this`tun, this`packetsReceived, reorder
      ensures reorder.Valid()
      ensures var (t, out) := RB.InsertStep(reorder.window, old(reorder.Model()), p.globalSeq, p.payload, now);
              && reorder.Model() == t && packetsReceived == old(packetsReceived) + |out|
              && tun == old(tun) + if tunOpen then S.WritePayloads(S.ReleasedWrites(out)) else []
    {
      hide RB.InsertStep, S.WritePayloads, S.ReleasedWrites;
      ghost var out := RB.InsertStep(reorder.window, reorder.Model(), p.globalSeq, p.payload, now).1;
      var delivered := reorder.Insert(p.globalSeq, p.payload, now);
      WriteDelivered(delivered, out);
    }

    /** FEC decoding, and the writes of what it recovers. */
    method DecodeAndWrite(p: Packet, now: real) returns (ghost recovered: RD.Recoveries)
      requires fec.Wired() && fec.DecodersValid()
      modifies this`tun, this`fecRecoveries
      modifies fec`totalRecoveries, fec.xorDecoder, fec.rsDecoder, fec.rsHeavyDecoder
      ensures fec.DecodersValid()
      ensures (fec.Dec(), recovered) == if p.groupSize > 0
                                        then DecodeStep(fec.cfg, old(fec.Dec()), S.MetaOf(p), p.payload, now)
                                        else (old(fec.Dec()), [])
      ensures fecRecoveries == old(fecRecoveries) + |recovered|
      ensures tun == old(tun) + if tunOpen then S.WritePayloads(S.RecoveredWrites(S.MetaOf(p), recovered)) else []
    {
      hide DecodeStep, S.WritePayloads, S.RecoveredWrites;
      NoWrites();
      recovered := [];
      if p.groupSize > 0 {
        var r := fec.DecodePacket(S.MetaOf(p), p.payload, now);
        ghost var d := fec.Dec();
        WriteRecovered(S.MetaOf(p), r);
        assert fec.Dec() == d;
        recovered := r;
      }
    }

    method WriteRecovered(ghost m: Meta, recovered: RD.Recoveries)
      modifies this`tun, this`fecRecoveries
      ensures fecRecoveries == old(fecRecoveries) + |recovered|
      ensures tun == old(tun) + if tunOpen then S.WritePayloads(S.RecoveredWrites(m, recovered)) else []
    {
      hide S.RecoveredWrites, S.WritePayloads;
      NoWrites();
      for j := 0 to |recovered|
        invariant fecRecoveries == old(fecRecoveries) + j
        invariant tun == old(tun) + if tunOpen then S.WritePayloads(S.RecoveredWrites(m, recovered[..j])) else []
      {
        fecRecoveries := fecRecoveries + 1;
        RecoveredMore(m, recovered, j);
        if tunOpen {
          tun := tun + [recovered[j].1];
        }
      }
      assert recovered[..|recovered|] == recovered;
    }

    method WriteDelivered(delivered: seq<bytes>, ghost out: seq<RB.Numbered>)
      requires delivered == RB.PayloadsOf(out)
      modifies this`tun, this`packetsReceived
      ensures packetsReceived == old(packetsReceived) + |out|
      ensures tun == old(tun) + if tunOpen then S.WritePayloads(S.ReleasedWrites(out)) else []
    {
      ReleasedPayloads(out);
      for j := 0 to |delivered|
        invariant packetsReceived == old(packetsReceived) + j
        invariant tun == old(tun) + if tunOpen then delivered[..j] else []
      {
        packetsReceived := packetsReceived + 1;
        if tunOpen {
          tun := tun + [delivered[j]];
        }
      }
      assert delivered[..|delivered|] == delivered;
    }

    /** One round of the timeout loop. */
    method TimeoutTick(now: real)
      requires Valid()
      modifies this`tun, this`packetsReceived
      modifies fec.xorDecoder, fec.rsDecoder, fec.rsHeavyDecoder, reorder
      ensures Valid()
      ensures Model() == S.TickStep(fec.cfg, reorder.window, old(Model()), now).0
      ensures tun == old(tun) + if tunOpen
                                then S.WritePayloads(S.TickStep(fec.cfg, reorder.window, old(Model()), now).1) else []
    {
      hide RB.CheckStep, S.WritePayloads, S.ReleasedWrites, ExpireStep, RB.Inv;
      ghost var s := Model();
      var delivered := reorder.CheckTimeouts(now);
      WriteDelivered(delivered, RB.CheckStep(reorder.window, s.reorder, now).1);
      assert fec.Dec() == s.fec;
      fec.ExpireGroups(now);
    }
  }

  lemma NoWrites()
    ensures forall m :: S.RecoveredWrites(m, []) == [] && S.WritePayloads(S.RecoveredWrites(m, [])) == []
    ensures S.WritePayloads([]) == []
  {
  }

  lemma {:induction false} WritePayloadsConcat(a: seq<S.Write>, b: seq<S.Write>)
    ensures S.WritePayloads(a + b) == S.WritePayloads(a) + S.WritePayloads(b)
  {
    if b == [] {
      assert a + b == a;
    } else {
      WritePayloadsConcat(a, b[..|b| - 1]);
      assert (a + b)[..|a + b| - 1] == a + b[..|b| - 1];
    }
  }

  lemma RecoveredMore(m: Meta, r: RD.Recoveries, j: nat)
    requires j < |r|
    ensures S.WritePayloads(S.RecoveredWrites(m, r[..j + 1]))
            == S.WritePayloads(S.RecoveredWrites(m, r[..j])) + [r[j].1]
  {
    assert r[..j + 1][..j] == r[..j];
    var w := S.RecoveredWrites(m, r[..j + 1]);
    assert w[..|w| - 1] == S.RecoveredWrites(m, r[..j]);
  }

  lemma {:induction false} ReleasedPayloads(out: seq<RB.Numbered>)
    ensures S.WritePayloads(S.ReleasedWrites(out)) == RB.PayloadsOf(out)
  {
    if out != [] {
      var n := |out| - 1;
      ReleasedPayloads(out[..n]);
      var w := S.ReleasedWrites(out);
      assert w[..n] == S.ReleasedWrites(out[..n]);
    }
  }
}
