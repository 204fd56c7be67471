/** The receiving side: dedup, FEC decode, reorder, write to the TUN device; and the periodic timeout sweep. */
module Server {
  import opened Bytes
  import opened Packet
  import opened FecEngine
  import RB = ReorderBuffer
  import RD = RsDecoder

  datatype State = State(reorder: RB.State, fec: DecState, received: nat, fecRecoveries: nat, duplicates: nat)

  function Init(timeoutMs: real): State {
    State(RB.Init(timeoutMs), DEC_INIT, 0, 0, 0)
  }

  /** A write to the TUN device: a packet released by the reorder buffer, or one recovered by FEC. */
  datatype Write =
    | Released(q: nat, payload: bytes)
    | Recovered(meta: Meta, index: nat, payload: bytes)

  function MetaOf(p: Packet): Meta {
    Meta(p.gid, p.index, p.groupSize, p.IsFecParity(), false)
  }

  function ReleasedWrites(r: seq<RB.Numbered>): (w: seq<Write>)
    ensures |w| == |r| && forall i :: 0 <= i < |r| ==> w[i] == Released(r[i].0, r[i].1)
  {
    if r == [] then [] else ReleasedWrites(r[..|r| - 1]) + [Released(r[|r| - 1].0, r[|r| - 1].1)]
  }

  function RecoveredWrites(m: Meta, r: RD.Recoveries): (w: seq<Write>)
    ensures |w| == |r| && forall i :: 0 <= i < |r| ==> w[i] == Recovered(m, r[i].0, r[i].1)
  {
    if r == [] then [] else RecoveredWrites(m, r[..|r| - 1]) + [Recovered(m, r[|r| - 1].0, r[|r| - 1].1)]
  }

  function WritePayloads(w: seq<Write>): (p: seq<bytes>)
    ensures |p| == |w|
  {
    if w == [] then [] else WritePayloads(w[..|w| - 1]) + [w[|w| - 1].payload]
  }

  lemma {:induction false} PayloadAt(w: seq<Write>, i: nat)
    requires i < |w|
    ensures WritePayloads(w)[i] == w[i].payload
  {
    if i < |w| - 1 { PayloadAt(w[..|w| - 1], i); }
  }

  /** A packet that is no duplicate: recoveries are written first, then what the reorder buffer releases. */
  ghost function NewPacketStep(cfg: Config, window: nat, s: State, p: Packet, now: real): (State, seq<Write>) {
    var (fec, recovered) :=
      if p.groupSize > 0 then DecodeStep(cfg, s.fec, MetaOf(p), p.payload, now) else (s.fec, []);
    var s1 := s.(fec := fec, fecRecoveries := s.fecRecoveries + |recovered|);
    var w := RecoveredWrites(MetaOf(p), recovered);
    if p.IsFecParity() then (s1, w)
    else
      var (reorder, out) := RB.InsertStep(window, s.reorder, p.globalSeq, p.payload, now);
      (s1.(reorder := reorder, received := s.received + |out|), w + ReleasedWrites(out))
  }

  /** A data or parity packet that is neither a keepalive nor control. */
  ghost function PacketStep(cfg: Config, window: nat, s: State, p: Packet, now: real): (State, seq<Write>) {
    if s.reorder.IsDuplicate(p.globalSeq) then (s.(duplicates := s.duplicates + 1), [])
    else NewPacketStep(cfg, window, s, p, now)
  }

  ghost function DatagramStep(cfg: Config, window: nat, s: State, d: bytes, now: real): (State, seq<Write>) {
    var r := Deserialize(d);
    if r.Err? || r.value.IsKeepalive() || r.value.IsControl() then (s, [])
    else PacketStep(cfg, window, s, r.value, now)
  }

  /** The body of the timeout loop. */
  ghost function TickStep(cfg: Config, window: nat, s: State, now: real): (State, seq<Write>) {
    var (reorder, out) := RB.CheckStep(window, s.reorder, now);
    (s.(reorder := reorder, received := s.received + |out|, fec := ExpireStep(cfg, s.fec, now)), ReleasedWrites(out))
  }
}
