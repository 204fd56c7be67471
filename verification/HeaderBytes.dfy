/** The header byte by byte: what a sent datagram holds at each place, and what the server makes of the flags byte. */
module HeaderBytes {
  import opened Collections
  import opened Bytes
  import opened Packet
  import opened FecEngine
  import opened Server
  import RB = ReorderBuffer

  /** Every field of a parsed packet is the number at its place. */
  lemma ParsedFields(d: bytes)
    requires |d| >= 28
    ensures var p := Unpack(d);
            && p.magic == Four(d, 0) && p.version == d[4] && p.flags == d[5] && p.pathId == Two(d, 6)
            && p.pathSeq == Four(d, 8) && p.globalSeq == Four(d, 12) && p.gid == Four(d, 16)
            && p.index == d[20] && p.groupSize == d[21] && p.payloadLen == Two(d, 22) && p.timestamp == Four(d, 24)
  {
    hide FromBytes;
    BigEndian(d[0..4]);
    BigEndian(d[4..5]);
    BigEndian(d[5..6]);
    BigEndian(d[6..8]);
    BigEndian(d[8..12]);
    BigEndian(d[12..16]);
    BigEndian(d[16..20]);
    BigEndian(d[20..21]);
    BigEndian(d[21..22]);
    BigEndian(d[22..24]);
    BigEndian(d[24..28]);
  }

  /** Every field of a packet stands at its place in the datagram. */
  lemma SentFields(p: Packet)
    requires p.InRange()
    ensures var d := Serialize(p).value;
            && |d| == 28 + |p.payload| && d[28..] == p.payload
            && Four(d, 0) == p.magic && d[4] == p.version && d[5] == p.flags && Two(d, 6) == p.pathId
            && Four(d, 8) == p.pathSeq && Four(d, 12) == p.globalSeq && Four(d, 16) == p.gid
            && d[20] == p.index && d[21] == p.groupSize && Two(d, 22) == p.payloadLen && Four(d, 24) == p.timestamp
  {
    hide Header, FromBytes, Pow256, Packet.InRange;
    var d := Header(p) + p.payload;
    UnpackHeader(p, d);
    ParsedFields(d);
  }

  /** "HAGG" */
  lemma Magic(d: bytes)
    requires |d| >= 4
    ensures Four(d, 0) == MAGIC <==> d[0] == 72 && d[1] == 65 && d[2] == 71 && d[3] == 71
  {
  }

  /** A datagram is accepted exactly if it starts with "HAGG" and has its 28 header bytes and all of its payload. */
  lemma AcceptedExactly(d: bytes)
    ensures Deserialize(d).Ok? <==>
              |d| >= 28 && d[0] == 72 && d[1] == 65 && d[2] == 71 && d[3] == 71 && 28 + Two(d, 22) <= |d|
    ensures Deserialize(d).Ok? ==> Deserialize(d).value.payload == d[28..28 + Two(d, 22)]
  {
    if |d| >= 28 {
      hide Field;
      ParsedFields(d);
      Magic(d);
    }
  }

  /** A keepalive (bit 2 of the flags) or control packet (bit 3) changes nothing and writes nothing. */
  lemma OthersPassOver(cfg: Config, window: nat, s: State, d: bytes, now: real, a: nat, b: nat)
    requires |d| >= 28
    requires (d[5] == 8 * a + 4 + b && b < 4) || (d[5] == 16 * a + 8 + b && b < 8)
    ensures DatagramStep(cfg, window, s, d, now) == (s, [])
  {
    hide PacketStep, Field;
    ParsedFields(d);
  }

  /** Without either bit the packet is processed; whether it reaches the reorder buffer depends on bit 0. */
  lemma DataAndParityAreProcessed(cfg: Config, window: nat, s: State, d: bytes, now: real, a: nat, b: nat)
    requires |d| >= 28 && Deserialize(d).Ok? && d[5] == 16 * a + b && b < 4
    ensures DatagramStep(cfg, window, s, d, now) == PacketStep(cfg, window, s, Deserialize(d).value, now)
    ensures var t := DatagramStep(cfg, window, s, d, now).0;
            if s.reorder.IsDuplicate(Four(d, 12)) || d[5] % 2 == 1 then t.reorder == s.reorder
            else
              && 28 + Two(d, 22) <= |d|
              && t.reorder == RB.InsertStep(window, s.reorder, Four(d, 12), d[28..28 + Two(d, 22)], now).0
  {
    hide DecodeStep, RB.InsertStep, Field;
    AcceptedExactly(d);
    ParsedFields(d);
  }

  /** What the factories of the other packets put into the flags byte, and what the server does with it. */
  lemma KeepalivesPassOver(cfg: Config, window: nat, s: State, pathId: nat, pathSeq: nat, timestamp: nat, now: real)
    requires CreateKeepalive(pathId, pathSeq, timestamp).InRange()
    ensures var d := Serialize(CreateKeepalive(pathId, pathSeq, timestamp)).value;
            && |d| == 28 && d[4] == 1 && d[5] == 4 && Two(d, 6) == pathId && Four(d, 8) == pathSeq
            && Four(d, 24) == timestamp && Deserialize(d).Ok?
            && DatagramStep(cfg, window, s, d, now) == (s, [])
  {
    hide Header, Deserialize, Packet.InRange, DatagramStep;
    var p := CreateKeepalive(pathId, pathSeq, timestamp);
    SentFields(p);
    AcceptedExactly(Serialize(p).value);
    OthersPassOver(cfg, window, s, Serialize(p).value, now, 0, 0);
  }

  lemma ControlsPassOver(cfg: Config, window: nat, s: State, control: bytes, pathId: nat, pathSeq: nat, timestamp: nat,
                         now: real)
    requires CreateControl(control, pathId, pathSeq, timestamp).InRange()
    ensures var d := Serialize(CreateControl(control, pathId, pathSeq, timestamp)).value;
            && d[4] == 1 && d[5] == 8 && Two(d, 6) == pathId && Four(d, 8) == pathSeq && Four(d, 24) == timestamp
            && d[28..] == control && Deserialize(d).Ok?
            && DatagramStep(cfg, window, s, d, now) == (s, [])
  {
    hide Header, Deserialize, Packet.InRange, DatagramStep;
    var p := CreateControl(control, pathId, pathSeq, timestamp);
    SentFields(p);
    AcceptedExactly(Serialize(p).value);
    OthersPassOver(cfg, window, s, Serialize(p).value, now, 0, 0);
  }
}
