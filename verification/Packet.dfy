/** The 28-byte big-endian packet header, its parser, and their round trips. */
module Packet {
  import opened Collections
  import opened Bytes

  const MAGIC: nat := 0x48414747
  const VERSION: nat := 1
  const HEADER_SIZE: nat := 28
  const FLAG_FEC_PARITY: nat := 1
  const FLAG_KEEPALIVE: nat := 4
  const FLAG_CONTROL: nat := 8

  datatype Packet = Packet(
    magic: nat, version: nat, flags: nat, pathId: nat, pathSeq: nat, globalSeq: nat,
    gid: nat, index: nat, groupSize: nat, payloadLen: nat, timestamp: nat, payload: bytes)
  {
    predicate IsFecParity() {
      flags % 2 == 1
    }

    predicate IsKeepalive() {
      flags / 4 % 2 == 1
    }

    predicate IsControl() {
      flags / 8 % 2 == 1
    }

    /** Every field fits its slot of the format "!IBBHIIIBBHI". */
    predicate InRange() {
      && magic < Pow256(4) && version < Pow256(1) && flags < Pow256(1) && pathId < Pow256(2)
      && pathSeq < Pow256(4) && globalSeq < Pow256(4) && gid < Pow256(4)
      && index < Pow256(1) && groupSize < Pow256(1) && payloadLen < Pow256(2) && timestamp < Pow256(4)
    }

    /** What the factories produce: the right magic, and the length field matches the payload. */
    predicate WellFormed() {
      InRange() && magic == MAGIC && payloadLen == |payload|
    }
  }

  function Header(p: Packet): (h: bytes)
    requires p.InRange()
    ensures |h| == HEADER_SIZE
  {
    ToBytes(p.magic, 4) + ToBytes(p.version, 1) + ToBytes(p.flags, 1) + ToBytes(p.pathId, 2)
    + ToBytes(p.pathSeq, 4) + ToBytes(p.globalSeq, 4) + ToBytes(p.gid, 4)
    + ToBytes(p.index, 1) + ToBytes(p.groupSize, 1) + ToBytes(p.payloadLen, 2) + ToBytes(p.timestamp, 4)
  }

  /** struct.pack raises struct.error when a field does not fit. */
  function Serialize(p: Packet): Option<bytes> {
    if p.InRange() then Some(Header(p) + p.payload) else None
  }

  function Field(d: bytes, lo: nat, hi: nat): nat
    requires lo <= hi <= |d|
  {
    FromBytes(d[lo..hi])
  }

  /** The packet a header describes, with whatever payload bytes are there. */
  function Unpack(d: bytes): Packet
    requires |d| >= HEADER_SIZE
  {
    var len := Field(d, 22, 24);
    Packet(Field(d, 0, 4), Field(d, 4, 5), Field(d, 5, 6), Field(d, 6, 8), Field(d, 8, 12), Field(d, 12, 16),
           Field(d, 16, 20), Field(d, 20, 21), Field(d, 21, 22), len, Field(d, 24, 28),
           d[HEADER_SIZE..Min(HEADER_SIZE + len, |d|)])
  }

  function Deserialize(d: bytes): Result<Packet> {
    if |d| < HEADER_SIZE then Err(ValueError)
    else
      var p := Unpack(d);
      if p.magic != MAGIC then Err(ValueError)
      else if |p.payload| != p.payloadLen then Err(ValueError)
      else Ok(p)
  }

  function CreateData(payload: bytes, pathId: nat, pathSeq: nat, globalSeq: nat, gid: nat, index: nat, groupSize: nat,
                      timestamp: nat): Packet {
    Packet(MAGIC, VERSION, 0, pathId, pathSeq, globalSeq, gid, index, groupSize, |payload|, timestamp, payload)
  }

  function CreateFecParity(parity: bytes, pathId: nat, pathSeq: nat, globalSeq: nat, gid: nat, index: nat,
                           groupSize: nat, timestamp: nat): Packet {
    Packet(MAGIC, VERSION, FLAG_FEC_PARITY, pathId, pathSeq, globalSeq, gid, index, groupSize, |parity|, timestamp,
           parity)
  }

  function CreateKeepalive(pathId: nat, pathSeq: nat, timestamp: nat): Packet {
    Packet(MAGIC, VERSION, FLAG_KEEPALIVE, pathId, pathSeq, 0, 0, 0, 0, 0, timestamp, [])
  }

  function CreateControl(control: bytes, pathId: nat, pathSeq: nat, timestamp: nat): Packet {
    Packet(MAGIC, VERSION, FLAG_CONTROL, pathId, pathSeq, 0, 0, 0, 0, |control|, timestamp, control)
  }

  // ---------- round trips ----------

  /** Where each field of the header lies. */
  lemma HeaderFields(p: Packet)
    requires p.InRange()
    ensures var h := Header(p);
            && h[0..4] == ToBytes(p.magic, 4) && h[4..5] == ToBytes(p.version, 1) && h[5..6] == ToBytes(p.flags, 1)
            && h[6..8] == ToBytes(p.pathId, 2) && h[8..12] == ToBytes(p.pathSeq, 4)
            && h[12..16] == ToBytes(p.globalSeq, 4) && h[16..20] == ToBytes(p.gid, 4)
            && h[20..21] == ToBytes(p.index, 1) && h[21..22] == ToBytes(p.groupSize, 1)
            && h[22..24] == ToBytes(p.payloadLen, 2) && h[24..28] == ToBytes(p.timestamp, 4)
  {
    hide ToBytes, Pow256;
  }

  lemma FieldOfPrefix(h: bytes, d: bytes, lo: nat, hi: nat, n: nat)
    requires h <= d && lo <= hi <= |h| && n < Pow256(hi - lo) && h[lo..hi] == ToBytes(n, hi - lo)
    ensures Field(d, lo, hi) == n
  {
    assert d[lo..hi] == h[lo..hi];
    FromToBytes(n, hi - lo);
  }

  /** Parsing any string that starts with a packet's header gives the packet's header fields. */
  lemma UnpackHeader(p: Packet, d: bytes)
    requires p.InRange() && Header(p) <= d
    ensures Unpack(d).(payload := p.payload) == p
  {
    hide ToBytes, Pow256, Header, Field;
    var h := Header(p);
    HeaderFields(p);
    FieldOfPrefix(h, d, 0, 4, p.magic);
    FieldOfPrefix(h, d, 4, 5, p.version);
    FieldOfPrefix(h, d, 5, 6, p.flags);
    FieldOfPrefix(h, d, 6, 8, p.pathId);
    FieldOfPrefix(h, d, 8, 12, p.pathSeq);
    FieldOfPrefix(h, d, 12, 16, p.globalSeq);
    FieldOfPrefix(h, d, 16, 20, p.gid);
    FieldOfPrefix(h, d, 20, 21, p.index);
    FieldOfPrefix(h, d, 21, 22, p.groupSize);
    FieldOfPrefix(h, d, 22, 24, p.payloadLen);
    FieldOfPrefix(h, d, 24, 28, p.timestamp);
  }

  /** Parsing undoes serializing, and ignores trailing bytes. */
  lemma DeserializeSerialize(p: Packet, trailing: bytes)
    requires p.WellFormed()
    ensures Deserialize(Serialize(p).value + trailing) == Ok(p)
  {
    hide Header;
    var d := Header(p) + p.payload + trailing;
    assert Header(p) <= d;
    UnpackHeader(p, d);
    assert d[HEADER_SIZE..HEADER_SIZE + |p.payload|] == p.payload;
  }

  /** A packet cut short anywhere is rejected. */
  lemma TruncatedIsRejected(p: Packet, n: nat)
    requires p.WellFormed() && n < |Serialize(p).value|
    ensures Deserialize(Serialize(p).value[..n]).Err?
  {
    hide Header;
    var d := Serialize(p).value[..n];
    if n >= HEADER_SIZE {
      assert Header(p) <= d;
      UnpackHeader(p, d);
    }
  }

  lemma ToBytesOfField(d: bytes, lo: nat, hi: nat)
    requires lo <= hi <= |d|
    ensures Field(d, lo, hi) < Pow256(hi - lo)
    ensures ToBytes(Field(d, lo, hi), hi - lo) == d[lo..hi]
  {
    ToFromBytes(d[lo..hi]);
  }

  /** The header of an unpacked packet is the header it came from. */
  lemma HeaderUnpack(d: bytes)
    requires |d| >= HEADER_SIZE
    ensures Unpack(d).InRange() && Header(Unpack(d)) == d[..HEADER_SIZE]
  {
    hide ToBytes, Pow256, Field;
    ToBytesOfField(d, 0, 4);
    ToBytesOfField(d, 4, 5);
    ToBytesOfField(d, 5, 6);
    ToBytesOfField(d, 6, 8);
    ToBytesOfField(d, 8, 12);
    ToBytesOfField(d, 12, 16);
    ToBytesOfField(d, 16, 20);
    ToBytesOfField(d, 20, 21);
    ToBytesOfField(d, 21, 22);
    ToBytesOfField(d, 22, 24);
    ToBytesOfField(d, 24, 28);
    assert d[..HEADER_SIZE] == d[0..4] + d[4..5] + d[5..6] + d[6..8] + d[8..12] + d[12..16] + d[16..20]
                               + d[20..21] + d[21..22] + d[22..24] + d[24..28];
  }

  /** Serializing undoes parsing: an accepted datagram is the packet's wire form, plus trailing bytes. */
  lemma SerializeDeserialize(d: bytes)
    requires Deserialize(d).Ok?
    ensures var p := Deserialize(d).value;
            && p.WellFormed() && HEADER_SIZE + p.payloadLen <= |d|
            && Serialize(p) == Some(d[..HEADER_SIZE + p.payloadLen])
  {
    hide Header, Pow256;
    HeaderUnpack(d);
    var p := Unpack(d);
    assert d[..HEADER_SIZE] + d[HEADER_SIZE..HEADER_SIZE + p.payloadLen] == d[..HEADER_SIZE + p.payloadLen];
  }
}
