/** XOR parity: encoding a group, recovering one lost packet, and the transmitting encoder. */
module XorFec {
  import opened Collections
  import opened Bytes
  import opened GroupStream

  /** XOR of all the strings of a sequence. */
  function XorSeq(ps: seq<bytes>): (r: bytes)
    ensures |r| == MaxLen(ps)
  {
    if ps == [] then [] else XorBytes(XorSeq(ps[..|ps| - 1]), ps[|ps| - 1])
  }

  /** XOR of column i of a sequence of strings, each extended with zeros. */
  function ColumnXor(ps: seq<bytes>, i: nat): byte {
    if ps == [] then 0 else XorByte(ColumnXor(ps[..|ps| - 1], i), At(ps[|ps| - 1], i))
  }

  lemma {:induction false} ParityColumns(ps: seq<bytes>, i: nat)
    ensures At(XorSeq(ps), i) == ColumnXor(ps, i)
  {
    if ps != [] {
      ParityColumns(ps[..|ps| - 1], i);
      XorBytesAt(XorSeq(ps[..|ps| - 1]), ps[|ps| - 1], i);
    }
  }

  /** XOR of the entries of m at the keys in s, taken in some order. */
  ghost function XorOver(m: map<nat, bytes>, s: set<nat>): bytes
    requires s <= m.Keys
  {
    if s == {} then [] else
      var k :| k in s;
      XorBytes(XorOver(m, s - {k}), m[k])
  }

  /** The order does not matter: any key may be taken last. */
  lemma {:induction false} XorOverTake(m: map<nat, bytes>, s: set<nat>, k: nat)
    requires s <= m.Keys && k in s
    ensures XorOver(m, s) == XorBytes(XorOver(m, s - {k}), m[k])
  {
    var j :| j in s && XorOver(m, s) == XorBytes(XorOver(m, s - {j}), m[j]);
    if j != k {
      var rest := XorOver(m, s - {j} - {k});
      XorOverTake(m, s - {j}, k);
      XorOverTake(m, s - {k}, j);
      assert s - {j} - {k} == s - {k} - {j};
      XorBytesAssoc(rest, m[k], m[j]);
      XorBytesComm(m[k], m[j]);
      XorBytesAssoc(rest, m[j], m[k]);
    }
  }

  lemma {:induction false} XorOverAgree(m: map<nat, bytes>, m': map<nat, bytes>, s: set<nat>)
    requires s <= m.Keys && s <= m'.Keys
    requires forall k :: k in s ==> m[k] == m'[k]
    ensures XorOver(m, s) == XorOver(m', s)
  {
    if s != {} {
      var k :| k in s;
      XorOverTake(m, s, k);
      XorOverTake(m', s, k);
      XorOverAgree(m, m', s - {k});
    }
  }

  /** A group as an index-to-payload dictionary. */
  function AsMap(ps: seq<bytes>): map<nat, bytes> {
    map i: nat | 0 <= i < |ps| :: ps[i]
  }

  lemma {:induction false} XorOverAll(ps: seq<bytes>, n: nat)
    requires n <= |ps|
    ensures Range(0, n) <= AsMap(ps).Keys
    ensures XorOver(AsMap(ps), Range(0, n)) == XorSeq(ps[..n])
  {
    if n != 0 {
      XorOverAll(ps, n - 1);
      XorOverTake(AsMap(ps), Range(0, n), n - 1);
      assert Range(0, n) - {n - 1} == Range(0, n - 1);
      assert ps[..n][..n - 1] == ps[..n - 1];
    }
  }

  lemma OthersAndMissing(ps: seq<bytes>, received: map<nat, bytes>, missing: nat)
    requires missing < |ps|
    requires received.Keys - {missing} == Range(0, |ps|) - {missing}
    requires forall i :: i in received.Keys - {missing} ==> received[i] == ps[i]
    ensures XorSeq(ps) == XorBytes(XorOver(received, received.Keys - {missing}), ps[missing])
  {
    hide XorSeq, XorBytes, XorOver, Range;
    var all := AsMap(ps);
    XorOverAll(ps, |ps|);
    assert ps[..|ps|] == ps;
    XorOverTake(all, Range(0, |ps|), missing);
    XorOverAgree(received, all, received.Keys - {missing});
  }

  /** Parity XOR all other packets of the group is the missing packet, padded to the parity's length. */
  lemma RecoverMissing(ps: seq<bytes>, received: map<nat, bytes>, missing: nat)
    requires missing < |ps|
    requires received.Keys - {missing} == Range(0, |ps|) - {missing}
    requires forall i :: i in received.Keys - {missing} ==> received[i] == ps[i]
    ensures XorBytes(XorSeq(ps), XorOver(received, received.Keys - {missing})) == PadTo(ps[missing], MaxLen(ps))
  {
    hide XorSeq, XorBytes, XorOver, MaxLen;
    var others := XorOver(received, received.Keys - {missing});
    OthersAndMissing(ps, received, missing);
    XorBytesComm(others, ps[missing]);
    assert XorSeq(ps) == XorBytes(ps[missing], others);
    XorBytesCancel(ps[missing], others);
  }

  // ---------- stateless operations ----------

  method EncodeGroup(groupSize: nat, packets: seq<bytes>) returns (r: Result<bytes>)
    ensures |packets| != groupSize ==> r == Err(ValueError)
    ensures |packets| == groupSize == 0 ==> r == Err(IndexError)
    ensures |packets| == groupSize > 0 ==> r == Ok(XorSeq(packets))
  {
    if |packets| != groupSize {
      return Err(ValueError);
    }
    if |packets| == 0 {
      return Err(IndexError);
    }
    var parity := packets[0];
    XorBytesUnit(packets[0]);
    assert packets[..1][..0] == [];
    for i := 1 to |packets|
      invariant parity == XorSeq(packets[..i])
    {
      assert packets[..i + 1][..i] == packets[..i];
      FastXorIsXor(parity, packets[i]);
      parity := FastXorBytes(parity, packets[i]);
    }
    assert packets[..|packets|] == packets;
    return Ok(parity);
  }

  /** The dictionary is walked in an arbitrary order. */
  method DecodeRecover(received: map<nat, bytes>, parity: bytes, missingIndex: nat) returns (r: bytes)
    ensures r == XorBytes(parity, XorOver(received, received.Keys - {missingIndex}))
  {
    r := parity;
    XorBytesUnit(parity);
    var todo := received.Keys;
    ghost var done: set<nat> := {};
    while todo != {}
      invariant todo <= received.Keys
      invariant done == received.Keys - todo - {missingIndex}
      invariant r == XorBytes(parity, XorOver(received, done))
      decreases |todo|
    {
      var idx :| idx in todo;
      todo := todo - {idx};
      if idx != missingIndex {
        FastXorIsXor(r, received[idx]);
        r := FastXorBytes(r, received[idx]);
        XorOverPut(received, parity, done, idx);
        done := done + {idx};
      }
    }
    assert done == received.Keys - {missingIndex};
  }

  lemma XorOverPut(m: map<nat, bytes>, start: bytes, s: set<nat>, k: nat)
    requires s <= m.Keys && k in m && k !in s
    ensures XorBytes(start, XorOver(m, s + {k})) == XorBytes(XorBytes(start, XorOver(m, s)), m[k])
  {
    XorOverTake(m, s + {k}, k);
    assert s + {k} - {k} == s;
    XorBytesAssoc(start, XorOver(m, s), m[k]);
  }

  /** Exactly one index of the group is missing and the parity is there. */
  function Missing(groupSize: nat, received: set<nat>): set<nat> {
    Range(0, groupSize) - received
  }

  predicate CanRecover(groupSize: nat, received: set<nat>, hasParity: bool) {
    |Missing(groupSize, received)| == 1 && hasParity
  }

  // ---------- encoder ----------

  class XorFecEncoder {
    const groupSize: nat
    var currentGroup: seq<bytes>
    var groupId: nat
    ghost var stream: Stream

    ghost predicate Valid()
      reads this
    {
      && groupSize >= 1
      && stream.Valid(groupSize)
      && stream.current == currentGroup
      && |stream.done| == groupId
    }

    constructor (groupSize: nat)
      requires groupSize >= 1
      ensures Valid() && this.groupSize == groupSize && stream == EMPTY
    {
      this.groupSize := groupSize;
      currentGroup := [];
      groupId := 0;
      stream := EMPTY;
    }

    method AddPacket(payload: bytes) returns (gid: nat, fecIndex: nat, parity: Option<bytes>)
      requires Valid()
      modifies this
      ensures Valid() && stream == old(stream).Feed(groupSize, payload)
      ensures gid == |old(stream).done| && fecIndex == |old(stream).current|
      ensures stream.Group(gid) == old(stream).current + [payload]
      ensures parity == if fecIndex + 1 == groupSize then Some(XorSeq(stream.Group(gid))) else None
    {
      gid := groupId;
      fecIndex := |currentGroup|;
      currentGroup := currentGroup + [payload];
      parity := None;
      if |currentGroup| == groupSize {
        var r := EncodeGroup(groupSize, currentGroup);
        parity := Some(r.value);
        currentGroup := [];
        groupId := groupId + 1;
      }
      FeedExtends(stream, groupSize, payload);
      stream := stream.Feed(groupSize, payload);
    }
  }

  /** A packet the encoder has put out: data by index, or the parity of a completed group. */
  ghost predicate Emitted(n: nat, st: Stream, gid: nat, index: nat, isParity: bool, payload: bytes) {
    if isParity then gid < |st.done| && index == n && payload == XorSeq(st.done[gid])
    else index < |st.Group(gid)| && payload == st.Group(gid)[index]
  }

  lemma EmittedLater(n: nat, st: Stream, later: Stream, gid: nat, index: nat, isParity: bool, payload: bytes)
    requires st.ExtendedBy(later) && Emitted(n, st, gid, index, isParity, payload)
    ensures Emitted(n, later, gid, index, isParity, payload)
  {
    if gid < |st.done| { assert later.done[gid] == st.done[gid]; }
  }
}
