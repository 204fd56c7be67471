/** Reed-Solomon coding of packets: a code on single columns of bytes lifted to blocks of unequal length. */
module RsFec {
  import opened Collections
  import opened Bytes

  /** A column code: enc yields data followed by parity; dec gets a word and the erased positions. */
  datatype Codec = Codec(enc: bytes -> bytes, dec: (bytes, set<nat>) -> Option<bytes>)

  /** w with zeros at the erased positions. */
  function Erase(w: bytes, erased: set<nat>): (r: bytes)
    ensures |r| == |w|
  {
    if w == [] then [] else
      var n := |w| - 1;
      Erase(w[..n], erased) + [if n in erased then 0 else w[n]]
  }

  ghost predicate Systematic(c: Codec, k: nat, p: nat) {
    && (forall d: bytes {:trigger c.enc(d)} :: |d| == k ==> |c.enc(d)| == k + p && d <= c.enc(d))
    && (forall w: bytes, e: set<nat> {:trigger c.dec(w, e)} :: |w| == k + p && c.dec(w, e).Some?
          ==> |c.dec(w, e).value| == k)
  }

  /** Any k of the k + p positions determine the data, and dec finds it. */
  ghost predicate Lawful(c: Codec, k: nat, p: nat) {
    && Systematic(c, k, p)
    && (forall d: bytes, e: set<nat> {:trigger Erase(c.enc(d), e)} :: |d| == k && e <= Range(0, k + p) && |e| <= p
          ==> c.dec(Erase(c.enc(d), e), e) == Some(d))
  }

  lemma LawfulAt(c: Codec, k: nat, p: nat, d: bytes, e: set<nat>)
    requires Lawful(c, k, p) && |d| == k && e <= Range(0, k + p) && |e| <= p
    ensures c.dec(Erase(c.enc(d), e), e) == Some(d)
  {
  }

  lemma SystematicAt(c: Codec, p: nat, d: bytes)
    requires Systematic(c, |d|, p)
    ensures |c.enc(d)| == |d| + p && forall j :: 0 <= j < |d| ==> c.enc(d)[j] == d[j]
  {
    assert d <= c.enc(d);
  }

  // ---------- what encoding and decoding compute ----------

  /** Byte i of every block, shorter blocks extended with zeros. */
  function Column(blocks: seq<bytes>, i: nat): (r: bytes)
    ensures |r| == |blocks|
  {
    if blocks == [] then [] else Column(blocks[..|blocks| - 1], i) + [At(blocks[|blocks| - 1], i)]
  }

  /** Byte i of parity block r: position k + r of encoded column i. */
  function ParityByte(c: Codec, blocks: seq<bytes>, r: nat, i: nat): byte {
    At(c.enc(Column(blocks, i)), |blocks| + r)
  }

  /** The first n bytes of parity block r. */
  function ParityBytes(c: Codec, blocks: seq<bytes>, r: nat, n: nat): (b: bytes)
    ensures |b| == n
  {
    if n == 0 then [] else ParityBytes(c, blocks, r, n - 1) + [ParityByte(c, blocks, r, n - 1)]
  }

  function ParityBlock(c: Codec, blocks: seq<bytes>, r: nat): bytes {
    ParityBytes(c, blocks, r, MaxLen(blocks))
  }

  function ParityBlocks(c: Codec, p: nat, blocks: seq<bytes>): (b: seq<bytes>)
    ensures |b| == p
  {
    if p == 0 then [] else ParityBlocks(c, p - 1, blocks) + [ParityBlock(c, blocks, p - 1)]
  }

  /** Shard j of a group: its data blocks come first, then the parity blocks. */
  function Shard(c: Codec, blocks: seq<bytes>, j: nat): bytes {
    if j < |blocks| then blocks[j] else ParityBlock(c, blocks, j - |blocks|)
  }

  ghost predicate IsMaxBlock(m: map<nat, bytes>, n: nat) {
    && (exists j :: j in m && |m[j]| == n)
    && (forall j :: j in m ==> |m[j]| <= n)
  }

  lemma {:induction false} MaxBlockExists(m: map<nat, bytes>)
    requires m != map[]
    ensures exists n: nat :: IsMaxBlock(m, n)
    decreases |m|
  {
    var j :| j in m;
    var rest := m - {j};
    assert forall i :: i in m ==> i == j || i in rest;
    if rest == map[] {
      assert IsMaxBlock(m, |m[j]|);
    } else {
      MaxBlockExists(rest);
      var n: nat :| IsMaxBlock(rest, n);
      var i :| i in rest && |rest[i]| == n;
      assert IsMaxBlock(m, if n < |m[j]| then |m[j]| else n);
    }
  }

  /** The length of the longest block of a dictionary. */
  ghost function MaxBlock(m: map<nat, bytes>): (n: nat)
    requires m != map[]
    ensures IsMaxBlock(m, n)
  {
    MaxBlockExists(m);
    var n: nat :| IsMaxBlock(m, n);
    n
  }

  lemma MaxBlockUnique(m: map<nat, bytes>, n: nat)
    requires m != map[] && IsMaxBlock(m, n)
    ensures MaxBlock(m) == n
  {
  }

  /** Column i of the shards present, zero at the other positions. */
  function Codeword(total: nat, shards: map<nat, bytes>, i: nat): (w: bytes)
    ensures |w| == total
  {
    if total == 0 then [] else
      Codeword(total - 1, shards, i) + [if total - 1 in shards then At(shards[total - 1], i) else 0]
  }

  function DecodeColumn(c: Codec, total: nat, shards: map<nat, bytes>, i: nat): Option<bytes> {
    c.dec(Codeword(total, shards, i), Range(0, total) - shards.Keys)
  }

  ghost predicate AllDecodable(c: Codec, total: nat, shards: map<nat, bytes>, n: nat) {
    forall i :: 0 <= i < n ==> DecodeColumn(c, total, shards, i).Some?
  }

  function DecodedByte(c: Codec, total: nat, shards: map<nat, bytes>, r: nat, i: nat): byte {
    var d := DecodeColumn(c, total, shards, i);
    if d.Some? then At(d.value, r) else 0
  }

  /** The first n bytes of decoded data block r. */
  function DecodedBytes(c: Codec, total: nat, shards: map<nat, bytes>, r: nat, n: nat): (b: bytes)
    ensures |b| == n
  {
    if n == 0 then [] else
      DecodedBytes(c, total, shards, r, n - 1) + [DecodedByte(c, total, shards, r, n - 1)]
  }

  /** The first k data blocks decoded, n bytes each. */
  function DecodedBlocks(c: Codec, total: nat, shards: map<nat, bytes>, k: nat, n: nat): (r: seq<bytes>)
    ensures |r| == k
  {
    if k == 0 then [] else DecodedBlocks(c, total, shards, k - 1, n) + [DecodedBytes(c, total, shards, k - 1, n)]
  }

  /** What decoding yields: every data block, at the length of the longest shard present. */
  ghost function Decoded(c: Codec, k: nat, p: nat, shards: map<nat, bytes>): Result<seq<bytes>> {
    if |shards| < k then Err(ReedSolomonError)
    else if shards == map[] then Err(ValueError)
    else if !AllDecodable(c, k + p, shards, MaxBlock(shards)) then Err(ReedSolomonError)
    else Ok(DecodedBlocks(c, k + p, shards, k, MaxBlock(shards)))
  }

  lemma DecodedOk(c: Codec, k: nat, p: nat, shards: map<nat, bytes>, n: nat)
    requires |shards| >= k && shards != map[] && MaxBlock(shards) == n && AllDecodable(c, k + p, shards, n)
    ensures Decoded(c, k, p, shards) == Ok(DecodedBlocks(c, k + p, shards, k, n))
  {
  }

  // The element facts of the recursive definitions above.

  lemma {:induction false} EraseAt(w: bytes, erased: set<nat>, j: nat)
    requires j < |w|
    ensures Erase(w, erased)[j] == if j in erased then 0 else w[j]
  {
    if j < |w| - 1 { EraseAt(w[..|w| - 1], erased, j); }
  }

  lemma {:induction false} ColumnAt(blocks: seq<bytes>, i: nat, j: nat)
    requires j < |blocks|
    ensures Column(blocks, i)[j] == At(blocks[j], i)
  {
    if j < |blocks| - 1 { ColumnAt(blocks[..|blocks| - 1], i, j); }
  }

  lemma {:induction false} CodewordAt(total: nat, shards: map<nat, bytes>, i: nat, j: nat)
    requires j < total
    ensures Codeword(total, shards, i)[j] == if j in shards then At(shards[j], i) else 0
  {
    if j < total - 1 { CodewordAt(total - 1, shards, i, j); }
  }

  lemma {:induction false} ParityBytesAt(c: Codec, blocks: seq<bytes>, r: nat, n: nat, i: nat)
    requires i < n
    ensures ParityBytes(c, blocks, r, n)[i] == ParityByte(c, blocks, r, i)
  {
    if i < n - 1 { ParityBytesAt(c, blocks, r, n - 1, i); }
  }

  lemma {:induction false} ParityBlocksAt(c: Codec, p: nat, blocks: seq<bytes>, r: nat)
    requires r < p
    ensures ParityBlocks(c, p, blocks)[r] == ParityBlock(c, blocks, r)
  {
    if r < p - 1 { ParityBlocksAt(c, p - 1, blocks, r); }
  }

  lemma {:induction false} DecodedBlocksAt(c: Codec, total: nat, shards: map<nat, bytes>, k: nat, n: nat, r: nat)
    requires r < k
    ensures DecodedBlocks(c, total, shards, k, n)[r] == DecodedBytes(c, total, shards, r, n)
  {
    if r < k - 1 { DecodedBlocksAt(c, total, shards, k - 1, n, r); }
  }

  // ---------- the lifting theorem ----------

  /** Some shards of a group, each under its own index. */
  ghost predicate ShardsOf(c: Codec, p: nat, blocks: seq<bytes>, shards: map<nat, bytes>) {
    && shards.Keys <= Range(0, |blocks| + p)
    && forall j :: j in shards ==> shards[j] == Shard(c, blocks, j)
  }

  /** k shards or more fix the padded length: either a parity shard is there, or every data block is. */
  lemma LongestIsPresent(c: Codec, p: nat, blocks: seq<bytes>, shards: map<nat, bytes>)
    requires blocks != [] && ShardsOf(c, p, blocks, shards) && |shards| >= |blocks|
    ensures shards != map[] && MaxBlock(shards) == MaxLen(blocks)
  {
    assert |shards.Keys| == |shards|;
    MaxLenBounds(blocks);
    forall j | j in shards ensures |shards[j]| <= MaxLen(blocks) {
      if j < |blocks| { assert blocks[j] in blocks; }
    }
    if j :| j in shards && j >= |blocks| {
      assert |shards[j]| == MaxLen(blocks);
    } else {
      SubsetSize(shards.Keys, Range(0, |blocks|));
      var b :| b in blocks && |b| == MaxLen(blocks);
      var j :| 0 <= j < |blocks| && blocks[j] == b;
      assert j in Range(0, |blocks|);
      assert j in shards;
    }
    MaxBlockUnique(shards, MaxLen(blocks));
  }

  /** A column of a shard is a position of the encoded column. */
  lemma ShardColumn(c: Codec, p: nat, blocks: seq<bytes>, j: nat, i: nat)
    requires Systematic(c, |blocks|, p) && i < MaxLen(blocks) && j < |blocks| + p
    ensures |c.enc(Column(blocks, i))| == |blocks| + p
    ensures At(Shard(c, blocks, j), i) == c.enc(Column(blocks, i))[j]
  {
    SystematicAt(c, p, Column(blocks, i));
    if j < |blocks| {
      ColumnAt(blocks, i, j);
    } else {
      ParityBytesAt(c, blocks, j - |blocks|, MaxLen(blocks), i);
    }
  }

  /** The columns of the received shards are erased codewords of the columns of the data. */
  lemma ColumnIsErasedCodeword(c: Codec, p: nat, blocks: seq<bytes>, shards: map<nat, bytes>, i: nat)
    requires Systematic(c, |blocks|, p) && i < MaxLen(blocks) && ShardsOf(c, p, blocks, shards)
    ensures Codeword(|blocks| + p, shards, i)
            == Erase(c.enc(Column(blocks, i)), Range(0, |blocks| + p) - shards.Keys)
  {
    var total := |blocks| + p;
    var w := c.enc(Column(blocks, i));
    SystematicAt(c, p, Column(blocks, i));
    forall j | 0 <= j < total && j in shards ensures At(shards[j], i) == w[j] {
      ShardColumn(c, p, blocks, j, i);
    }
    CodewordIs(total, shards, i, w);
  }

  lemma CodewordIs(total: nat, shards: map<nat, bytes>, i: nat, w: bytes)
    requires |w| == total && forall j | 0 <= j < total && j in shards :: At(shards[j], i) == w[j]
    ensures Codeword(total, shards, i) == Erase(w, Range(0, total) - shards.Keys)
  {
    var e := Range(0, total) - shards.Keys;
    var l, r := Codeword(total, shards, i), Erase(w, e);
    forall j | 0 <= j < total ensures l[j] == r[j] {
      CodewordAt(total, shards, i, j);
      EraseAt(w, e, j);
    }
  }

  lemma EnoughPresent(total: nat, k: nat, present: set<nat>)
    requires present <= Range(0, total) && |present| >= k && k <= total
    ensures |Range(0, total) - present| <= total - k
  {
    assert Range(0, total) == (Range(0, total) - present) + present;
  }

  lemma ColumnDecodes(c: Codec, p: nat, blocks: seq<bytes>, shards: map<nat, bytes>, i: nat)
    requires Lawful(c, |blocks|, p) && i < MaxLen(blocks)
    requires ShardsOf(c, p, blocks, shards) && |shards| >= |blocks|
    ensures DecodeColumn(c, |blocks| + p, shards, i) == Some(Column(blocks, i))
  {
    var e := Range(0, |blocks| + p) - shards.Keys;
    assert |shards.Keys| == |shards|;
    EnoughPresent(|blocks| + p, |blocks|, shards.Keys);
    ColumnIsErasedCodeword(c, p, blocks, shards, i);
    LawfulAt(c, |blocks|, p, Column(blocks, i), e);
  }

  lemma {:induction false} DecodedBytesAre(c: Codec, blocks: seq<bytes>, total: nat, shards: map<nat, bytes>, r: nat,
                                           n: nat)
    requires r < |blocks|
    requires forall i | 0 <= i < n :: DecodeColumn(c, total, shards, i) == Some(Column(blocks, i))
    ensures forall i | 0 <= i < n :: DecodedBytes(c, total, shards, r, n)[i] == At(blocks[r], i)
  {
    if n != 0 {
      DecodedBytesAre(c, blocks, total, shards, r, n - 1);
      ColumnAt(blocks, n - 1, r);
    }
  }

  /** Every data block is there, padded to the longest. */
  ghost predicate AllPadded(blocks: seq<bytes>, r: Result<seq<bytes>>) {
    && r.Ok? && |r.value| == |blocks|
    && forall i :: 0 <= i < |blocks| ==> r.value[i] == PadTo(blocks[i], MaxLen(blocks))
  }

  /** Any k or more of the shards of a group give back every data block, padded to the longest. */
  lemma AnyKShardsDetermineTheData(c: Codec, p: nat, blocks: seq<bytes>, shards: map<nat, bytes>)
    requires blocks != [] && Lawful(c, |blocks|, p)
    requires ShardsOf(c, p, blocks, shards) && |shards| >= |blocks|
    ensures AllPadded(blocks, Decoded(c, |blocks|, p, shards))
  {
    hide Lawful, ShardsOf, AllDecodable, DecodedBlocks, AllPadded, MaxLen;
    LongestIsPresent(c, p, blocks, shards);
    PaddedBlocks(c, p, blocks, shards);
    DecodedOk(c, |blocks|, p, shards, MaxLen(blocks));
  }

  lemma PaddedBlocks(c: Codec, p: nat, blocks: seq<bytes>, shards: map<nat, bytes>)
    requires Lawful(c, |blocks|, p) && ShardsOf(c, p, blocks, shards) && |shards| >= |blocks|
    ensures AllDecodable(c, |blocks| + p, shards, MaxLen(blocks))
    ensures AllPadded(blocks, Ok(DecodedBlocks(c, |blocks| + p, shards, |blocks|, MaxLen(blocks))))
  {
    hide Lawful, ShardsOf, DecodedBlocks, Column, MaxLen, DecodeColumn;
    var total := |blocks| + p;
    forall i | 0 <= i < MaxLen(blocks) ensures DecodeColumn(c, total, shards, i) == Some(Column(blocks, i)) {
      ColumnDecodes(c, p, blocks, shards, i);
    }
    forall i | 0 <= i < |blocks|
      ensures DecodedBlocks(c, total, shards, |blocks|, MaxLen(blocks))[i] == PadTo(blocks[i], MaxLen(blocks))
    {
      DecodedBlocksAt(c, total, shards, |blocks|, MaxLen(blocks), i);
      PaddedBlock(c, blocks, total, shards, i);
    }
  }

  lemma PaddedBlock(c: Codec, blocks: seq<bytes>, total: nat, shards: map<nat, bytes>, r: nat)
    requires r < |blocks|
    requires forall i | 0 <= i < MaxLen(blocks) :: DecodeColumn(c, total, shards, i) == Some(Column(blocks, i))
    ensures DecodedBytes(c, total, shards, r, MaxLen(blocks)) == PadTo(blocks[r], MaxLen(blocks))
  {
    MaxLenBounds(blocks);
    assert blocks[r] in blocks;
    DecodedBytesAre(c, blocks, total, shards, r, MaxLen(blocks));
  }

  // ---------- the operations ----------

  /** Column col of equally long blocks, filled row by row. */
  method BuildColumn(blocks: seq<bytes>, padded: seq<bytes>, col: nat) returns (column: bytes)
    requires |padded| == |blocks| && forall j :: 0 <= j < |padded| ==> col < |padded[j]|
    requires forall j :: 0 <= j < |padded| ==> padded[j][col] == At(blocks[j], col)
    ensures column == Column(blocks, col)
  {
    var buf := new byte[|padded|];
    for row := 0 to |padded|
      invariant buf[..row] == Column(blocks[..row], col)
    {
      buf[row] := padded[row][col];
      assert blocks[..row + 1][..row] == blocks[..row];
      assert buf[..row + 1] == buf[..row] + [At(blocks[row], col)];
    }
    assert blocks[..|blocks|] == blocks && buf[..] == buf[..|blocks|];
    return buf[..];
  }

  /** Writes w[offset..] down one column of a byte matrix. */
  method StoreColumn(a: array2<byte>, col: nat, w: bytes, offset: nat)
    requires col < a.Length1 && offset + a.Length0 <= |w|
    modifies a
    ensures forall q | 0 <= q < a.Length0 :: a[q, col] == w[offset + q]
    ensures forall q, i | 0 <= q < a.Length0 && 0 <= i < a.Length1 && i != col :: a[q, i] == old(a[q, i])
  {
    for q := 0 to a.Length0
      invariant forall q' | 0 <= q' < q :: a[q', col] == w[offset + q']
      invariant forall q', i | 0 <= q' < a.Length0 && 0 <= i < a.Length1 && i != col :: a[q', i] == old(a[q', i])
    {
      a[q, col] := w[offset + q];
    }
  }

  /** Row q of a byte matrix as a byte string. */
  function Row(a: array2<byte>, q: nat): (b: bytes)
    requires q < a.Length0
    reads a
    ensures |b| == a.Length1 && forall i | 0 <= i < a.Length1 :: b[i] == a[q, i]
  {
    seq<byte>(a.Length1, i requires 0 <= i < a.Length1 reads a => a[q, i])
  }

  lemma PaddedColumns(blocks: seq<bytes>, padded: seq<bytes>)
    requires |padded| == |blocks|
    requires forall j :: 0 <= j < |blocks| ==> padded[j] == PadTo(blocks[j], MaxLen(blocks))
    ensures forall j :: 0 <= j < |blocks| ==> |padded[j]| == MaxLen(blocks)
    ensures forall j, i | 0 <= j < |blocks| && 0 <= i < MaxLen(blocks) :: padded[j][i] == At(blocks[j], i)
  {
    MaxLenBounds(blocks);
    forall j | 0 <= j < |blocks| ensures |blocks[j]| <= MaxLen(blocks) {
      assert blocks[j] in blocks;
    }
  }

  lemma {:induction false} ParityRow(c: Codec, blocks: seq<bytes>, r: nat, b: bytes, n: nat)
    requires n <= |b| && forall i :: 0 <= i < n ==> b[i] == ParityByte(c, blocks, r, i)
    ensures b[..n] == ParityBytes(c, blocks, r, n)
  {
    if n != 0 {
      ParityRow(c, blocks, r, b, n - 1);
      assert b[..n] == b[..n - 1] + [b[n - 1]];
    }
  }

  method FillParity(c: Codec, p: nat, dataBlocks: seq<bytes>, padded: seq<bytes>, parity: array2<byte>)
    requires Systematic(c, |dataBlocks|, p)
    requires parity.Length0 == p && parity.Length1 == MaxLen(dataBlocks) && |padded| == |dataBlocks|
    requires forall j :: 0 <= j < |padded| ==> padded[j] == PadTo(dataBlocks[j], MaxLen(dataBlocks))
    modifies parity
    ensures forall q, i | 0 <= q < p && 0 <= i < parity.Length1 :: parity[q, i] == ParityByte(c, dataBlocks, q, i)
  {
    PaddedColumns(dataBlocks, padded);
    for col := 0 to parity.Length1
      invariant forall q, i | 0 <= q < p && 0 <= i < col :: parity[q, i] == ParityByte(c, dataBlocks, q, i)
    {
      var column := BuildColumn(dataBlocks, padded, col);
      var encoded := c.enc(column);
      SystematicAt(c, p, column);
      StoreColumn(parity, col, encoded, |dataBlocks|);
    }
  }

  method Encode(c: Codec, k: nat, p: nat, dataBlocks: seq<bytes>) returns (r: Result<seq<bytes>>)
    requires Systematic(c, k, p)
    ensures |dataBlocks| != k || k == 0 ==> r == Err(ValueError)
    ensures |dataBlocks| == k > 0 ==> r == Ok(ParityBlocks(c, p, dataBlocks))
  {
    if |dataBlocks| != k || k == 0 {
      return Err(ValueError);
    }
    var maxLen := MaxLen(dataBlocks);
    var padded := seq(k, j requires 0 <= j < k => PadTo(dataBlocks[j], maxLen));
    var parity := new byte[p, maxLen];
    FillParity(c, p, dataBlocks, padded, parity);
    var blocks := ParityRows(c, dataBlocks, parity);
    return Ok(blocks);
  }

  method ParityRows(c: Codec, dataBlocks: seq<bytes>, parity: array2<byte>) returns (blocks: seq<bytes>)
    requires parity.Length1 == MaxLen(dataBlocks)
    requires forall q, i | 0 <= q < parity.Length0 && 0 <= i < parity.Length1 ::
               parity[q, i] == ParityByte(c, dataBlocks, q, i)
    ensures blocks == ParityBlocks(c, parity.Length0, dataBlocks)
  {
    blocks := [];
    for q := 0 to parity.Length0
      invariant blocks == ParityBlocks(c, q, dataBlocks)
    {
      var row := Row(parity, q);
      ParityRow(c, dataBlocks, q, row, parity.Length1);
      assert row[..parity.Length1] == row;
      blocks := blocks + [row];
    }
  }

  method LongestBlock(shards: map<nat, bytes>) returns (n: nat)
    requires shards != map[]
    ensures n == MaxBlock(shards)
  {
    n := 0;
    var todo := shards.Keys;
    while todo != {}
      invariant todo <= shards.Keys
      invariant forall j :: j in shards && j !in todo ==> |shards[j]| <= n
      invariant n == 0 || exists j :: j in shards && |shards[j]| == n
      decreases |todo|
    {
      var j :| j in todo;
      todo := todo - {j};
      if |shards[j]| > n { n := |shards[j]|; }
    }
  }

  /** One column of the received shards, with zeros at the missing positions. */
  method BuildCodeword(total: nat, shards: map<nat, bytes>, maxLen: nat, col: nat) returns (w: bytes)
    requires forall j :: j in shards ==> |shards[j]| <= maxLen
    requires col < maxLen
    ensures w == Codeword(total, shards, col)
  {
    var padded: map<nat, bytes> := map j | j in shards :: PadTo(shards[j], maxLen);
    var codeword := new byte[total];
    for idx := 0 to total
      invariant codeword[..idx] == Codeword(idx, shards, col)
    {
      codeword[idx] := if idx in padded then padded[idx][col] else 0;
      assert codeword[..idx + 1] == codeword[..idx] + [codeword[idx]];
    }
    assert codeword[..] == codeword[..total];
    return codeword[..];
  }

  lemma {:induction false} DecodedRow(c: Codec, total: nat, shards: map<nat, bytes>, r: nat, b: bytes, n: nat)
    requires n <= |b| && forall i :: 0 <= i < n ==> b[i] == DecodedByte(c, total, shards, r, i)
    ensures b[..n] == DecodedBytes(c, total, shards, r, n)
  {
    if n != 0 {
      DecodedRow(c, total, shards, r, b, n - 1);
      assert b[..n] == b[..n - 1] + [b[n - 1]];
    }
  }

  lemma SystematicDecode(c: Codec, k: nat, p: nat, w: bytes, e: set<nat>)
    requires Systematic(c, k, p) && |w| == k + p && c.dec(w, e).Some?
    ensures |c.dec(w, e).value| == k
  {
  }

  /** Decodes column after column until one fails. */
  method DecodeColumns(c: Codec, k: nat, p: nat, shards: map<nat, bytes>, recovered: array2<byte>)
    returns (ok: bool)
    requires Systematic(c, k, p) && shards != map[]
    requires recovered.Length0 == k && recovered.Length1 == MaxBlock(shards)
    modifies recovered
    ensures ok <==> AllDecodable(c, k + p, shards, recovered.Length1)
    ensures ok ==> forall q, i | 0 <= q < k && 0 <= i < recovered.Length1 ::
                     recovered[q, i] == DecodedByte(c, k + p, shards, q, i)
  {
    var total := k + p;
    var erased := Range(0, total) - shards.Keys;
    for col := 0 to recovered.Length1
      invariant forall i | 0 <= i < col :: DecodeColumn(c, total, shards, i).Some?
      invariant forall q, i | 0 <= q < k && 0 <= i < col :: recovered[q, i] == DecodedByte(c, total, shards, q, i)
    {
      var codeword := BuildCodeword(total, shards, recovered.Length1, col);
      var decoded := c.dec(codeword, erased);
      assert decoded == DecodeColumn(c, total, shards, col);
      if decoded.None? {
        return false;
      }
      SystematicDecode(c, k, p, codeword, erased);
      StoreColumn(recovered, col, decoded.value, 0);
    }
    return true;
  }

  method Decode(c: Codec, k: nat, p: nat, shards: map<nat, bytes>) returns (r: Result<seq<bytes>>)
    requires Systematic(c, k, p)
    ensures r == Decoded(c, k, p, shards)
  {
    if |shards| < k {
      return Err(ReedSolomonError);
    }
    if |shards| == 0 {
      return Err(ValueError);
    }
    var maxLen := LongestBlock(shards);
    var recovered := new byte[k, maxLen];
    var ok := DecodeColumns(c, k, p, shards, recovered);
    if !ok {
      return Err(ReedSolomonError);
    }
    DecodedOk(c, k, p, shards, maxLen);
    var blocks := DecodedRows(c, k + p, shards, recovered);
    return Ok(blocks);
  }

  method DecodedRows(c: Codec, total: nat, shards: map<nat, bytes>, recovered: array2<byte>)
    returns (blocks: seq<bytes>)
    requires forall q, i | 0 <= q < recovered.Length0 && 0 <= i < recovered.Length1 ::
               recovered[q, i] == DecodedByte(c, total, shards, q, i)
    ensures blocks == DecodedBlocks(c, total, shards, recovered.Length0, recovered.Length1)
  {
    blocks := [];
    for q := 0 to recovered.Length0
      invariant blocks == DecodedBlocks(c, total, shards, q, recovered.Length1)
    {
      var row := Row(recovered, q);
      DecodedRow(c, total, shards, q, row, recovered.Length1);
      assert row[..recovered.Length1] == row;
      blocks := blocks + [row];
    }
  }
}
