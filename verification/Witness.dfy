/** A group whose columns are zero, every unit word and one word of choice: what cannot be one of its payloads. */
module Witness {
  import opened Bytes
  import opened RsFec
  import opened CodeDistance
  import XF = XorFec
  import CC = ColumnCodes

  function Zero(k: nat): (w: bytes)
    ensures |w| == k && forall i :: 0 <= i < k ==> w[i] == 0
  {
    if k == 0 then [] else Zero(k - 1) + [0]
  }

  /** The word of k bytes with a 1 at position j. */
  function Unit(k: nat, j: nat): (w: bytes)
    ensures |w| == k && forall i :: 0 <= i < k ==> w[i] == if i == j then 1 else 0
  {
    if k == 0 then [] else Unit(k - 1, j) + [if k - 1 == j then 1 else 0]
  }

  /** Payload j of the group for the word b. */
  function Payload(b: bytes, j: nat): (w: bytes)
    requires j < |b|
    ensures |w| == |b| + 2
  {
    [0] + Unit(|b|, j) + [b[j]]
  }

  /** The first n payloads. */
  function PayloadsTo(b: bytes, n: nat): (g: seq<bytes>)
    requires n <= |b|
    ensures |g| == n && forall j :: 0 <= j < n ==> g[j] == Payload(b, j)
  {
    if n == 0 then [] else PayloadsTo(b, n - 1) + [Payload(b, n - 1)]
  }

  function Group(b: bytes): (g: seq<bytes>)
    ensures |g| == |b| && forall j :: 0 <= j < |g| ==> g[j] == Payload(b, j) && |g[j]| == |b| + 2
  {
    PayloadsTo(b, |b|)
  }

  /** Column i: zero, then the unit words, then b. */
  function Word(b: bytes, i: nat): (w: bytes)
    requires i < |b| + 2
    ensures |w| == |b|
  {
    if i == 0 then Zero(|b|) else if i <= |b| then Unit(|b|, i - 1) else b
  }

  lemma ColumnIsWord(b: bytes, i: nat)
    requires i < |b| + 2
    ensures Column(Group(b), i) == Word(b, i)
  {
    forall j | 0 <= j < |b| ensures Column(Group(b), i)[j] == Word(b, i)[j] {
      ColumnAt(Group(b), i, j);
      PayloadAt(b, j, i);
    }
  }

  lemma PayloadAt(b: bytes, j: nat, i: nat)
    requires j < |b| && i < |b| + 2
    ensures At(Payload(b, j), i) == Word(b, i)[j]
  {
  }

  lemma {:induction false} EqualLengths(g: seq<bytes>, n: nat)
    requires forall j :: 0 <= j < |g| ==> |g[j]| == n
    ensures MaxLen(g) == if g == [] then 0 else n
  {
    if g != [] { EqualLengths(g[..|g| - 1], n); }
  }

  lemma GroupLength(b: bytes)
    requires b != []
    ensures MaxLen(Group(b)) == |b| + 2
  {
    EqualLengths(Group(b), |b| + 2);
  }

  /** A byte string of the common length is an input, padded or not, only if it is one of the payloads. */
  lemma PaddedInputIsPayload(b: bytes, y: bytes)
    requires |y| == |b| + 2 && forall j :: 0 <= j < |b| ==> y != Payload(b, j)
    ensures forall i, n: nat :: 0 <= i < |b| ==> y != PadTo(Group(b)[i], n)
  {
  }

  // ---------- sums ----------

  lemma {:induction false} SumOfZero(k: nat)
    ensures CC.Sum(Zero(k)) == 0
  {
    if k != 0 {
      SumOfZero(k - 1);
      assert Zero(k)[..k - 1] == Zero(k - 1);
      XorZero(0);
    }
  }

  lemma {:induction false} SumOfUnit(k: nat, j: nat)
    ensures CC.Sum(Unit(k, j)) == if j < k then 1 else 0
  {
    hide BitXor;
    if k != 0 {
      SumOfUnit(k - 1, j);
      assert Unit(k, j)[..k - 1] == Unit(k - 1, j);
      XorZero(0);
      XorZero(1);
    }
  }

  lemma FirstOfUnit(k: nat, j: nat, h: nat)
    requires h <= k
    ensures Unit(k, j)[..h] == Unit(h, j) && Zero(k)[..h] == Zero(h)
  {
  }

  lemma {:induction false} ColumnOfFirst(blocks: seq<bytes>, h: nat, i: nat)
    requires h <= |blocks|
    ensures Column(blocks[..h], i) == Column(blocks, i)[..h]
  {
    if h < |blocks| {
      var n := |blocks| - 1;
      ColumnOfFirst(blocks[..n], h, i);
      assert blocks[..n][..h] == blocks[..h];
    } else {
      assert blocks[..h] == blocks;
    }
  }

  // ---------- what an XOR decoder makes of Reed-Solomon parity ----------

  /** Parity block q XOR the first h payloads. */
  function Leftover(c: Codec, b: bytes, q: nat, h: nat): bytes
    requires h <= |b|
  {
    XorBytes(XF.XorSeq(Group(b)[..h]), ParityBlock(c, Group(b), q))
  }

  lemma HeldColumn(b: bytes, h: nat, i: nat)
    requires b != [] && h <= |b| && i < |b| + 2
    ensures |XF.XorSeq(Group(b)[..h])| <= |b| + 2
    ensures At(XF.XorSeq(Group(b)[..h]), i) == CC.Sum(Word(b, i)[..h])
  {
    var g := Group(b);
    EqualLengths(g[..h], |b| + 2);
    hide XF.XorSeq, Column, Group;
    ColumnIsWord(b, i);
    ColumnOfFirst(g, h, i);
    XF.ParityColumns(g[..h], i);
    CC.SumOfColumn(g[..h], i);
  }

  lemma ParityColumn(c: Codec, p: nat, b: bytes, q: nat, i: nat)
    requires Systematic(c, |b|, p) && b != [] && q < p && i < |b| + 2
    ensures |ParityBlock(c, Group(b), q)| == |b| + 2
    ensures |c.enc(Word(b, i))| == |b| + p
    ensures At(ParityBlock(c, Group(b), q), i) == c.enc(Word(b, i))[|b| + q]
  {
    GroupLength(b);
    hide Column, Group;
    SystematicAt(c, p, Word(b, i));
    ColumnIsWord(b, i);
    ParityBytesAt(c, Group(b), q, |b| + 2, i);
  }

  lemma LeftoverAt(c: Codec, p: nat, b: bytes, q: nat, h: nat, i: nat)
    requires Systematic(c, |b|, p) && b != [] && h <= |b| && q < p && i < |b| + 2
    ensures |Leftover(c, b, q, h)| == |b| + 2
    ensures |c.enc(Word(b, i))| == |b| + p
    ensures At(Leftover(c, b, q, h), i) == XorByte(CC.Sum(Word(b, i)[..h]), c.enc(Word(b, i))[|b| + q])
  {
    hide BitXor, XF.XorSeq, ParityBlock, Group, Word, Systematic, CC.Sum;
    HeldColumn(b, h, i);
    ParityColumn(c, p, b, q, i);
    XorBytesAt(XF.XorSeq(Group(b)[..h]), ParityBlock(c, Group(b), q), i);
  }

  lemma SolveXor(s: byte, x: byte, y: byte)
    requires XorByte(s, x) == y
    ensures x == XorByte(s, y)
  {
    XorAssoc(s, s, x);
    XorSelf(s);
    XorZero(x);
  }

  /** If the leftover is payload j, every column fixes a parity byte. */
  lemma ParityByteFixed(c: Codec, p: nat, b: bytes, q: nat, h: nat, j: nat, i: nat)
    requires Systematic(c, |b|, p) && h <= |b| && q < p && j < |b| && i < |b| + 2
    requires Leftover(c, b, q, h) == Payload(b, j)
    ensures |c.enc(Word(b, i))| == |b| + p
    ensures c.enc(Word(b, i))[|b| + q] == XorByte(CC.Sum(Word(b, i)[..h]), Word(b, i)[j])
  {
    hide BitXor, Leftover, Payload, Word;
    LeftoverAt(c, p, b, q, h, i);
    PayloadAt(b, j, i);
    SolveXor(CC.Sum(Word(b, i)[..h]), c.enc(Word(b, i))[|b| + q], Word(b, i)[j]);
  }

  /** Payload j < h would make two codewords that differ only in data byte j agree in parity byte q. */
  lemma LeftoverIsNotHeld(c: Codec, p: nat, b: bytes, q: nat, h: nat, j: nat)
    requires Lawful(c, |b|, p) && h <= |b| && q < p && j < h
    ensures Leftover(c, b, q, h) != Payload(b, j)
  {
    hide Leftover, Payload, Lawful, Zero, Unit;
    LawfulIsSystematic(c, |b|, p);
    if Leftover(c, b, q, h) == Payload(b, j) {
      BothParityBytesZero(c, p, b, q, h, j);
      assert Unit(|b|, j)[j] == 1;
      ParityDiffers(c, |b|, p, q, Zero(|b|), Unit(|b|, j), j);
    }
  }

  lemma BothParityBytesZero(c: Codec, p: nat, b: bytes, q: nat, h: nat, j: nat)
    requires Systematic(c, |b|, p) && h <= |b| && q < p && j < h
    requires Leftover(c, b, q, h) == Payload(b, j)
    ensures |c.enc(Zero(|b|))| == |b| + p && c.enc(Zero(|b|))[|b| + q] == 0
    ensures |c.enc(Unit(|b|, j))| == |b| + p && c.enc(Unit(|b|, j))[|b| + q] == 0
  {
    hide Leftover, Payload, Systematic, BitXor, CC.Sum, Zero, Unit;
    ParityByteFixed(c, p, b, q, h, j, 0);
    ParityByteFixed(c, p, b, q, h, j, j + 1);
    FirstOfUnit(|b|, j, h);
    SumOfZero(h);
    SumOfUnit(h, j);
    XorSelf(0);
    XorSelf(1);
  }

  /** The leftover of all payloads but the last is the last one only if the parity of b is its exclusive or. */
  lemma LeftoverIsNotLast(c: Codec, b: bytes)
    requires Lawful(c, |b|, 1) && b != [] && At(c.enc(b), |b|) != CC.Sum(b)
    ensures Leftover(c, b, 0, |b| - 1) != Payload(b, |b| - 1)
  {
    hide Leftover, Payload, Lawful, CC.Sum, Word, BitXor;
    var k := |b|;
    LastWord(b);
    LawfulIsSystematic(c, k, 1);
    if Leftover(c, b, 0, k - 1) == Payload(b, k - 1) {
      ParityByteFixed(c, 1, b, 0, k - 1, k - 1, k + 1);
    }
  }

  lemma LastWord(b: bytes)
    requires b != []
    ensures Word(b, |b| + 1) == b
    ensures CC.Sum(b) == XorByte(CC.Sum(b[..|b| - 1]), b[|b| - 1])
  {
  }

  lemma LawfulIsSystematic(c: Codec, k: nat, p: nat)
    requires Lawful(c, k, p)
    ensures Systematic(c, k, p)
  {
  }

  /** No parity block of a lawful code with two data positions or more is one of the payloads. */
  lemma ParityIsNotPayload(c: Codec, p: nat, b: bytes, q: nat, j: nat)
    requires Lawful(c, |b|, p) && |b| >= 2 && q < p && j < |b|
    ensures ParityBlock(c, Group(b), q) != Payload(b, j)
  {
    if ParityBlock(c, Group(b), q) == Payload(b, j) {
      var m := if j == 0 then 1 else 0;
      assert Zero(|b|)[j] == 0 == Unit(|b|, m)[j] && Unit(|b|, m)[m] == 1;
      assert Word(b, 0) == Zero(|b|) && Word(b, m + 1) == Unit(|b|, m);
      hide ParityBlock, Payload, Group, Zero, Unit, Lawful, Word;
      ParityColumn(c, p, b, q, 0);
      ParityColumn(c, p, b, q, m + 1);
      PayloadAt(b, j, 0);
      PayloadAt(b, j, m + 1);
      ParityDiffers(c, |b|, p, q, Zero(|b|), Unit(|b|, m), m);
    }
  }

  /** With two parities, or one that is not the exclusive or of b, the leftover is none of the payloads. */
  lemma LeftoverIsNoPayload(c: Codec, p: nat, b: bytes)
    requires Lawful(c, |b|, p) && b != [] && 1 <= p <= 2
    requires p == 1 ==> At(c.enc(b), |b|) != CC.Sum(b)
    ensures |Leftover(c, b, p - 1, |b| + p - 2)| == |b| + 2
    ensures forall j :: 0 <= j < |b| ==> Leftover(c, b, p - 1, |b| + p - 2) != Payload(b, j)
  {
    hide Leftover, Payload, CC.Sum;
    var h := |b| + p - 2;
    assert |Leftover(c, b, p - 1, h)| == |b| + 2 by { LeftoverAt(c, p, b, p - 1, h, 0); }
    forall j | 0 <= j < |b| ensures Leftover(c, b, p - 1, h) != Payload(b, j) {
      if j < h { LeftoverIsNotHeld(c, p, b, p - 1, h, j); } else { LeftoverIsNotLast(c, b); }
    }
  }
}
