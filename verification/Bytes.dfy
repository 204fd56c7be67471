/** Byte strings, big-endian integers and the XOR of byte strings of unequal length. */
module Bytes {
  import opened Collections

  type byte = b: int | 0 <= b < 256
  type bytes = seq<byte>

  function Zeros(n: nat): bytes {
    seq(n, _ => 0)
  }

  /** Zero-padding on the right, up to n bytes. */
  function PadTo(b: bytes, n: nat): (r: bytes)
    ensures |r| == Max(|b|, n) && b <= r
  {
    if |b| < n then b + Zeros(n - |b|) else b
  }

  /** Byte i of b extended with infinitely many zeros. */
  function At(b: bytes, i: nat): byte {
    if i < |b| then b[i] else 0
  }

  /** The length of the longest string. */
  function MaxLen(ps: seq<bytes>): nat {
    if ps == [] then 0 else Max(MaxLen(ps[..|ps| - 1]), |ps[|ps| - 1]|)
  }

  lemma {:induction false} MaxLenBounds(ps: seq<bytes>)
    ensures forall p :: p in ps ==> |p| <= MaxLen(ps)
    ensures ps != [] ==> exists p :: p in ps && |p| == MaxLen(ps)
  {
    if ps != [] {
      var init, last := ps[..|ps| - 1], ps[|ps| - 1];
      MaxLenBounds(init);
      assert ps == init + [last];
      assert last in ps;
      if init != [] {
        var p :| p in init && |p| == MaxLen(init);
        assert p in ps;
      }
    }
  }

  // ---------- exclusive or on integers ----------

  /** The integer operator ^ on non-negative numbers, bit by bit. */
  function BitXor(a: nat, b: nat): nat
    decreases a + b
  {
    if a == 0 && b == 0 then 0
    else (if a % 2 == b % 2 then 0 else 1) + 2 * BitXor(a / 2, b / 2)
  }

  lemma XorOfBits()
    ensures BitXor(0, 0) == 0 && BitXor(0, 1) == 1 && BitXor(1, 0) == 1 && BitXor(1, 1) == 0
  {
  }

  lemma {:induction false} XorComm(a: nat, b: nat)
    ensures BitXor(a, b) == BitXor(b, a)
    decreases a + b
  {
    if a != 0 || b != 0 { XorComm(a / 2, b / 2); }
  }

  lemma {:induction false} XorSelf(a: nat)
    ensures BitXor(a, a) == 0
  {
    if a != 0 { XorSelf(a / 2); }
  }

  lemma {:induction false} XorZero(a: nat)
    ensures BitXor(a, 0) == a == BitXor(0, a)
  {
    if a != 0 { XorZero(a / 2); }
  }

  /** One bit of the result: what BitXor's recursion exposes. */
  lemma XorBits(a: nat, b: nat)
    ensures BitXor(a, b) % 2 == if a % 2 == b % 2 then 0 else 1
    ensures BitXor(a, b) / 2 == BitXor(a / 2, b / 2)
  {
  }

  lemma {:induction false} XorAssoc(a: nat, b: nat, c: nat)
    ensures BitXor(BitXor(a, b), c) == BitXor(a, BitXor(b, c))
    decreases a + b + c
  {
    if a != 0 || b != 0 || c != 0 {
      var ab, bc := BitXor(a, b), BitXor(b, c);
      XorBits(a, b);
      XorBits(b, c);
      XorAssoc(a / 2, b / 2, c / 2);
      SameBits(ab, c, a, bc);
    }
  }

  /** Two exclusive ors agree when their lowest bits and their halves do. */
  lemma SameBits(x: nat, y: nat, u: nat, v: nat)
    requires (x % 2 == y % 2) <==> (u % 2 == v % 2)
    requires BitXor(x / 2, y / 2) == BitXor(u / 2, v / 2)
    ensures BitXor(x, y) == BitXor(u, v)
  {
    XorBits(x, y);
    XorBits(u, v);
  }

  function Pow2(k: nat): (p: nat)
    ensures p > 0
  {
    if k == 0 then 1 else 2 * Pow2(k - 1)
  }

  lemma {:induction false} XorBound(a: nat, b: nat, k: nat)
    requires a < Pow2(k) && b < Pow2(k)
    ensures BitXor(a, b) < Pow2(k)
  {
    if k != 0 {
      XorBits(a, b);
      XorBound(a / 2, b / 2, k - 1);
    }
  }

  /** XOR works on the low k bits and on the rest independently. */
  lemma {:induction false} XorSplit(a: nat, b: nat, u: nat, v: nat, k: nat)
    requires u < Pow2(k) && v < Pow2(k)
    ensures BitXor(a * Pow2(k) + u, b * Pow2(k) + v) == BitXor(a, b) * Pow2(k) + BitXor(u, v)
  {
    if k != 0 {
      var p := Pow2(k - 1);
      DoubleFactor(a, p);
      DoubleFactor(b, p);
      DoubleFactor(BitXor(a, b), p);
      XorSplit(a, b, u / 2, v / 2, k - 1);
      XorDouble(a * p, b * p, u, v, BitXor(a, b) * p);
    }
  }

  lemma DoubleFactor(a: nat, p: nat)
    ensures a * (2 * p) == 2 * (a * p)
    ensures a * p >= 0
  {
  }

  lemma XorDouble(x: nat, y: nat, u: nat, v: nat, z: nat)
    requires BitXor(x + u / 2, y + v / 2) == z + BitXor(u / 2, v / 2)
    ensures BitXor(2 * x + u, 2 * y + v) == 2 * z + BitXor(u, v)
  {
    HalfOfSum(x, u);
    HalfOfSum(y, v);
    XorBits(2 * x + u, 2 * y + v);
    XorBits(u, v);
  }

  lemma HalfOfSum(x: nat, u: nat)
    ensures (2 * x + u) / 2 == x + u / 2
    ensures (2 * x + u) % 2 == u % 2
  {
  }

  function XorByte(a: byte, b: byte): byte {
    assert BitXor(a, b) < 256 by {
      assert Pow2(8) == 256 by { Pow2Of8(); }
      XorBound(a, b, 8);
    }
    BitXor(a, b)
  }

  lemma Pow2Of8()
    ensures Pow2(8) == 256
  {
    assert Pow2(4) == 16;
    assert Pow2(6) == 64;
  }

  // ---------- big-endian integers ----------

  /** int.from_bytes(b, "big") */
  function FromBytes(b: bytes): nat {
    if b == [] then 0 else FromBytes(b[..|b| - 1]) * 256 + b[|b| - 1]
  }

  function Pow256(k: nat): (p: nat)
    ensures p > 0
  {
    if k == 0 then 1 else 256 * Pow256(k - 1)
  }

  lemma Powers()
    ensures Pow256(1) == 256 && Pow256(2) == 65536 && Pow256(3) == 16777216 && Pow256(4) == 4294967296
  {
    assert Pow256(2) == 256 * Pow256(1);
    assert Pow256(3) == 256 * Pow256(2);
  }

  /** The number in two and in four bytes from place i on, the most significant byte first. */
  function Two(b: bytes, i: nat): nat
    requires i + 2 <= |b|
  {
    var high: nat, low: nat := b[i], b[i + 1];
    256 * high + low
  }

  function Four(b: bytes, i: nat): nat
    requires i + 4 <= |b|
  {
    65536 * Two(b, i) + Two(b, i + 2)
  }

  lemma BigEndian(b: bytes)
    ensures |b| == 1 ==> FromBytes(b) == b[0]
    ensures |b| == 2 ==> FromBytes(b) == Two(b, 0)
    ensures |b| == 4 ==> FromBytes(b) == Four(b, 0)
  {
    if |b| == 1 { assert b[..0] == []; }
    if |b| == 2 { BigEndian(b[..1]); }
    if |b| == 4 {
      BigEndian(b[..2]);
      assert b[..3][..2] == b[..2];
      assert FromBytes(b[..3]) == FromBytes(b[..2]) * 256 + b[2];
      assert FromBytes(b) == FromBytes(b[..3]) * 256 + b[3];
    }
  }

  /** n.to_bytes(len, "big"); OverflowError is ruled out by the bound. */
  function ToBytes(n: nat, len: nat): (r: bytes)
    requires n < Pow256(len)
    ensures |r| == len
  {
    if len == 0 then [] else ToBytes(n / 256, len - 1) + [n % 256]
  }

  lemma {:induction false} FromBytesBound(b: bytes)
    ensures FromBytes(b) < Pow256(|b|)
  {
    if b != [] { FromBytesBound(b[..|b| - 1]); }
  }

  lemma {:induction false} ToFromBytes(b: bytes)
    ensures FromBytes(b) < Pow256(|b|)
    ensures ToBytes(FromBytes(b), |b|) == b
  {
    FromBytesBound(b);
    if b != [] {
      var init := b[..|b| - 1];
      ToFromBytes(init);
      assert FromBytes(b) / 256 == FromBytes(init);
      assert b == init + [b[|b| - 1]];
    }
  }

  lemma {:induction false} FromToBytes(n: nat, len: nat)
    requires n < Pow256(len)
    ensures FromBytes(ToBytes(n, len)) == n
  {
    if len != 0 {
      FromToBytes(n / 256, len - 1);
      var r := ToBytes(n, len);
      assert r[..|r| - 1] == ToBytes(n / 256, len - 1);
    }
  }

  // ---------- exclusive or on byte strings ----------

  /** The first n positions of the XOR of two strings, each extended with zeros. */
  function XorPrefix(a: bytes, b: bytes, n: nat): (r: bytes)
    ensures |r| == n
  {
    if n == 0 then [] else XorPrefix(a, b, n - 1) + [XorByte(At(a, n - 1), At(b, n - 1))]
  }

  /** XOR position by position, the shorter string extended with zeros. */
  function XorBytes(a: bytes, b: bytes): (r: bytes)
    ensures |r| == Max(|a|, |b|)
  {
    XorPrefix(a, b, Max(|a|, |b|))
  }

  /** The same through big integers: pad the shorter one on the right, convert, XOR once, convert back. */
  function FastXorBytes(a: bytes, b: bytes): bytes {
    var n := Max(|a|, |b|);
    var pa, pb := PadTo(a, n), PadTo(b, n);
    FastXorFits(pa, pb);
    ToBytes(BitXor(FromBytes(pa), FromBytes(pb)), n)
  }

  /** The integer XOR of two strings of one length fits back into that length. */
  lemma FastXorFits(a: bytes, b: bytes)
    requires |a| == |b|
    ensures BitXor(FromBytes(a), FromBytes(b)) < Pow256(|a|)
  {
    FastXorOfEqualLengths(a, b);
  }

  lemma {:induction false} FastXorOfEqualLengths(a: bytes, b: bytes)
    requires |a| == |b|
    ensures BitXor(FromBytes(a), FromBytes(b)) < Pow256(|a|)
    ensures ToBytes(BitXor(FromBytes(a), FromBytes(b)), |a|) == XorPrefix(a, b, |a|)
  {
    if a != [] {
      hide BitXor;
      var n := |a| - 1;
      var a', b' := a[..n], b[..n];
      FastXorOfEqualLengths(a', b');
      XorPrefixAgree(a, b, a', b', n);
      XorOfLastByte(FromBytes(a'), FromBytes(b'), a[n], b[n]);
    }
  }

  lemma XorOfLastByte(x: nat, y: nat, u: byte, v: byte)
    ensures var r := BitXor(x * 256 + u, y * 256 + v);
            r / 256 == BitXor(x, y) && r % 256 == XorByte(u, v)
  {
    Pow2Of8();
    XorSplit(x, y, u, v, 8);
    hide BitXor;
    var high, low := BitXor(x, y), XorByte(u, v);
    assert (high * 256 + low) / 256 == high && (high * 256 + low) % 256 == low;
  }

  lemma {:induction false} XorPrefixAgree(a: bytes, b: bytes, a': bytes, b': bytes, n: nat)
    requires forall i :: 0 <= i < n ==> At(a, i) == At(a', i) && At(b, i) == At(b', i)
    ensures XorPrefix(a, b, n) == XorPrefix(a', b', n)
  {
    if n != 0 { XorPrefixAgree(a, b, a', b', n - 1); }
  }

  /** The fast route computes the position-wise XOR, for strings of any two lengths. */
  lemma FastXorIsXor(a: bytes, b: bytes)
    ensures FastXorBytes(a, b) == XorBytes(a, b)
  {
    var n := Max(|a|, |b|);
    var pa, pb := PadTo(a, n), PadTo(b, n);
    FastXorOfEqualLengths(pa, pb);
    XorPrefixAgree(a, b, pa, pb, n);
  }

  lemma {:induction false} XorPrefixAt(a: bytes, b: bytes, n: nat, i: nat)
    requires i < n
    ensures XorPrefix(a, b, n)[i] == XorByte(At(a, i), At(b, i))
  {
    if i < n - 1 { XorPrefixAt(a, b, n - 1, i); }
  }

  // XorBytes makes byte strings a commutative monoid with unit []; a string cancels itself up to padding.

  lemma XorBytesAt(a: bytes, b: bytes, i: nat)
    ensures At(XorBytes(a, b), i) == XorByte(At(a, i), At(b, i))
  {
    if i < Max(|a|, |b|) {
      XorPrefixAt(a, b, Max(|a|, |b|), i);
    } else {
      XorZero(0);
    }
  }

  lemma SameBytes(a: bytes, b: bytes)
    requires |a| == |b| && forall i | 0 <= i < |a| :: At(a, i) == At(b, i)
    ensures a == b
  {
    forall i | 0 <= i < |a| ensures a[i] == b[i] {
      assert At(a, i) == At(b, i);
    }
  }

  lemma XorBytesUnit(a: bytes)
    ensures XorBytes(a, []) == a == XorBytes([], a)
  {
    forall i | 0 <= i < |a| ensures At(XorBytes(a, []), i) == At(a, i) == At(XorBytes([], a), i) {
      XorBytesAt(a, [], i);
      XorBytesAt([], a, i);
      XorZero(a[i]);
    }
    SameBytes(XorBytes(a, []), a);
    SameBytes(XorBytes([], a), a);
  }

  lemma XorBytesComm(a: bytes, b: bytes)
    ensures XorBytes(a, b) == XorBytes(b, a)
  {
    forall i | 0 <= i < Max(|a|, |b|) ensures At(XorBytes(a, b), i) == At(XorBytes(b, a), i) {
      XorBytesAt(a, b, i);
      XorBytesAt(b, a, i);
      XorComm(At(a, i), At(b, i));
    }
    SameBytes(XorBytes(a, b), XorBytes(b, a));
  }

  lemma XorBytesAssoc(a: bytes, b: bytes, c: bytes)
    ensures XorBytes(XorBytes(a, b), c) == XorBytes(a, XorBytes(b, c))
  {
    var ab, bc := XorBytes(a, b), XorBytes(b, c);
    forall i | 0 <= i < |XorBytes(ab, c)| ensures At(XorBytes(ab, c), i) == At(XorBytes(a, bc), i) {
      XorBytesAt(a, b, i);
      XorBytesAt(b, c, i);
      XorBytesAt(ab, c, i);
      XorBytesAt(a, bc, i);
      XorAssoc(At(a, i), At(b, i), At(c, i));
    }
    SameBytes(XorBytes(ab, c), XorBytes(a, bc));
  }

  lemma XorBytesCancel(a: bytes, b: bytes)
    ensures XorBytes(XorBytes(a, b), b) == PadTo(a, |b|)
  {
    var ab := XorBytes(a, b);
    forall i | 0 <= i < |ab| ensures At(XorBytes(ab, b), i) == At(PadTo(a, |b|), i) {
      XorBytesAt(a, b, i);
      XorBytesAt(ab, b, i);
      XorAssoc(At(a, i), At(b, i), At(b, i));
      XorSelf(At(b, i));
      XorZero(At(a, i));
    }
    SameBytes(XorBytes(ab, b), PadTo(a, |b|));
  }
}
