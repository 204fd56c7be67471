/** Column codes that meet the law of RsFec: exclusive or for one parity position, interpolation for any number. */
module ColumnCodes {
  import opened Collections
  import opened Bytes
  import opened XorFec
  import opened RsFec

  // ---------- one parity position: exclusive or ----------

  function Sum(w: bytes): byte {
    if w == [] then 0 else XorByte(Sum(w[..|w| - 1]), w[|w| - 1])
  }

  /** w with v at the erased positions. */
  function Fill(w: bytes, erased: set<nat>, v: byte): (r: bytes)
    ensures |r| == |w| && forall i :: 0 <= i < |w| ==> r[i] == if i in erased then v else w[i]
  {
    if w == [] then [] else
      Fill(w[..|w| - 1], erased, v) + [if |w| - 1 in erased then v else w[|w| - 1]]
  }

  function OneParity(k: nat): Codec {
    Codec((d: bytes) => d + [Sum(d)],
          (w: bytes, e: set<nat>) => if |w| == k + 1 && |e| <= 1 then Some(Fill(w[..k], e, Sum(w))) else None)
  }

  lemma EraseNothing(w: bytes, e: set<nat>)
    requires forall i :: 0 <= i < |w| ==> i !in e
    ensures Erase(w, e) == w
  {
    forall i | 0 <= i < |w| ensures Erase(w, e)[i] == w[i] { EraseAt(w, e, i); }
  }

  /** The sum of a word with one position erased, plus the erased byte, is the sum of the word. */
  lemma {:induction false} SumErased(w: bytes, j: nat)
    requires j < |w|
    ensures XorByte(Sum(Erase(w, {j})), w[j]) == Sum(w)
  {
    var n := |w| - 1;
    var init, erased := w[..n], Erase(w, {j});
    assert erased[..n] == Erase(init, {j});
    if j == n {
      EraseNothing(init, {j});
      XorZero(Sum(init));
    } else {
      SumErased(init, j);
      var s := Sum(Erase(init, {j}));
      XorAssoc(s, w[n], w[j]);
      XorComm(w[n], w[j]);
      XorAssoc(s, w[j], w[n]);
    }
  }

  lemma OneParityRecovers(k: nat, d: bytes, e: set<nat>)
    requires |d| == k && e <= Range(0, k + 1) && |e| <= 1
    ensures OneParity(k).dec(Erase(OneParity(k).enc(d), e), e) == Some(d)
  {
    hide BitXor;
    var c := d + [Sum(d)];
    var w := Erase(c, e);
    assert Sum(c) == 0 by {
      assert c[..k] == d;
      XorSelf(Sum(d));
    }
    forall i | 0 <= i < k ensures Fill(w[..k], e, Sum(w))[i] == d[i] {
      EraseAt(c, e, i);
      if i in e {
        assert e == {i} by { SubsetSize({i}, e); }
        SumErased(c, i);
        XorCancel(Sum(w), c[i]);
      }
    }
    assert Fill(w[..k], e, Sum(w)) == d;
    assert OneParity(k).enc(d) == c;
  }

  lemma XorCancel(a: byte, b: byte)
    requires XorByte(a, b) == 0
    ensures a == b
  {
    XorAssoc(a, b, b);
    XorSelf(b);
    XorZero(a);
    XorZero(b);
  }

  lemma OneParityIsLawful(k: nat)
    ensures Lawful(OneParity(k), k, 1)
  {
    var c := OneParity(k);
    forall d: bytes, e: set<nat> {:trigger Erase(c.enc(d), e)} | |d| == k && e <= Range(0, k + 1) && |e| <= 1
      ensures c.dec(Erase(c.enc(d), e), e) == Some(d)
    {
      OneParityRecovers(k, d, e);
    }
  }

  lemma {:induction false} SumOfColumn(blocks: seq<bytes>, i: nat)
    ensures Sum(Column(blocks, i)) == ColumnXor(blocks, i)
  {
    if blocks != [] {
      SumOfColumn(blocks[..|blocks| - 1], i);
      assert Column(blocks, i)[..|blocks| - 1] == Column(blocks[..|blocks| - 1], i);
    }
  }

  /** With this code the one parity shard of Reed-Solomon FEC is the parity packet of XOR FEC. */
  lemma OneParityShardIsXor(blocks: seq<bytes>)
    ensures ParityBlock(OneParity(|blocks|), blocks, 0) == XorSeq(blocks)
  {
    var c := OneParity(|blocks|);
    var n := MaxLen(blocks);
    forall i | 0 <= i < n ensures At(ParityBlock(c, blocks, 0), i) == At(XorSeq(blocks), i) {
      ParityBytesAt(c, blocks, 0, n, i);
      SumOfColumn(blocks, i);
      ParityColumns(blocks, i);
      var column := Column(blocks, i);
      assert c.enc(column) == column + [Sum(column)];
    }
    SameBytes(ParityBlock(c, blocks, 0), XorSeq(blocks));
  }

  // ---------- any number of parity positions: interpolation ----------

  /** A multiplication on bytes, with an inverse. */
  datatype Field = Field(mul: (byte, byte) -> byte, inv: byte -> byte)

  ghost predicate Commutes(f: Field) {
    forall a: byte, b: byte :: f.mul(a, b) == f.mul(b, a)
  }

  ghost predicate Associates(f: Field) {
    forall a: byte, b: byte, c: byte :: f.mul(f.mul(a, b), c) == f.mul(a, f.mul(b, c))
  }

  ghost predicate Distributes(f: Field) {
    forall a: byte, b: byte, c: byte :: f.mul(a, XorByte(b, c)) == XorByte(f.mul(a, b), f.mul(a, c))
  }

  ghost predicate Divides(f: Field) {
    && (forall a: byte :: f.mul(1, a) == a)
    && (forall a: byte :: a != 0 ==> f.mul(f.inv(a), a) == 1)
  }

  /** With exclusive or as addition, the bytes are a field. */
  ghost predicate IsField(f: Field) {
    Commutes(f) && Associates(f) && Distributes(f) && Divides(f)
  }

  lemma Commute(f: Field, a: byte, b: byte)
    requires Commutes(f)
    ensures f.mul(a, b) == f.mul(b, a)
  {
  }

  lemma Associate(f: Field, a: byte, b: byte, c: byte)
    requires Associates(f)
    ensures f.mul(f.mul(a, b), c) == f.mul(a, f.mul(b, c))
  {
  }

  lemma Distribute(f: Field, a: byte, b: byte, c: byte)
    requires Distributes(f)
    ensures f.mul(a, XorByte(b, c)) == XorByte(f.mul(a, b), f.mul(a, c))
  {
  }

  lemma Inverse(f: Field, a: byte)
    requires Divides(f)
    ensures f.mul(1, a) == a && (a != 0 ==> f.mul(f.inv(a), a) == 1)
  {
  }

  lemma MulLaws(f: Field, a: byte, b: byte, c: byte)
    requires IsField(f)
    ensures f.mul(a, b) == f.mul(b, a)
    ensures f.mul(f.mul(a, b), c) == f.mul(a, f.mul(b, c))
    ensures f.mul(a, XorByte(b, c)) == XorByte(f.mul(a, b), f.mul(a, c))
    ensures f.mul(1, a) == a && (a != 0 ==> f.mul(f.inv(a), a) == 1)
  {
    hide Commutes, Associates, Distributes, Divides, BitXor;
    Commute(f, a, b);
    Associate(f, a, b, c);
    Distribute(f, a, b, c);
    Inverse(f, a);
  }

  lemma AddLaws(a: byte, b: byte, c: byte)
    ensures XorByte(a, b) == XorByte(b, a)
    ensures XorByte(XorByte(a, b), c) == XorByte(a, XorByte(b, c))
    ensures XorByte(a, a) == 0 && XorByte(a, 0) == a == XorByte(0, a)
    ensures XorByte(a, b) == 0 ==> a == b
  {
    XorComm(a, b);
    XorAssoc(a, b, c);
    XorSelf(a);
    XorZero(a);
    if XorByte(a, b) == 0 { XorCancel(a, b); }
  }

  lemma MulZero(f: Field, a: byte)
    requires IsField(f)
    ensures f.mul(a, 0) == 0 == f.mul(0, a)
  {
    hide IsField, BitXor;
    MulLaws(f, a, 0, 0);
    AddLaws(0, 0, 0);
    AddLaws(f.mul(a, 0), 0, 0);
  }

  lemma MulCancel(f: Field, a: byte, u: byte, v: byte)
    requires IsField(f) && a != 0 && f.mul(a, u) == f.mul(a, v)
    ensures u == v
  {
    hide IsField;
    MulLaws(f, a, 0, 0);
    MulLaws(f, f.inv(a), a, u);
    MulLaws(f, f.inv(a), a, v);
    MulLaws(f, u, 0, 0);
    MulLaws(f, v, 0, 0);
  }

  function Divide(f: Field, a: byte, y: byte): byte {
    f.mul(f.inv(a), y)
  }

  lemma MulDivide(f: Field, a: byte, y: byte)
    requires IsField(f) && a != 0
    ensures f.mul(a, Divide(f, a, y)) == y
  {
    hide IsField;
    var i := f.inv(a);
    MulLaws(f, a, i, y);
    MulLaws(f, y, 0, 0);
  }

  /** a(bc) == b(ac) */
  lemma MulSwap(f: Field, a: byte, b: byte, c: byte)
    requires IsField(f)
    ensures f.mul(a, f.mul(b, c)) == f.mul(b, f.mul(a, c))
  {
    hide IsField;
    MulLaws(f, a, b, c);
    MulLaws(f, b, a, c);
  }

  /** The polynomial with the given coefficients, lowest first, at x. */
  function Eval(f: Field, c: bytes, x: byte): byte {
    if c == [] then 0 else XorByte(c[0], f.mul(x, Eval(f, c[1..], x)))
  }

  /** The polynomial b + (x - a) m(x). */
  function Raise(f: Field, m: bytes, a: byte, b: byte): (r: bytes)
    ensures |r| == |m| + 1
  {
    if m == [] then [b] else [XorByte(b, f.mul(a, m[0]))] + Raise(f, m[1..], a, m[0])
  }

  lemma {:induction false} EvalRaise(f: Field, m: bytes, a: byte, b: byte, x: byte)
    requires IsField(f)
    ensures Eval(f, Raise(f, m, a, b), x) == XorByte(b, f.mul(XorByte(x, a), Eval(f, m, x)))
  {
    hide IsField, BitXor;
    if m == [] {
      assert Eval(f, [], x) == 0;
      assert [b][1..] == [];
      MulZero(f, x);
      MulZero(f, XorByte(x, a));
    } else {
      var r := Raise(f, m, a, b);
      assert r[1..] == Raise(f, m[1..], a, m[0]);
      EvalRaise(f, m[1..], a, m[0], x);
      RaiseAlgebra(f, a, b, x, m[0], Eval(f, m[1..], x));
    }
  }

  /** (b + a c) + x (c + (x - a) e) == b + (x - a) (c + x e) */
  lemma RaiseAlgebra(f: Field, a: byte, b: byte, x: byte, c: byte, e: byte)
    requires IsField(f)
    ensures XorByte(XorByte(b, f.mul(a, c)), f.mul(x, XorByte(c, f.mul(XorByte(x, a), e))))
         == XorByte(b, f.mul(XorByte(x, a), XorByte(c, f.mul(x, e))))
  {
    hide IsField, BitXor;
    var y := XorByte(x, a);
    var ac, xc, rest := f.mul(a, c), f.mul(x, c), f.mul(x, f.mul(y, e));
    MulLaws(f, x, c, f.mul(y, e));
    MulLaws(f, y, c, f.mul(x, e));
    MulSwap(f, x, y, e);
    assert f.mul(y, c) == XorByte(xc, ac) by {
      MulLaws(f, c, x, a);
      MulLaws(f, c, a, 0);
      MulLaws(f, c, y, 0);
    }
    AddLaws(xc, ac, rest);
    AddLaws(ac, xc, rest);
    AddLaws(b, ac, XorByte(xc, rest));
  }

  /** The quotient by x - a. */
  function Quotient(f: Field, c: bytes, a: byte): (q: bytes)
    requires c != []
    ensures |q| == |c| - 1
  {
    if |c| == 1 then [] else [Eval(f, c[1..], a)] + Quotient(f, c[1..], a)
  }

  lemma {:induction false} RaiseQuotient(f: Field, c: bytes, a: byte)
    requires IsField(f) && c != []
    ensures Raise(f, Quotient(f, c, a), a, Eval(f, c, a)) == c
  {
    hide IsField, BitXor;
    if |c| == 1 {
      MulZero(f, a);
      assert c[1..] == [];
      AddLaws(c[0], 0, 0);
    } else {
      RaiseQuotient(f, c[1..], a);
      var q := Quotient(f, c, a);
      assert q[1..] == Quotient(f, c[1..], a);
      AddLaws(c[0], f.mul(a, q[0]), f.mul(a, q[0]));
      AddLaws(f.mul(a, q[0]), 0, 0);
    }
  }

  /** Two polynomials with n coefficients that agree at n distinct points agree everywhere. */
  lemma {:induction false} AgreeEverywhere(f: Field, p: bytes, q: bytes, xs: bytes, x: byte)
    requires IsField(f) && |p| == |q| == |xs| && Distinct(xs)
    requires forall i :: 0 <= i < |xs| ==> Eval(f, p, xs[i]) == Eval(f, q, xs[i])
    ensures Eval(f, p, x) == Eval(f, q, x)
    decreases |xs|
  {
    hide IsField, BitXor;
    if xs != [] {
      var a := xs[0];
      var p', q' := Quotient(f, p, a), Quotient(f, q, a);
      RaiseQuotient(f, p, a);
      RaiseQuotient(f, q, a);
      forall i | 0 <= i < |xs[1..]| ensures Eval(f, p', xs[1..][i]) == Eval(f, q', xs[1..][i]) {
        var z := xs[i + 1];
        assert Eval(f, p, z) == Eval(f, q, z);
        EvalRaise(f, p', a, Eval(f, p, a), z);
        EvalRaise(f, q', a, Eval(f, q, a), z);
        CancelTerm(f, Eval(f, p, a), z, a, Eval(f, p', z), Eval(f, q', z));
      }
      AgreeEverywhere(f, p', q', xs[1..], x);
      EvalRaise(f, p', a, Eval(f, p, a), x);
      EvalRaise(f, q', a, Eval(f, q, a), x);
    }
  }

  lemma CancelTerm(f: Field, b: byte, z: byte, a: byte, u: byte, v: byte)
    requires IsField(f) && z != a
    requires XorByte(b, f.mul(XorByte(z, a), u)) == XorByte(b, f.mul(XorByte(z, a), v))
    ensures u == v
  {
    hide IsField, BitXor;
    var y := XorByte(z, a);
    AddLaws(z, a, 0);
    AddLaws(b, b, f.mul(y, u));
    AddLaws(b, b, f.mul(y, v));
    AddLaws(f.mul(y, u), 0, 0);
    AddLaws(f.mul(y, v), 0, 0);
    MulCancel(f, y, u, v);
  }

  /** (y - b) / (x - a) for every point (x, y). */
  function Divided(f: Field, xs: bytes, ys: bytes, a: byte, b: byte): (r: bytes)
    requires |xs| == |ys|
    ensures |r| == |ys|
    ensures forall i :: 0 <= i < |ys| ==> r[i] == Divide(f, XorByte(xs[i], a), XorByte(ys[i], b))
  {
    if ys == [] then [] else
      [Divide(f, XorByte(xs[0], a), XorByte(ys[0], b))] + Divided(f, xs[1..], ys[1..], a, b)
  }

  /** The polynomial through the points, in Newton's form. */
  function Interpolate(f: Field, xs: bytes, ys: bytes): (c: bytes)
    requires |xs| == |ys|
    ensures |c| == |xs|
    decreases |xs|
  {
    if xs == [] then [] else
      Raise(f, Interpolate(f, xs[1..], Divided(f, xs[1..], ys[1..], xs[0], ys[0])), xs[0], ys[0])
  }

  lemma {:induction false} InterpolateAt(f: Field, xs: bytes, ys: bytes, i: nat)
    requires IsField(f) && |xs| == |ys| && i < |xs| && Distinct(xs)
    ensures Eval(f, Interpolate(f, xs, ys), xs[i]) == ys[i]
    decreases |xs|
  {
    hide IsField, BitXor;
    var a, b := xs[0], ys[0];
    var rest := Divided(f, xs[1..], ys[1..], a, b);
    var m := Interpolate(f, xs[1..], rest);
    EvalRaise(f, m, a, b, xs[i]);
    AddLaws(xs[i], a, 0);
    AddLaws(a, a, 0);
    if i == 0 {
      MulZero(f, Eval(f, m, a));
      AddLaws(b, 0, 0);
    } else {
      InterpolateAt(f, xs[1..], rest, i - 1);
      MulDivide(f, XorByte(xs[i], a), XorByte(ys[i], b));
      AddLaws(ys[i], b, b);
      AddLaws(b, ys[i], 0);
      AddLaws(b, b, ys[i]);
      AddLaws(ys[i], 0, 0);
    }
  }

  /** The values at 0, 1, ..., n - 1. */
  function Values(f: Field, c: bytes, n: nat): (r: bytes)
    requires n <= 256
    ensures |r| == n && forall i :: 0 <= i < n ==> r[i] == Eval(f, c, i)
  {
    if n == 0 then [] else Values(f, c, n - 1) + [Eval(f, c, n - 1)]
  }

  /** The positions below n that are not erased, in order. */
  function Kept(n: nat, erased: set<nat>): (r: bytes)
    requires n <= 256
    ensures |r| <= n && forall i :: 0 <= i < |r| ==> r[i] < n && r[i] !in erased
    ensures Distinct(r)
  {
    if n == 0 then [] else Kept(n - 1, erased) + if n - 1 in erased then [] else [n - 1]
  }

  /** The bytes of w at the given positions. */
  function Pick(w: bytes, positions: bytes): (r: bytes)
    requires forall i :: 0 <= i < |positions| ==> positions[i] < |w|
    ensures |r| == |positions| && forall i :: 0 <= i < |positions| ==> r[i] == w[positions[i]]
  {
    if positions == [] then [] else [w[positions[0]]] + Pick(w, positions[1..])
  }

  /** The points 0, 1, ..., n - 1. */
  function Points(n: nat): (r: bytes)
    requires n <= 256
    ensures |r| == n && forall i :: 0 <= i < n ==> r[i] == i
  {
    if n == 0 then [] else Points(n - 1) + [n - 1]
  }

  /** The data is read as the values of a polynomial at the first points; parity is its values further on. */
  function EncodeColumn(f: Field, p: nat, d: bytes): bytes {
    if |d| + p > 256 then d else Values(f, Interpolate(f, Points(|d|), d), |d| + p)
  }

  /** The polynomial is found again from any k positions that remain. */
  function DecodeColumnOf(f: Field, k: nat, w: bytes, e: set<nat>): Option<bytes> {
    if |w| > 256 || |Kept(|w|, e)| < k then None else
      var xs := Kept(|w|, e)[..k];
      Some(Values(f, Interpolate(f, xs, Pick(w, xs)), k))
  }

  function Interpolation(f: Field, k: nat, p: nat): Codec {
    Codec((d: bytes) => EncodeColumn(f, p, d), (w: bytes, e: set<nat>) => DecodeColumnOf(f, k, w, e))
  }

  lemma {:induction false} KeptSize(n: nat, e: set<nat>)
    requires n <= 256 && forall i :: i in e ==> i < n
    ensures |Kept(n, e)| + |e| == n
  {
    if n == 0 {
      assert e == {};
    } else if n - 1 in e {
      var rest := e - {n - 1};
      KeptSize(n - 1, rest);
      KeptSame(n - 1, e, rest);
      assert |rest| == |e| - 1;
    } else {
      KeptSize(n - 1, e);
    }
  }

  lemma {:induction false} KeptSame(n: nat, e: set<nat>, e': set<nat>)
    requires n <= 256 && forall i :: 0 <= i < n ==> (i in e <==> i in e')
    ensures Kept(n, e) == Kept(n, e')
  {
    if n != 0 { KeptSame(n - 1, e, e'); }
  }

  lemma EncodeColumnKeepsData(f: Field, p: nat, d: bytes)
    requires IsField(f) && |d| + p <= 256
    ensures d <= EncodeColumn(f, p, d)
  {
    hide IsField, Interpolate, Eval;
    forall i | 0 <= i < |d| ensures EncodeColumn(f, p, d)[i] == d[i] {
      InterpolateAt(f, Points(|d|), d, i);
    }
  }

  /** A word that agrees with the encoded column at |d| distinct positions gives the data back. */
  lemma SamePolynomial(f: Field, p: nat, d: bytes, w: bytes, xs: bytes)
    requires IsField(f) && |d| + p <= 256 && |w| == |d| + p
    requires |xs| == |d| && Distinct(xs)
    requires forall i :: 0 <= i < |xs| ==> xs[i] < |w| && w[xs[i]] == EncodeColumn(f, p, d)[xs[i]]
    ensures Values(f, Interpolate(f, xs, Pick(w, xs)), |d|) == d
  {
    hide IsField, Interpolate, Eval;
    var k := |d|;
    var c := Interpolate(f, Points(k), d);
    var q := Interpolate(f, xs, Pick(w, xs));
    forall i | 0 <= i < k ensures Eval(f, q, xs[i]) == Eval(f, c, xs[i]) {
      InterpolateAt(f, xs, Pick(w, xs), i);
    }
    EncodeColumnKeepsData(f, p, d);
    forall i | 0 <= i < k ensures Values(f, q, k)[i] == d[i] {
      AgreeEverywhere(f, q, c, xs, i);
      assert EncodeColumn(f, p, d)[i] == d[i];
    }
  }

  lemma EnoughKept(n: nat, p: nat, e: set<nat>)
    requires n <= 256 && p <= n && e <= Range(0, n) && |e| <= p
    ensures |Kept(n, e)| >= n - p
  {
    assert forall i :: i in e ==> i in Range(0, n);
    KeptSize(n, e);
  }

  lemma EncodedSize(f: Field, p: nat, d: bytes)
    requires |d| + p <= 256
    ensures |EncodeColumn(f, p, d)| == |d| + p
  {
  }

  lemma InterpolationRecovers(f: Field, p: nat, d: bytes, e: set<nat>)
    requires IsField(f) && |d| + p <= 256 && e <= Range(0, |d| + p) && |e| <= p
    ensures DecodeColumnOf(f, |d|, Erase(EncodeColumn(f, p, d), e), e) == Some(d)
  {
    hide IsField, Interpolate, Eval, EncodeColumn, Erase, Kept, Range;
    var encoded := EncodeColumn(f, p, d);
    var w := Erase(encoded, e);
    EncodedSize(f, p, d);
    EnoughKept(|w|, p, e);
    var xs := Kept(|w|, e)[..|d|];
    forall i | 0 <= i < |xs| ensures w[xs[i]] == encoded[xs[i]] {
      EraseAt(encoded, e, xs[i]);
    }
    SamePolynomial(f, p, d, w, xs);
  }

  /** Over a field, interpolation meets the law for every k and p with at most 256 shards. */
  lemma InterpolationIsLawful(f: Field, k: nat, p: nat)
    requires IsField(f) && k + p <= 256
    ensures Lawful(Interpolation(f, k, p), k, p)
  {
    var c := Interpolation(f, k, p);
    forall d: bytes {:trigger c.enc(d)} | |d| == k ensures |c.enc(d)| == k + p && d <= c.enc(d) {
      EncodeColumnKeepsData(f, p, d);
    }
    forall d: bytes, e: set<nat> {:trigger Erase(c.enc(d), e)} | |d| == k && e <= Range(0, k + p) && |e| <= p
      ensures c.dec(Erase(c.enc(d), e), e) == Some(d)
    {
      InterpolationRecovers(f, p, d, e);
    }
  }

  // ---------- interpolation codes of one length contain one another ----------

  function Padding(n: nat): (z: bytes)
    ensures |z| == n
  {
    if n == 0 then [] else [0] + Padding(n - 1)
  }

  lemma {:induction false} EvalOfPadding(f: Field, n: nat, x: byte)
    requires IsField(f)
    ensures Eval(f, Padding(n), x) == 0
  {
    hide IsField, BitXor;
    if n != 0 {
      EvalOfPadding(f, n - 1, x);
      assert Padding(n)[1..] == Padding(n - 1);
      MulZero(f, x);
      AddLaws(0, 0, 0);
    }
  }

  lemma {:induction false} EvalPadded(f: Field, c: bytes, n: nat, x: byte)
    requires IsField(f)
    ensures Eval(f, c + Padding(n), x) == Eval(f, c, x)
  {
    hide IsField, BitXor;
    if c == [] {
      EvalOfPadding(f, n, x);
      assert c + Padding(n) == Padding(n);
    } else {
      EvalPadded(f, c[1..], n, x);
      assert (c + Padding(n))[1..] == c[1..] + Padding(n);
    }
  }

  /** The codeword of k data bytes is also that of its own first k' bytes, read as data of a longer code. */
  lemma InterpolationIsNested(f: Field, k: nat, p: nat, k': nat, p': nat, d: bytes)
    requires IsField(f) && |d| == k <= k' && k + p == k' + p' <= 256
    ensures |EncodeColumn(f, p, d)| == k + p
    ensures EncodeColumn(f, p', EncodeColumn(f, p, d)[..k']) == EncodeColumn(f, p, d)
  {
    hide IsField, Interpolate, Eval;
    var w := EncodeColumn(f, p, d);
    var c := Interpolate(f, Points(k), d);
    var c' := Interpolate(f, Points(k'), w[..k']);
    var w' := EncodeColumn(f, p', w[..k']);
    forall i | 0 <= i < k' ensures Eval(f, c', Points(k')[i]) == Eval(f, c + Padding(k' - k), Points(k')[i]) {
      InterpolateAt(f, Points(k'), w[..k'], i);
      EvalPadded(f, c, k' - k, i);
    }
    forall i | 0 <= i < k + p ensures w'[i] == w[i] {
      AgreeEverywhere(f, c', c + Padding(k' - k), Points(k'), i);
      EvalPadded(f, c, k' - k, i);
    }
  }
}
