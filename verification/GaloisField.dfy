/** The field of 256 elements: bytes with exclusive or, and multiplication modulo x^8 + x^4 + x^3 + x^2 + 1. */
module GaloisField {
  import opened Collections
  import opened Numbers
  import opened Bytes
  import opened RsFec
  import opened ColumnCodes

  /** Multiplication by x: shift left, and reduce what leaves the byte. */
  function Double(m: byte): byte {
    if m < 128 then 2 * m else XorByte(2 * (m - 128), 29)
  }

  /** Polynomial multiplication, bit by bit from the highest bit of a down. */
  function Mul(a: nat, b: byte): byte {
    if a == 0 then 0 else XorByte(if a % 2 == 1 then b else 0, Double(Mul(a / 2, b)))
  }

  // ---------- doubling is linear ----------

  lemma TopBit(x: byte)
    ensures x == (if x >= 128 then 1 else 0) * Pow2(7) + (if x >= 128 then x - 128 else x)
    ensures Pow2(7) == 128
  {
    assert Pow2(4) == 16;
    assert Pow2(7) == 128;
  }

  function High(x: byte): (h: nat)
    ensures h <= 1
  {
    if x >= 128 then 1 else 0
  }

  function Low(x: byte): (l: nat)
    ensures l < 128
  {
    if x >= 128 then x - 128 else x
  }

  lemma XorHighLow(x: byte, y: byte)
    ensures High(XorByte(x, y)) == BitXor(High(x), High(y))
    ensures Low(XorByte(x, y)) == BitXor(Low(x), Low(y)) < 128
  {
    TopBit(x);
    TopBit(y);
    XorSplit(High(x), High(y), Low(x), Low(y), 7);
    XorBound(Low(x), Low(y), 7);
    XorOfBits();
  }

  lemma XorTwice(u: nat, v: nat)
    ensures BitXor(2 * u, 2 * v) == 2 * BitXor(u, v)
  {
    XorBits(2 * u, 2 * v);
  }

  /** What doubling does to the low bits and to the high one. */
  lemma DoubleParts(m: byte)
    ensures 2 * Low(m) < 256
    ensures Double(m) == XorByte(2 * Low(m), 29 * High(m))
  {
    XorZero(2 * Low(m));
  }

  lemma Shuffle(a: byte, b: byte, c: byte, d: byte)
    ensures XorByte(XorByte(a, b), XorByte(c, d)) == XorByte(XorByte(a, c), XorByte(b, d))
  {
    hide BitXor;
    XorAssoc(a, b, XorByte(c, d));
    XorAssoc(b, c, d);
    XorComm(b, c);
    XorAssoc(c, b, d);
    XorAssoc(a, c, XorByte(b, d));
  }

  lemma DoubleAdds(x: byte, y: byte)
    ensures Double(XorByte(x, y)) == XorByte(Double(x), Double(y))
  {
    hide BitXor, Double, High, Low;
    DoubleParts(x);
    DoubleParts(y);
    DoubleParts(XorByte(x, y));
    XorHighLow(x, y);
    XorTwice(Low(x), Low(y));
    ReductionAdds(x, y);
    Shuffle(2 * Low(x), 29 * High(x), 2 * Low(y), 29 * High(y));
  }

  lemma ReductionAdds(x: byte, y: byte)
    ensures 29 * BitXor(High(x), High(y)) == BitXor(29 * High(x), 29 * High(y))
  {
    XorOfBits();
    XorZero(29);
    XorSelf(29);
  }

  lemma DoubleZero()
    ensures Double(0) == 0
  {
  }

  lemma DoubleInjective(x: byte, y: byte)
    requires Double(x) == Double(y)
    ensures x == y
  {
    DoubleAdds(x, y);
    XorSelf(Double(x));
    OnlyZeroDoublesToZero(XorByte(x, y));
    XorCancel(x, y);
  }

  lemma OnlyZeroDoublesToZero(m: byte)
    requires Double(m) == 0
    ensures m == 0
  {
    if m >= 128 { XorBits(2 * (m - 128), 29); }
  }

  // ---------- multiplication ----------

  /** b if the bit is set. */
  function Times(bit: nat, b: byte): byte {
    if bit == 1 then b else 0
  }

  lemma MulStep(a: nat, b: byte)
    ensures Mul(a, b) == XorByte(Times(a % 2, b), Double(Mul(a / 2, b)))
  {
    if a == 0 {
      DoubleZero();
      XorZero(0);
    }
  }

  lemma TimesAdds(bit: nat, x: byte, y: byte)
    ensures Times(bit, XorByte(x, y)) == XorByte(Times(bit, x), Times(bit, y))
  {
    XorZero(0);
  }

  lemma {:induction false} MulAddsRight(a: nat, x: byte, y: byte)
    ensures Mul(a, XorByte(x, y)) == XorByte(Mul(a, x), Mul(a, y))
  {
    hide BitXor, Double, Times;
    if a == 0 {
      XorZero(0);
    } else {
      MulAddsRight(a / 2, x, y);
      MulStep(a, XorByte(x, y));
      MulStep(a, x);
      MulStep(a, y);
      TimesAdds(a % 2, x, y);
      DoubleAdds(Mul(a / 2, x), Mul(a / 2, y));
      Shuffle(Times(a % 2, x), Times(a % 2, y), Double(Mul(a / 2, x)), Double(Mul(a / 2, y)));
    }
  }

  lemma DoubleTimes(bit: nat, y: byte)
    ensures Double(Times(bit, y)) == Times(bit, Double(y))
  {
    DoubleZero();
  }

  lemma {:induction false} MulDouble(a: nat, y: byte)
    ensures Mul(a, Double(y)) == Double(Mul(a, y))
  {
    hide BitXor, Double, Times;
    if a == 0 {
      DoubleZero();
    } else {
      MulDouble(a / 2, y);
      MulStep(a, Double(y));
      MulStep(a, y);
      DoubleTimes(a % 2, y);
      DoubleAdds(Times(a % 2, y), Double(Mul(a / 2, y)));
    }
  }

  lemma MulTimes(b: nat, bit: nat, y: byte)
    ensures Mul(b, Times(bit, y)) == Times(bit, Mul(b, y))
  {
    if bit != 1 { MulByZero(b); }
  }

  lemma {:induction false} MulByZero(b: nat)
    ensures Mul(b, 0) == 0
  {
    if b != 0 {
      MulByZero(b / 2);
      DoubleZero();
      XorZero(0);
    }
  }

  /** Multiplications commute as operators, since all are sums of doublings. */
  lemma {:induction false} MulMul(a: nat, b: nat, y: byte)
    ensures Mul(a, Mul(b, y)) == Mul(b, Mul(a, y))
  {
    hide BitXor, Double, Times;
    if a == 0 {
      MulByZero(b);
    } else {
      MulMul(a / 2, b, y);
      MulStep(a, Mul(b, y));
      MulStep(a, y);
      MulDouble(b, Mul(a / 2, y));
      MulTimes(b, a % 2, y);
      MulAddsRight(b, Times(a % 2, y), Double(Mul(a / 2, y)));
    }
  }

  lemma {:induction false} MulOne(a: byte)
    ensures Mul(a, 1) == a
  {
    if a != 0 {
      MulOne(a / 2);
      LowestBit(a);
    }
  }

  lemma LowestBit(a: byte)
    ensures BitXor(a % 2, 2 * (a / 2)) == a
  {
    XorBits(a % 2, 2 * (a / 2));
    XorZero(a / 2);
  }

  lemma OneMul(a: byte)
    ensures Mul(1, a) == a
  {
    DoubleZero();
    XorZero(a);
  }

  lemma MulCommutes(a: byte, b: byte)
    ensures Mul(a, b) == Mul(b, a)
  {
    MulOne(a);
    MulOne(b);
    MulMul(a, b, 1);
  }

  lemma MulAssociates(a: byte, b: byte, c: byte)
    ensures Mul(Mul(a, b), c) == Mul(a, Mul(b, c))
  {
    MulCommutes(Mul(a, b), c);
    MulMul(c, a, b);
    MulCommutes(c, b);
  }

  // ---------- inverses: every byte but zero is a power of two ----------

  function Power(i: nat): byte {
    if i == 0 then 1 else Double(Power(i - 1))
  }

  lemma {:induction false} PowerSum(i: nat, j: nat)
    ensures Mul(Power(i), Power(j)) == Power(i + j)
  {
    hide Mul, Double;
    if i == 0 {
      OneMul(Power(j));
    } else {
      PowerSum(i - 1, j);
      MulCommutes(Double(Power(i - 1)), Power(j));
      MulDouble(Power(j), Power(i - 1));
      MulCommutes(Power(j), Power(i - 1));
      assert Power(i) == Double(Power(i - 1));
      assert Power(i + j) == Double(Power(i + j - 1));
    }
  }

  /** A byte as its bits, the highest first. */
  datatype Bits = Bits(b7: bool, b6: bool, b5: bool, b4: bool, b3: bool, b2: bool, b1: bool, b0: bool)

  const ONE := Bits(false, false, false, false, false, false, false, true)

  /** The number with lowest bit b and half v. */
  function Append(v: nat, b: bool): nat {
    2 * v + if b then 1 else 0
  }

  function Value(x: Bits): (v: nat)
    ensures v < 256
  {
    Append(Append(Append(Append(Append(Append(Append(Append(0, x.b7), x.b6), x.b5), x.b4), x.b3), x.b2), x.b1), x.b0)
  }

  function XorOfEach(x: Bits, y: Bits): Bits {
    Bits(x.b7 != y.b7, x.b6 != y.b6, x.b5 != y.b5, x.b4 != y.b4, x.b3 != y.b3, x.b2 != y.b2, x.b1 != y.b1, x.b0 != y.b0)
  }

  /** Doubling on bits. */
  function Shift(x: Bits): Bits {
    var low := Bits(x.b6, x.b5, x.b4, x.b3, x.b2, x.b1, x.b0, false);
    if x.b7 then XorOfEach(low, Reduction()) else low
  }

  lemma Appended(v: nat, b: bool)
    ensures Append(v, b) / 2 == v && Append(v, b) % 2 == if b then 1 else 0
  {
  }

  lemma XorOfAppended(v: nat, b: bool, w: nat, c: bool)
    ensures BitXor(Append(v, b), Append(w, c)) == Append(BitXor(v, w), b != c)
  {
    Appended(v, b);
    Appended(w, c);
    XorBits(Append(v, b), Append(w, c));
    hide BitXor;
    Appended(BitXor(v, w), b != c);
  }

  lemma XorOfValues(x: Bits, y: Bits)
    ensures BitXor(Value(x), Value(y)) == Value(XorOfEach(x, y))
  {
    hide BitXor, Append;
    var v7, w7 := Append(0, x.b7), Append(0, y.b7);
    var v6, w6 := Append(v7, x.b6), Append(w7, y.b6);
    var v5, w5 := Append(v6, x.b5), Append(w6, y.b5);
    var v4, w4 := Append(v5, x.b4), Append(w5, y.b4);
    var v3, w3 := Append(v4, x.b3), Append(w4, y.b3);
    var v2, w2 := Append(v3, x.b2), Append(w3, y.b2);
    var v1, w1 := Append(v2, x.b1), Append(w2, y.b1);
    XorZero(0);
    XorOfAppended(0, x.b7, 0, y.b7);
    XorOfAppended(v7, x.b6, w7, y.b6);
    XorOfAppended(v6, x.b5, w6, y.b5);
    XorOfAppended(v5, x.b4, w5, y.b4);
    XorOfAppended(v4, x.b3, w4, y.b3);
    XorOfAppended(v3, x.b2, w3, y.b2);
    XorOfAppended(v2, x.b1, w2, y.b1);
    XorOfAppended(v1, x.b0, w1, y.b0);
  }

  lemma ShiftDoubles(x: Bits)
    ensures Double(Value(x)) == Value(Shift(x))
  {
    hide BitXor, Value;
    ValueOfLow(x);
    XorOfValues(Bits(x.b6, x.b5, x.b4, x.b3, x.b2, x.b1, x.b0, false), Reduction());
  }

  /** x^4 + x^3 + x^2 + 1 */
  function Reduction(): (r: Bits)
    ensures Value(r) == 29
  {
    Bits(false, false, false, true, true, true, false, true)
  }

  lemma ValueOfLow(x: Bits)
    ensures Value(Bits(x.b6, x.b5, x.b4, x.b3, x.b2, x.b1, x.b0, false)) == 2 * (Value(x) - if x.b7 then 128 else 0)
    ensures Value(x) >= 128 <==> x.b7
  {
  }

  lemma OneMore(i: nat, x: Bits)
    requires Power(i) == Value(x)
    ensures Power(i + 1) == Value(Shift(x))
  {
    hide Double, Shift, Value;
    ShiftDoubles(x);
    assert Power(i + 1) == Double(Power(i));
  }

  function Shift4(x: Bits): Bits {
    Shift(Shift(Shift(Shift(x))))
  }

  lemma FourMore(i: nat, x: Bits)
    requires Power(i) == Value(x)
    ensures Power(i + 4) == Value(Shift4(x))
  {
    hide Power, Shift, Value;
    OneMore(i, x);
    OneMore(i + 1, Shift(x));
    OneMore(i + 2, Shift(Shift(x)));
    OneMore(i + 3, Shift(Shift(Shift(x))));
  }

  function Shift16(x: Bits): Bits {
    Shift4(Shift4(Shift4(Shift4(x))))
  }

  lemma SixteenMore(i: nat, x: Bits)
    requires Power(i) == Value(x)
    ensures Power(i + 16) == Value(Shift16(x))
  {
    hide Power, Shift4, Value;
    FourMore(i, x);
    FourMore(i + 4, Shift4(x));
    FourMore(i + 8, Shift4(Shift4(x)));
    FourMore(i + 12, Shift4(Shift4(Shift4(x))));
  }

  /** Seventeen doublings. */
  function Next(x: Bits): Bits {
    Shift(Shift16(x))
  }

  lemma Seventeen(i: nat, x: Bits)
    requires Power(i) == Value(x)
    ensures Power(i + 17) == Value(Next(x))
  {
    hide Power, Shift, Shift16, Value;
    SixteenMore(i, x);
    OneMore(i + 16, Shift16(x));
  }

  // Every seventeenth power, as bits.
  const P17 := Bits(true, false, false, true, true, false, false, false)
  const P34 := Bits(false, true, false, false, true, true, true, false)
  const P51 := Bits(false, false, false, false, true, false, true, false)
  const P68 := Bits(true, false, false, true, true, false, false, true)
  const P85 := Bits(true, true, false, true, false, true, true, false)
  const P102 := Bits(false, true, false, false, false, true, false, false)
  const P119 := Bits(true, false, false, true, false, false, true, true)
  const P136 := Bits(false, true, false, false, true, true, true, true)
  const P153 := Bits(true, false, false, true, false, false, true, false)
  const P170 := Bits(true, true, false, true, false, true, true, true)
  const P187 := Bits(true, true, false, true, true, true, false, false)
  const P204 := Bits(true, true, false, true, true, true, false, true)
  const P221 := Bits(false, true, false, false, false, true, false, true)
  const P238 := Bits(false, false, false, false, true, false, true, true)
  const TABLE: seq<Bits> :=
    [ONE, P17, P34, P51, P68, P85, P102, P119, P136, P153, P170, P187, P204, P221, P238, ONE]

  lemma NextFrom0()
    ensures Next(ONE) == P17 && Next(P17) == P34
  {
  }

  lemma NextFrom34()
    ensures Next(P34) == P51 && Next(P51) == P68
  {
  }

  lemma NextFrom68()
    ensures Next(P68) == P85 && Next(P85) == P102
  {
  }

  lemma NextFrom102()
    ensures Next(P102) == P119 && Next(P119) == P136
  {
  }

  lemma NextFrom136()
    ensures Next(P136) == P153 && Next(P153) == P170
  {
  }

  lemma NextFrom170()
    ensures Next(P170) == P187 && Next(P187) == P204
  {
  }

  lemma NextFrom204()
    ensures Next(P204) == P221 && Next(P221) == P238
  {
  }

  lemma NextFrom238()
    ensures Next(P238) == ONE
  {
  }

  lemma {:induction false} TableIsRight(j: nat)
    requires j <= 15
    ensures Power(17 * j) == Value(TABLE[j])
  {
    hide Next, Power, Value;
    if j == 0 {
      One();
    } else {
      NextFrom0();
      NextFrom34();
      NextFrom68();
      NextFrom102();
      NextFrom136();
      NextFrom170();
      NextFrom204();
      NextFrom238();
      TableIsRight(j - 1);
      Seventeen(17 * (j - 1), TABLE[j - 1]);
    }
  }

  lemma One()
    ensures Power(0) == 1 == Value(ONE)
  {
  }

  lemma KeyPowers()
    ensures Power(15) != 1 && Power(51) != 1 && Power(85) != 1 && Power(255) == 1
  {
    hide Power;
    PowerOf15();
    TableIsRight(3);
    TableIsRight(5);
    TableIsRight(15);
    One();
    assert Value(TABLE[3]) == 10 && Value(TABLE[5]) == 214;
  }

  lemma PowerOf15()
    ensures Power(15) != 1
  {
    assert Power(17) == Double(Double(Power(15))) by {
      assert Power(17) == Double(Power(16));
      assert Power(16) == Double(Power(15));
    }
    hide Power;
    TableIsRight(1);
    assert Value(TABLE[1]) == 152;
  }

  // ---------- the powers below 255 differ ----------

  function Gcd(a: nat, b: nat): (g: nat)
    requires a > 0 && b > 0
    ensures 0 < g <= a && g <= b
    decreases a + b
  {
    if a == b then a else if a > b then Gcd(a - b, b) else Gcd(a, b - a)
  }

  lemma DivideDifference(g: nat, a: nat, b: nat)
    requires g > 0 && a > b && (a - b) % g == 0 && b % g == 0
    ensures a % g == 0
  {
    var x, y := (a - b) / g, b / g;
    assert a == g * (x + y);
    Remainder(a, g, x + y, 0);
  }

  lemma {:induction false} GcdDivides(a: nat, b: nat)
    requires a > 0 && b > 0
    ensures a % Gcd(a, b) == 0 && b % Gcd(a, b) == 0
    decreases a + b
  {
    if a > b {
      GcdDivides(a - b, b);
      DivideDifference(Gcd(a, b), a, b);
    } else if a < b {
      GcdDivides(a, b - a);
      DivideDifference(Gcd(a, b), b, a);
    }
  }

  lemma PowerDifference(a: nat, b: nat)
    requires a > b && Power(a) == Power(b)
    ensures Power(a - b) == 1
  {
    hide Mul;
    PowerSum(a - b, b);
    PowersCancel(a - b, b);
  }

  lemma {:induction false} PowersCancel(d: nat, b: nat)
    requires Power(d + b) == Power(b)
    ensures Power(d) == 1
  {
    if b != 0 {
      DoubleInjective(Power(d + b - 1), Power(b - 1));
      PowersCancel(d, b - 1);
    }
  }

  lemma {:induction false} PowerOfGcd(a: nat, b: nat)
    requires a > 0 && b > 0 && Power(a) == 1 == Power(b)
    ensures Power(Gcd(a, b)) == 1
    decreases a + b
  {
    hide Power;
    if a > b {
      PowerDifference(a, b);
      PowerOfGcd(a - b, b);
    } else if a < b {
      PowerDifference(b, a);
      PowerOfGcd(a, b - a);
    }
  }

  lemma {:induction false} PowerOfMultiple(g: nat, n: nat)
    requires Power(g) == 1
    ensures Power(g * n) == 1
  {
    hide Power;
    if n == 0 {
      PowerZero();
      assert g * n == 0;
    } else {
      PowerOfMultiple(g, n - 1);
      PowerSum(g, g * (n - 1));
      assert g + g * (n - 1) == g * n;
      OneMul(1);
    }
  }

  lemma PowerZero()
    ensures Power(0) == 1
  {
  }

  lemma CoDivisor(g: nat, q: nat)
    requires 15 < g < 255 && g * q == 255
    ensures 51 % g == 0 || 85 % g == 0
  {
    assert q < 16 by { if q >= 16 { FactorMonotone(g, 16, q); } }
    assert q != 0 && q != 1;
    assert q == 3 || q == 5 || q == 15 by { SmallDivisor(q, g); }
  }

  lemma SmallDivisor(q: nat, g: nat)
    requires 1 < q < 16 && g * q == 255
    ensures q == 3 || q == 5 || q == 15
  {
    assert 255 % q == 0 by { Remainder(255, q, g, 0); }
  }

  /** A proper divisor of 255 divides 15, 51 or 85. */
  lemma ProperDivisors(g: nat)
    requires 0 < g < 255 && 255 % g == 0
    ensures 15 % g == 0 || 51 % g == 0 || 85 % g == 0
  {
    var q := 255 / g;
    assert g * q == 255;
    if g > 15 {
      CoDivisor(g, q);
    }
  }

  lemma NoMultipleIsOne(g: nat, n: nat)
    requires g > 0 && n % g == 0 && Power(n) != 1
    ensures Power(g) != 1
  {
    hide Power;
    assert g * (n / g) == n;
    if Power(g) == 1 {
      PowerOfMultiple(g, n / g);
    }
  }

  /** The order of 2 is 255. */
  lemma NoSmallerOrder(d: nat)
    requires 0 < d < 255
    ensures Power(d) != 1
  {
    hide Power;
    KeyPowers();
    if Power(d) == 1 {
      var g := Gcd(d, 255);
      GcdDivides(d, 255);
      PowerOfGcd(d, 255);
      ProperDivisors(g);
      if 15 % g == 0 { NoMultipleIsOne(g, 15); }
      if 51 % g == 0 { NoMultipleIsOne(g, 51); }
      if 85 % g == 0 { NoMultipleIsOne(g, 85); }
    }
  }

  lemma PowersDiffer(i: nat, j: nat)
    requires i < j < 255
    ensures Power(i) != Power(j)
  {
    hide Power;
    if Power(i) == Power(j) {
      PowerDifference(j, i);
      NoSmallerOrder(j - i);
    }
  }

  lemma {:induction false} PowerIsNotZero(i: nat)
    ensures Power(i) != 0
  {
    if i != 0 {
      PowerIsNotZero(i - 1);
      if Power(i) == 0 { OnlyZeroDoublesToZero(Power(i - 1)); }
    }
  }

  /** The first n powers. */
  ghost function Powers(n: nat): set<nat> {
    if n == 0 then {} else Powers(n - 1) + {Power(n - 1)}
  }

  ghost predicate IsPowerBelow(a: nat, n: nat) {
    exists i :: 0 <= i < n && Power(i) == a
  }

  lemma {:induction false} PowersOf(n: nat, a: nat)
    ensures a in Powers(n) <==> IsPowerBelow(a, n)
  {
    if n != 0 {
      PowersOf(n - 1, a);
      assert Powers(n) == Powers(n - 1) + {Power(n - 1)};
      if IsPowerBelow(a, n) {
        var i :| 0 <= i < n && Power(i) == a;
        if i < n - 1 { assert IsPowerBelow(a, n - 1); }
      }
    }
  }

  lemma {:induction false} CountPowers(n: nat)
    requires n <= 255
    ensures |Powers(n)| == n && Powers(n) <= Range(1, 256)
  {
    hide Power, Range;
    if n != 0 {
      CountPowers(n - 1);
      PowerIsNotZero(n - 1);
      PowersOf(n - 1, Power(n - 1));
      if Power(n - 1) in Powers(n - 1) {
        var i :| 0 <= i < n - 1 && Power(i) == Power(n - 1);
        PowersDiffer(i, n - 1);
      }
    }
  }

  /** Every byte but zero is a power of 2. */
  lemma EveryByteIsPower(a: byte)
    requires a != 0
    ensures exists i :: 0 <= i < 255 && Power(i) == a
  {
    hide Powers, Range;
    CountPowers(255);
    SubsetSize(Powers(255), Range(1, 256));
    assert a in Range(1, 256);
    PowersOf(255, a);
  }

  lemma HasInverse(a: byte)
    requires a != 0
    ensures exists b: byte :: Mul(b, a) == 1
  {
    hide Power, Mul;
    EveryByteIsPower(a);
    var i :| 0 <= i < 255 && Power(i) == a;
    PowerSum(255 - i, i);
    KeyPowers();
    assert Mul(Power(255 - i), a) == 1;
  }

  /** The greatest b up to n with ba == 1, or zero. */
  function FindInverse(a: byte, n: byte): byte {
    if n == 0 || Mul(n, a) == 1 then n else FindInverse(a, n - 1)
  }

  lemma {:induction false} FindInverseFinds(a: byte, n: byte, b: byte)
    requires b <= n && Mul(b, a) == 1
    ensures Mul(FindInverse(a, n), a) == 1
  {
    if n != 0 && Mul(n, a) != 1 { FindInverseFinds(a, n - 1, b); }
  }

  function GF256(): Field {
    Field((a: byte, b: byte) => Mul(a, b), (a: byte) => FindInverse(a, 255))
  }

  lemma GF256IsField()
    ensures IsField(GF256())
  {
    hide Mul, BitXor, FindInverse;
    var f := GF256();
    forall a: byte, b: byte ensures f.mul(a, b) == f.mul(b, a) { MulCommutes(a, b); }
    forall a: byte, b: byte, c: byte ensures f.mul(f.mul(a, b), c) == f.mul(a, f.mul(b, c)) { MulAssociates(a, b, c); }
    forall a: byte, b: byte, c: byte ensures f.mul(a, XorByte(b, c)) == XorByte(f.mul(a, b), f.mul(a, c)) {
      MulAddsRight(a, b, c);
    }
    forall a: byte ensures f.mul(1, a) == a { OneMul(a); }
    forall a: byte | a != 0 ensures f.mul(f.inv(a), a) == 1 {
      HasInverse(a);
      var b: byte :| Mul(b, a) == 1;
      FindInverseFinds(a, 255, b);
    }
  }

  /** A lawful column code for any k data and p parity shards, 256 in all. */
  lemma LawfulCodeExists(k: nat, p: nat)
    requires k + p <= 256
    ensures Lawful(Interpolation(GF256(), k, p), k, p)
  {
    GF256IsField();
    InterpolationIsLawful(GF256(), k, p);
  }
}
