/** The field GF(256) of the QR symbology: polynomials over GF(2) modulo 0x11D, with generator 2. */
module Gf256 {
  import opened Bits
  import opened Gf2Poly

  type Byte = x: int | 0 <= x < 256

  const PRIMITIVE: nat := 0x11D

  lemma PrimitiveDegree()
    ensures Pow2(8) == 256 && HasDegree(PRIMITIVE, 8)
  {
  }

  function Add(a: Byte, b: Byte): Byte {
    PrimitiveDegree();
    XorBound(a, b, 8);
    Xor(a, b)
  }

  /** The product in the field: the carry-less product modulo 0x11D. */
  function Mul(a: Byte, b: Byte): Byte {
    PrimitiveDegree();
    PolyModBound(ClMul(a, b), 8, PRIMITIVE);
    PolyMod(ClMul(a, b), 8, PRIMITIVE)
  }

  /** Multiplication by 2, as one shift and a conditional subtraction. */
  function Twice(a: Byte): Byte {
    PrimitiveDegree();
    XorBound(2 * a, PRIMITIVE, 9);
    if 2 * a >= 256 then Xor(2 * a, PRIMITIVE) else 2 * a
  }

  /** The powers of the generator. */
  function Alpha(i: nat): Byte {
    if i == 0 then 1 else Twice(Alpha(i - 1))
  }

  // ----- field laws -----

  lemma AddComm(a: Byte, b: Byte)
    ensures Add(a, b) == Add(b, a)
  {
    XorComm(a, b);
  }

  lemma AddAssoc(a: Byte, b: Byte, c: Byte)
    ensures Add(Add(a, b), c) == Add(a, Add(b, c))
  {
    XorAssoc(a, b, c);
  }

  lemma AddZero(a: Byte)
    ensures Add(a, 0) == a == Add(0, a)
  {
    XorZero(a);
  }

  lemma AddSelf(a: Byte, b: Byte)
    ensures Add(a, b) == 0 <==> a == b
  {
    XorSelf(a);
    XorCancel(a, b);
    XorZero(b);
  }

  lemma AddShuffle(a: Byte, b: Byte, c: Byte, d: Byte)
    ensures Add(Add(a, b), Add(c, d)) == Add(Add(a, c), Add(b, d))
  {
    XorShuffle(a, b, c, d);
  }

  lemma MulComm(a: Byte, b: Byte)
    ensures Mul(a, b) == Mul(b, a)
  {
    ClMulComm(a, b);
  }

  lemma MulAssoc(a: Byte, b: Byte, c: Byte)
    ensures Mul(Mul(a, b), c) == Mul(a, Mul(b, c))
  {
    PrimitiveDegree();
    calc {
      Mul(Mul(a, b), c);
      { PolyModProduct(ClMul(a, b), c, 8, PRIMITIVE); }
      PolyMod(ClMul(ClMul(a, b), c), 8, PRIMITIVE);
      { ClMulAssoc(a, b, c); ClMulComm(a, ClMul(b, c)); }
      PolyMod(ClMul(ClMul(b, c), a), 8, PRIMITIVE);
      { PolyModProduct(ClMul(b, c), a, 8, PRIMITIVE); }
      Mul(Mul(b, c), a);
      { MulComm(Mul(b, c), a); }
      Mul(a, Mul(b, c));
    }
  }

  lemma MulDist(a: Byte, b: Byte, c: Byte)
    ensures Mul(a, Add(b, c)) == Add(Mul(a, b), Mul(a, c))
    ensures Mul(Add(b, c), a) == Add(Mul(b, a), Mul(c, a))
  {
    PrimitiveDegree();
    ClMulDistRight(a, b, c);
    PolyModLinear(ClMul(a, b), ClMul(a, c), 8, PRIMITIVE);
    MulComm(a, Add(b, c));
    MulComm(a, b);
    MulComm(a, c);
  }

  lemma MulOne(a: Byte)
    ensures Mul(a, 1) == a == Mul(1, a)
  {
    PrimitiveDegree();
    ClMulOne(a);
    PolyModSmall(a, 8, PRIMITIVE);
  }

  lemma MulZero(a: Byte)
    ensures Mul(a, 0) == 0 == Mul(0, a)
  {
    ClMulZero(a);
  }

  lemma TwiceIsMul(a: Byte)
    ensures Twice(a) == Mul(2, a)
  {
    PrimitiveDegree();
    ClMulDouble(1, a);
    ClMulOne(a);
    PolyModSmall(a, 8, PRIMITIVE);
    var d := 2 * a;
    assert d / 2 == a && d % 2 == 0;
    PolyModStep(d, 8, PRIMITIVE);
  }

  lemma {:induction false} AlphaAdd(i: nat, j: nat)
    ensures Alpha(i + j) == Mul(Alpha(i), Alpha(j))
  {
    if i == 0 {
      MulOne(Alpha(j));
    } else {
      AlphaAdd(i - 1, j);
      TwiceIsMul(Alpha(i + j - 1));
      TwiceIsMul(Alpha(i - 1));
      MulAssoc(2, Alpha(i - 1), Alpha(j));
    }
  }

  // ----- the generator has order 255 -----

  lemma TwiceInjective(a: Byte, b: Byte)
    requires Twice(a) == Twice(b)
    ensures a == b
  {
    TwiceSum(a);
    TwiceSum(b);
    if 2 * a >= 256 && 2 * b >= 256 {
      XorCancel(2 * a, PRIMITIVE);
      XorCancel(2 * b, PRIMITIVE);
    }
  }

  /** Subtracting 0x11D from 2 * a flips bits 8, 4, 3, 2 and 0. */
  lemma TwiceSum(a: Byte)
    ensures Twice(a) == TwiceByFlips(a)
  {
    hide Xor;
    if a >= 128 {
      var b, c, d := a / 2, a / 4, a / 8;
      assert c == b / 2 && d == c / 2 && a / 16 == d / 2;
      XorTopNibble(a / 16);
      XorAppend(a / 16, 8, d % 2, 1);
      TwiceTail(d, c % 2, b % 2, a % 2);
    }
  }

  function TwiceByFlips(a: Byte): int {
    if a < 128 then 2 * a else 2 * a - 255 + Flip(a / 2, 4) + Flip(a / 4, 8) + Flip(a / 8, 16)
  }

  /** The change when the bit worth p is flipped, given the digits from that bit up. */
  function Flip(digits: nat, p: int): int {
    if digits % 2 == 1 then -p else p
  }

  lemma XorTopNibble(e: nat)
    requires 8 <= e < 16
    ensures Xor(e, 8) == e - 8
  {
    assert Pow2(3) == 8;
    XorDisjoint(1, e - 8, 3);
    XorComm(8, e - 8);
    XorCancel(e - 8, 8);
  }

  lemma TwiceTail(d: nat, c0: nat, b0: nat, a0: nat)
    requires c0 < 2 && b0 < 2 && a0 < 2
    ensures Xor(2 * (2 * (2 * (2 * d + c0) + b0) + a0), PRIMITIVE)
         == 16 * Xor(d, 17) + 8 * (1 - c0) + 4 * (1 - b0) + 2 * a0 + 1
  {
    hide Xor;
    var c := 2 * d + c0;
    var b := 2 * c + b0;
    XorAppend(d, 17, c0, 1);
    XorAppend(c, 35, b0, 1);
    XorAppend(b, 71, a0, 0);
    XorAppend(2 * b + a0, 142, 0, 1);
  }

  lemma {:induction false} AlphaCancel(i: nat, j: nat)
    requires Alpha(i) == Alpha(i + j)
    ensures Alpha(j) == 1
  {
    if i == 0 {
    } else {
      TwiceInjective(Alpha(i - 1), Alpha(i + j - 1));
      AlphaCancel(i - 1, j);
    }
  }

  lemma {:induction false} AlphaNonZero(i: nat)
    ensures Alpha(i) != 0
  {
    if i == 0 {
    } else {
      AlphaNonZero(i - 1);
      TwiceSum(Alpha(i - 1));
    }
  }

  lemma Next(i: nat, x: Byte)
    requires Alpha(i) == x
    ensures Alpha(i + 1) == TwiceByFlips(x)
  {
    TwiceSum(x);
  }

  lemma PowersFrom1(i: nat)
    requires Alpha(i) == 1
    ensures Alpha(i + 8) == 29
  {
    hide Alpha;
    Next(i, 1); Next(i + 1, 2); Next(i + 2, 4); Next(i + 3, 8); Next(i + 4, 16); Next(i + 5, 32); Next(i + 6, 64); Next(i + 7, 128);
  }

  lemma PowersFrom29(i: nat)
    requires Alpha(i) == 29
    ensures Alpha(i + 7) == 38
  {
    hide Alpha;
    Next(i, 29); Next(i + 1, 58); Next(i + 2, 116); Next(i + 3, 232); Next(i + 4, 205); Next(i + 5, 135); Next(i + 6, 19);
  }

  lemma PowersFrom38(i: nat)
    requires Alpha(i) == 38
    ensures Alpha(i + 7) == 234
  {
    hide Alpha;
    Next(i, 38); Next(i + 1, 76); Next(i + 2, 152); Next(i + 3, 45); Next(i + 4, 90); Next(i + 5, 180); Next(i + 6, 117);
  }

  lemma PowersFrom234(i: nat)
    requires Alpha(i) == 234
    ensures Alpha(i + 7) == 48
  {
    hide Alpha;
    Next(i, 234); Next(i + 1, 201); Next(i + 2, 143); Next(i + 3, 3); Next(i + 4, 6); Next(i + 5, 12); Next(i + 6, 24);
  }

  lemma PowersFrom48(i: nat)
    requires Alpha(i) == 48
    ensures Alpha(i + 6) == 156
  {
    hide Alpha;
    Next(i, 48); Next(i + 1, 96); Next(i + 2, 192); Next(i + 3, 157); Next(i + 4, 39); Next(i + 5, 78);
  }

  lemma PowersFrom156(i: nat)
    requires Alpha(i) == 156
    ensures Alpha(i + 8) == 119
  {
    hide Alpha;
    Next(i, 156); Next(i + 1, 37); Next(i + 2, 74); Next(i + 3, 148); Next(i + 4, 53); Next(i + 5, 106); Next(i + 6, 212); Next(i + 7, 181);
  }

  lemma PowersFrom119(i: nat)
    requires Alpha(i) == 119
    ensures Alpha(i + 8) == 10
  {
    hide Alpha;
    Next(i, 119); Next(i + 1, 238); Next(i + 2, 193); Next(i + 3, 159); Next(i + 4, 35); Next(i + 5, 70); Next(i + 6, 140); Next(i + 7, 5);
  }

  /** Common periods have a common divisor that is a period. */
  lemma {:induction false} CommonPeriod(d: nat, n: nat) returns (g: nat, p: nat, q: nat)
    requires 0 < d && 0 < n && Alpha(d) == 1 && Alpha(n) == 1
    ensures 0 < g <= d && Alpha(g) == 1 && d == p * g && n == q * g
    decreases d + n
  {
    if d == n {
      g, p, q := d, 1, 1;
    } else if d < n {
      var q';
      AlphaCancel(d, n - d);
      g, p, q' := CommonPeriod(d, n - d);
      q := p + q';
      MulSum(p, q', g);
    } else {
      var p';
      AlphaCancel(n, d - n);
      g, p', q := CommonPeriod(d - n, n);
      p := p' + q;
      MulSum(p', q, g);
    }
  }

  lemma MulSum(p: nat, q: nat, g: nat)
    ensures (p + q) * g == p * g + q * g
  {
  }

  /** The powers around the divisors of 255: the fifteenth is not 1, the fifty-first is 10. */
  lemma LandmarkPowers()
    ensures Alpha(8) == 29 && Alpha(15) == 38 && Alpha(35) == 156 && Alpha(51) == 10
  {
    assert Alpha(0) == 1;
    hide Alpha;
    PowersFrom1(0);
    PowersFrom29(8);
    PowersFrom38(15);
    PowersFrom234(22);
    PowersFrom48(29);
    PowersFrom156(35);
    PowersFrom119(43);
  }

  lemma SquareOfSum(a: Byte, b: Byte)
    ensures Mul(Add(a, b), Add(a, b)) == Add(Mul(a, a), Mul(b, b))
  {
    hide *;
    var s, t := Mul(a, a), Mul(b, b);
    var m := Mul(a, b);
    MulDist(Add(a, b), a, b);
    MulDist(a, a, b);
    MulDist(b, a, b);
    MulComm(b, a);
    AddComm(m, t);
    AddShuffle(s, m, t, m);
    AddSelf(m, m);
    AddZero(Add(s, t));
  }

  lemma {:induction false} AlphaMultiple(k: nat, g: nat)
    requires Alpha(g) == 1
    ensures Alpha(k * g) == 1
  {
    if k == 0 {
    } else {
      AlphaMultiple(k - 1, g);
      assert k * g == g + (k - 1) * g;
      AlphaAdd(g, (k - 1) * g);
      MulOne(1);
    }
  }

  /** 10 == 2 + 8, so the doubled powers of 51 are sums of two small powers. */
  lemma Alpha255()
    ensures Alpha(255) == 1
  {
    hide Xor, Mul, Twice, Alpha;
    LandmarkPowers();
    SmallPowers();
    AlphaAdd(51, 51);
    AlphaAdd(102, 102);
    AlphaAdd(204, 51);
    assert Add(Alpha(1), Alpha(3)) == 10 by {
      XorDisjointBytes(1, 2, 3);
    }
    SquareOfSum(Alpha(1), Alpha(3));
    AlphaAdd(1, 1);
    AlphaAdd(3, 3);
    SquareOfSum(Alpha(2), Alpha(6));
    AlphaAdd(2, 2);
    AlphaAdd(6, 6);
    assert Alpha(204) == Add(Alpha(4), Alpha(12));
    MulDist(Alpha(51), Alpha(4), Alpha(12));
    MulDist(Alpha(4), Alpha(1), Alpha(3));
    MulDist(Alpha(12), Alpha(1), Alpha(3));
    AlphaAdd(4, 1);
    AlphaAdd(4, 3);
    AlphaAdd(12, 1);
    AlphaAdd(12, 3);
    LastSum();
  }

  lemma XorDisjointBytes(a: nat, b: nat, n: nat)
    requires b < Pow2(n)
    ensures Xor(b, a * Pow2(n)) == b + a * Pow2(n)
  {
    XorDisjoint(a, b, n);
    XorComm(a * Pow2(n), b);
  }

  lemma SmallPowers()
    ensures Alpha(1) == 2 && Alpha(3) == 8 && Alpha(5) == 32 && Alpha(7) == 128 && Alpha(13) == 135
  {
    assert Alpha(0) == 1;
    hide Alpha;
    Next(0, 1); Next(1, 2); Next(2, 4); Next(3, 8); Next(4, 16); Next(5, 32); Next(6, 64);
    Next(7, 128); Next(8, 29); Next(9, 58); Next(10, 116); Next(11, 232); Next(12, 205);
  }

  /** 32 + 128 + 135 + 38 == 1. */
  lemma LastSum()
    ensures Add(Add(32, 128), Add(135, 38)) == 1
  {
    hide Xor;
    assert Pow2(5) == 32 && Pow2(7) == 128;
    XorDisjointBytes(1, 32, 7);
    XorStep(135, 38); XorStep(67, 19); XorStep(33, 9); XorStep(16, 4); XorStep(8, 2); XorStep(4, 1);
    XorZero(2);
    XorStep(2, 0);
    assert Xor(135, 38) == 161;
    XorLowBit(80, 1);
    XorAssoc(160, 160, 1);
    XorSelf(160);
    XorZero(1);
  }

  lemma DivisorsOf255(q: nat, g: nat)
    requires q * g == 255 && 1 <= g < 255
    ensures 15 % g == 0 || 51 % g == 0 || 85 % g == 0
  {
    if g > 15 {
      MultipleGap(q - 15, g);
      assert q * g == 15 * g + (q - 15) * g;
      assert q == 3 || q == 5 || q == 15;
    } else {
      assert g == 1 || g == 3 || g == 5 || g == 15;
    }
  }

  lemma AlphaOrder(d: nat)
    requires 0 < d < 255
    ensures Alpha(d) != 1
  {
    hide Alpha, Mul, Xor, Twice;
    if Alpha(d) == 1 {
      Alpha255();
      var g, p, q := CommonPeriod(d, 255);
      DivisorsOf255(q, g);
      var m := if 15 % g == 0 then 15 else if 51 % g == 0 then 51 else 85;
      assert m / g * g == m;
      LandmarkPowers();
      Alpha85();
      AlphaMultiple(m / g, g);
    }
  }

  lemma Alpha85()
    ensures Alpha(85) != 1
  {
    hide Alpha, Mul, Xor, Twice;
    LandmarkPowers();
    SmallPowers();
    Next(35, 156);
    Next(36, 37);
    AlphaAdd(51, 34);
    AlphaAdd(1, 34);
    AlphaAdd(3, 34);
    XorDisjointBytes(1, 2, 3);
    MulDist(Alpha(34), Alpha(1), Alpha(3));
    XorLowBit(37, 1);
    XorCancel(156, 74);
    XorComm(74, 1);
  }

  /** The first 255 powers of the generator are distinct. */
  lemma AlphaDistinct(i: nat, j: nat)
    requires i < j < 255
    ensures Alpha(i) != Alpha(j)
  {
    AlphaOrder(j - i);
    if Alpha(i) == Alpha(j) {
      AlphaCancel(i, j - i);
    }
  }

  // ----- every non-zero element is a power of the generator -----

  /** The first n powers of the generator. */
  ghost function PowerSet(n: nat): set<Byte> {
    if n == 0 then {} else PowerSet(n - 1) + {Alpha(n - 1)}
  }

  ghost function NonZeroUpTo(n: nat): set<Byte>
    requires n < 256
    ensures forall x: Byte :: x in NonZeroUpTo(n) <==> 1 <= x <= n
    ensures |NonZeroUpTo(n)| == n
  {
    if n == 0 then {} else NonZeroUpTo(n - 1) + {n}
  }

  ghost predicate IsPowerBelow(x: Byte, n: nat) {
    exists i: nat :: i < n && x == Alpha(i)
  }

  lemma {:induction false} PowerSetSize(n: nat)
    requires n <= 255
    ensures |PowerSet(n)| == n
    ensures forall x :: x in PowerSet(n) ==> x != 0 && IsPowerBelow(x, n)
  {
    hide Alpha;
    if n == 0 {
    } else {
      PowerSetSize(n - 1);
      AlphaNonZero(n - 1);
      assert IsPowerBelow(Alpha(n - 1), n);
      if Alpha(n - 1) in PowerSet(n - 1) {
        var i: nat :| i < n - 1 && Alpha(n - 1) == Alpha(i);
        AlphaDistinct(i, n - 1);
      }
    }
  }

  /** Discrete logarithms exist. */
  lemma LogExists(a: Byte) returns (i: nat)
    requires a != 0
    ensures i < 255 && Alpha(i) == a
  {
    hide Alpha;
    PowerSetSize(255);
    SubsetOfSameSize(PowerSet(255), NonZeroUpTo(255));
    assert a in PowerSet(255);
    i :| i < 255 && a == Alpha(i);
  }

  lemma SubsetOfSameSize(s: set<Byte>, t: set<Byte>)
    requires s <= t && |s| == |t|
    ensures s == t
  {
    assert |t - s| == |t| - |s|;
  }

  lemma NoZeroDivisors(a: Byte, b: Byte)
    ensures Mul(a, b) == 0 <==> a == 0 || b == 0
  {
    MulZero(a);
    MulZero(b);
    if a != 0 && b != 0 {
      var i := LogExists(a);
      var j := LogExists(b);
      AlphaAdd(i, j);
      AlphaNonZero(i + j);
    }
  }

  // ----- the antilog and log tables -----

  /** The two lookup tables, and the multiplication that reads them. */
  class Tables {
    const exp: array<Byte>
    const log: array<nat>

    ghost predicate Valid()
      reads this, exp, log
    {
      && exp.Length == 512 && log.Length == 256
      && (forall i: nat :: i < 512 ==> exp[i] == Alpha(i))
      && (forall i: nat :: i < 255 ==> log[Alpha(i)] == i)
    }

    constructor ()
      ensures Valid() && fresh(exp) && fresh(log)
    {
      AlphaStart();
      hide Alpha, Xor, Twice;
      var antilog := new Byte[512](_ => 0);
      var logs := new nat[256](_ => 0);
      var x: nat := 1;
      for i := 0 to 255
        invariant x == Alpha(i)
        invariant forall k: nat :: k < i ==> antilog[k] == Alpha(k) && logs[Alpha(k)] == k
      {
        forall k: nat | k < i
          ensures Alpha(k) != Alpha(i)
        {
          AlphaDistinct(k, i);
        }
        antilog[i] := x;
        logs[x] := i;
        AlphaStep(i);
        x := 2 * x;
        if x >= 0x100 {
          x := Xor(x, 0x11D);
        }
      }
      for i := 255 to 512
        modifies antilog
        invariant forall k: nat :: k < i ==> antilog[k] == Alpha(k)
      {
        AlphaPeriodic(i - 255);
        antilog[i] := antilog[i - 255];
      }
      exp, log := antilog, logs;
    }

    /** Table multiplication is multiplication in the field. */
    function GfMul(a: Byte, b: Byte): (p: Byte)
      requires Valid()
      reads this, exp, log
      ensures p == Mul(a, b)
    {
      LogSum(a, b);
      if a == 0 || b == 0 then 0 else exp[log[a] + log[b]]
    }

    lemma LogSum(a: Byte, b: Byte)
      requires Valid()
      ensures a == 0 || b == 0 ==> Mul(a, b) == 0
      ensures a != 0 && b != 0 ==> log[a] + log[b] < 510 && exp[log[a] + log[b]] == Mul(a, b)
    {
      hide Alpha, Mul;
      NoZeroDivisors(a, b);
      if a != 0 && b != 0 {
        var i := LogExists(a);
        var j := LogExists(b);
        AlphaAdd(i, j);
      }
    }
  }

  lemma AlphaStart()
    ensures Alpha(0) == 1
  {
  }

  lemma AlphaStep(i: nat)
    ensures var x := 2 * Alpha(i); Alpha(i + 1) == if x >= 0x100 then Xor(x, 0x11D) else x
  {
  }

  lemma AlphaPeriodic(i: nat)
    ensures Alpha(i + 255) == Alpha(i)
  {
    Alpha255();
    AlphaAdd(i, 255);
    MulOne(Alpha(i));
  }
}
