/** Unsigned integers as bit strings: the shifts and exclusive-ors that the encoder computes with.
    A left shift by n is multiplication by Pow2(n), an unsigned right shift is division by it. */
module Bits {
  import opened Arithmetic

  function Pow2(n: nat): (p: nat)
    ensures p >= 1
  {
    if n == 0 then 1 else 2 * Pow2(n - 1)
  }

  /** Bitwise exclusive or. */
  function Xor(a: nat, b: nat): nat
    decreases a + b
  {
    if a == 0 && b == 0 then 0 else 2 * Xor(a / 2, b / 2) + (a + b) % 2
  }

  /** Bitwise or. */
  function Or(a: nat, b: nat): nat
    decreases a + b
  {
    if a == 0 && b == 0 then 0 else 2 * Or(a / 2, b / 2) + (if a % 2 + b % 2 > 0 then 1 else 0)
  }

  function BitLength(v: nat): nat {
    if v == 0 then 0 else 1 + BitLength(v / 2)
  }

  /** Bit i of v, the least significant bit being bit 0. */
  predicate Bit(v: nat, i: nat) {
    if i == 0 then v % 2 == 1 else Bit(v / 2, i - 1)
  }

  /** The low n bits of v, most significant first. */
  function BitsOf(v: nat, n: nat): (bits: seq<bool>)
    ensures |bits| == n
  {
    if n == 0 then [] else BitsOf(v / 2, n - 1) + [v % 2 == 1]
  }

  /** The number whose bits are given, most significant first. */
  function ValueOf(bits: seq<bool>): nat {
    if bits == [] then 0 else 2 * ValueOf(bits[..|bits| - 1]) + (if bits[|bits| - 1] then 1 else 0)
  }

  // ----- powers of two -----

  lemma {:induction false} Pow2Add(m: nat, n: nat)
    ensures Pow2(m + n) == Pow2(m) * Pow2(n)
  {
    if m == 0 {
    } else {
      Pow2Add(m - 1, n);
      assert Pow2(m + n) == 2 * Pow2(m - 1 + n);
      TwiceProduct(Pow2(m - 1), Pow2(n));
    }
  }

  lemma {:induction false} BitLengthBounds(v: nat, n: nat)
    ensures v < Pow2(n) <==> BitLength(v) <= n
  {
    if n == 0 || v == 0 {
    } else {
      BitLengthBounds(v / 2, n - 1);
    }
  }

  // ----- exclusive or is an abelian group of exponent two -----

  lemma {:induction false} XorComm(a: nat, b: nat)
    ensures Xor(a, b) == Xor(b, a)
    decreases a + b
  {
    if a == 0 && b == 0 {
    } else {
      XorComm(a / 2, b / 2);
    }
  }

  lemma {:induction false} XorAssoc(a: nat, b: nat, c: nat)
    ensures Xor(Xor(a, b), c) == Xor(a, Xor(b, c))
    decreases a + b + c
  {
    if a == 0 && b == 0 && c == 0 {
    } else {
      XorAssoc(a / 2, b / 2, c / 2);
      AssocStep(a, b, c);
    }
  }

  lemma AssocStep(a: nat, b: nat, c: nat)
    requires Xor(Xor(a / 2, b / 2), c / 2) == Xor(a / 2, Xor(b / 2, c / 2))
    ensures Xor(Xor(a, b), c) == Xor(a, Xor(b, c))
  {
    hide Xor;
    XorStep(a, b);
    XorStep(b, c);
    XorStep(Xor(a, b), c);
    XorStep(a, Xor(b, c));
    ParityAssoc(a, b, c, Xor(a, b), Xor(b, c));
    HalvesAndParity(Xor(Xor(a, b), c), Xor(a, Xor(b, c)));
  }

  lemma HalvesAndParity(l: nat, r: nat)
    requires l / 2 == r / 2 && l % 2 == r % 2
    ensures l == r
  {
  }

  lemma ParityAssoc(a: nat, b: nat, c: nat, ab: nat, bc: nat)
    requires ab % 2 == (a + b) % 2 && bc % 2 == (b + c) % 2
    ensures (ab + c) % 2 == (a + bc) % 2
  {
  }

  /** The recursion of Xor also holds at zero, so halves and low bits can be read off any result. */
  lemma XorStep(a: nat, b: nat)
    ensures Xor(a, b) / 2 == Xor(a / 2, b / 2)
    ensures Xor(a, b) % 2 == (a + b) % 2
  {
  }

  lemma {:induction false} XorZero(a: nat)
    ensures Xor(a, 0) == a == Xor(0, a)
  {
    if a == 0 {
    } else {
      XorZero(a / 2);
    }
  }

  lemma {:induction false} XorSelf(a: nat)
    ensures Xor(a, a) == 0
  {
    if a == 0 {
    } else {
      XorSelf(a / 2);
    }
  }

  lemma XorCancel(a: nat, b: nat)
    ensures Xor(Xor(a, b), b) == a && Xor(a, Xor(a, b)) == b
  {
    XorAssoc(a, b, b);
    XorAssoc(a, a, b);
    XorSelf(a);
    XorSelf(b);
    XorZero(a);
    XorZero(b);
  }

  /** (a + b) + (c + d) == (a + c) + (b + d), reading + as exclusive or. */
  lemma XorShuffle(a: nat, b: nat, c: nat, d: nat)
    ensures Xor(Xor(a, b), Xor(c, d)) == Xor(Xor(a, c), Xor(b, d))
  {
    calc {
      Xor(Xor(a, b), Xor(c, d));
      { XorAssoc(a, b, Xor(c, d)); XorAssoc(b, c, d); }
      Xor(a, Xor(Xor(b, c), d));
      { XorComm(b, c); XorAssoc(c, b, d); XorAssoc(a, c, Xor(b, d)); }
      Xor(Xor(a, c), Xor(b, d));
    }
  }

  lemma XorDouble(a: nat, b: nat)
    ensures Xor(2 * a, 2 * b) == 2 * Xor(a, b)
  {
    hide Xor;
    var d, e := 2 * a, 2 * b;
    assert d / 2 == a && e / 2 == b && (d + e) % 2 == 0;
    XorStep(d, e);
  }

  lemma XorLowBit(a: nat, bit: nat)
    requires bit < 2
    ensures Xor(2 * a, bit) == 2 * a + bit
  {
    XorZero(a);
  }

  /** Below, at and above the n-th bit: exclusive or acts on the leading bit alone. */
  lemma {:induction false} XorBound(a: nat, b: nat, n: nat)
    requires a < Pow2(n) && b < Pow2(n)
    ensures Xor(a, b) < Pow2(n)
    ensures n > 0 ==> (Xor(a, b) >= Pow2(n - 1) <==> (a >= Pow2(n - 1)) != (b >= Pow2(n - 1)))
  {
    if n == 0 {
    } else if n == 1 {
      assert Pow2(1) == 2;
      XorStep(a, b);
      assert a / 2 == 0 && b / 2 == 0;
    } else {
      assert Pow2(n) == 2 * Pow2(n - 1) && Pow2(n - 1) == 2 * Pow2(n - 2);
      XorBound(a / 2, b / 2, n - 1);
      XorStep(a, b);
    }
  }

  /** Putting a bit string that fits below another one is the same as adding it. */
  lemma {:induction false} XorDisjoint(a: nat, b: nat, n: nat)
    requires b < Pow2(n)
    ensures Xor(a * Pow2(n), b) == a * Pow2(n) + b == Or(a * Pow2(n), b)
  {
    hide Xor, Or;
    if n == 0 {
      XorZero(a);
      OrZero(a);
    } else {
      XorDisjoint(a, b / 2, n - 1);
      TwiceProduct(a, Pow2(n - 1));
      DisjointStep(a * Pow2(n - 1), b);
    }
  }

  lemma DisjointStep(h: nat, b: nat)
    requires Xor(h, b / 2) == h + b / 2 == Or(h, b / 2)
    ensures Xor(2 * h, b) == 2 * h + b == Or(2 * h, b)
  {
    hide Xor, Or;
    XorOrDouble(h, b);
  }

  lemma XorOrDouble(h: nat, b: nat)
    ensures Xor(2 * h, b) == 2 * Xor(h, b / 2) + b % 2
    ensures Or(2 * h, b) == 2 * Or(h, b / 2) + b % 2
  {
    var d := 2 * h;
    assert d / 2 == h && d % 2 == 0 && (d + b) % 2 == b % 2;
    XorStep(d, b);
    OrStep(d, b);
  }

  lemma OrStep(a: nat, b: nat)
    ensures Or(a, b) == 2 * Or(a / 2, b / 2) + (if a % 2 + b % 2 > 0 then 1 else 0)
  {
  }

  lemma {:induction false} OrZero(a: nat)
    ensures Or(a, 0) == a
  {
    if a == 0 {
    } else {
      OrZero(a / 2);
    }
  }

  // ----- bit strings -----

  lemma {:induction false} ValueOfBits(v: nat, n: nat)
    requires v < Pow2(n)
    ensures ValueOf(BitsOf(v, n)) == v
  {
    if n == 0 {
    } else {
      ValueOfBits(v / 2, n - 1);
      assert BitsOf(v, n)[..n - 1] == BitsOf(v / 2, n - 1);
    }
  }

  lemma {:induction false} BitsOfValue(bits: seq<bool>)
    ensures ValueOf(bits) < Pow2(|bits|)
    ensures BitsOf(ValueOf(bits), |bits|) == bits
  {
    if bits == [] {
    } else {
      var init := bits[..|bits| - 1];
      BitsOfValue(init);
      assert ValueOf(bits) / 2 == ValueOf(init);
      assert bits == init + [bits[|bits| - 1]];
    }
  }

  lemma {:induction false} BitsOfAt(v: nat, n: nat, i: nat)
    requires i < n
    ensures BitsOf(v, n)[i] == Bit(v, n - 1 - i)
  {
    if i == n - 1 {
    } else {
      BitsOfAt(v / 2, n - 1, i);
    }
  }

  lemma {:induction false} BitIsShift(v: nat, i: nat)
    ensures Bit(v, i) <==> (v / Pow2(i)) % 2 == 1
  {
    if i == 0 {
    } else {
      BitIsShift(v / 2, i - 1);
      DivDiv(v, Pow2(i - 1));
    }
  }

  lemma DivDiv(v: nat, p: nat)
    requires p > 0
    ensures (v / 2) / p == v / (2 * p)
  {
    var q := (v / 2) / p;
    var r := (v / 2) % p;
    assert v / 2 == q * p + r;
    assert v == q * (2 * p) + (2 * r + v % 2);
    DivUnique(v, 2 * p, q, 2 * r + v % 2);
  }

  lemma DivUnique(v: nat, d: nat, q: nat, r: nat)
    requires v == q * d + r && r < d
    ensures v / d == q && v % d == r
  {
    var k := v / d - q;
    ProductSum(k, q, d);
    assert v == v / d * d + v % d;
    MultipleGap(k, d);
  }

  lemma MultipleGap(k: int, d: int)
    requires d > 0
    ensures k >= 1 ==> k * d >= d
    ensures k <= -1 ==> k * d <= -d
  {
    if k >= 1 {
      MultiplesApart(0, k, d);
    } else if k <= -1 {
      MultiplesApart(k, 0, d);
    }
  }
}
