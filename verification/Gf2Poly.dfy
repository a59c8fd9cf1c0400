/** Polynomials over GF(2), a number's bits being the coefficients: addition is Xor, multiplication
    is carry-less. Both the check bits of the format and version words and the field GF(256) are
    remainders in this ring. */
module Gf2Poly {
  import opened Bits

  /** The carry-less product. */
  function ClMul(a: nat, b: nat): nat {
    if b == 0 then 0 else Xor(Select(a, b), 2 * ClMul(a, b / 2))
  }

  /** g has degree d. */
  predicate HasDegree(g: nat, d: nat) {
    Pow2(d) <= g < Pow2(d + 1)
  }

  /** One reduction: subtract g when the coefficient at its degree is set. */
  function Reduce(r: nat, d: nat, g: nat): nat {
    if r >= Pow2(d) then Xor(r, g) else r
  }

  /** The remainder of v modulo g, a polynomial of degree d. */
  function PolyMod(v: nat, d: nat, g: nat): nat {
    if v == 0 then 0 else Reduce(2 * PolyMod(v / 2, d, g) + v % 2, d, g)
  }

  /** The quotient of v by g. */
  function PolyQuot(v: nat, d: nat, g: nat): nat {
    if v == 0 then 0
    else 2 * PolyQuot(v / 2, d, g) + (if 2 * PolyMod(v / 2, d, g) + v % 2 >= Pow2(d) then 1 else 0)
  }

  // ----- the ring laws -----

  lemma ClMulStep(a: nat, b: nat)
    ensures ClMul(a, b) == Xor(Select(a, b), 2 * ClMul(a, b / 2))
  {
    XorZero(0);
  }

  lemma {:induction false} ClMulZero(b: nat)
    ensures ClMul(0, b) == 0 == ClMul(b, 0)
  {
    if b == 0 {
    } else {
      ClMulZero(b / 2);
      XorZero(0);
    }
  }

  lemma {:induction false} ClMulOne(b: nat)
    ensures ClMul(1, b) == b == ClMul(b, 1)
  {
    XorZero(b);
    if b == 0 {
    } else {
      ClMulOne(b / 2);
      XorComm(b % 2, 2 * (b / 2));
      XorLowBit(b / 2, b % 2);
    }
  }

  lemma {:induction false} ClMulDistLeft(a: nat, b: nat, c: nat)
    ensures ClMul(Xor(a, b), c) == Xor(ClMul(a, c), ClMul(b, c))
  {
    if c == 0 {
      XorZero(0);
    } else {
      var x, y := ClMul(a, c / 2), ClMul(b, c / 2);
      ClMulDistLeft(a, b, c / 2);
      XorDouble(x, y);
      XorZero(0);
      if c % 2 == 1 {
        XorShuffle(a, 2 * x, b, 2 * y);
      } else {
        XorShuffle(0, 2 * x, 0, 2 * y);
      }
    }
  }

  lemma {:induction false} ClMulDistRight(a: nat, b: nat, c: nat)
    ensures ClMul(a, Xor(b, c)) == Xor(ClMul(a, b), ClMul(a, c))
    decreases b + c
  {
    if b == 0 && c == 0 {
      XorZero(0);
    } else {
      var x, y := ClMul(a, b / 2), ClMul(a, c / 2);
      var p, q := Select(a, b), Select(a, c);
      calc {
        ClMul(a, Xor(b, c));
        { ClMulStep(a, Xor(b, c)); XorStep(b, c); }
        Xor(Select(a, b + c), 2 * ClMul(a, Xor(b / 2, c / 2)));
        { ClMulDistRight(a, b / 2, c / 2); XorDouble(x, y); SelectXor(a, b, c); }
        Xor(Xor(p, q), Xor(2 * x, 2 * y));
        { XorShuffle(p, q, 2 * x, 2 * y); }
        Xor(Xor(p, 2 * x), Xor(q, 2 * y));
        { ClMulStep(a, b); ClMulStep(a, c); }
        Xor(ClMul(a, b), ClMul(a, c));
      }
    }
  }

  /** a when the low bit of b is set. */
  function Select(a: nat, b: nat): nat {
    if b % 2 == 1 then a else 0
  }

  lemma SelectXor(a: nat, b: nat, c: nat)
    ensures Select(a, b + c) == Xor(Select(a, b), Select(a, c))
  {
    XorZero(a);
    XorSelf(a);
    XorZero(0);
  }

  lemma {:induction false} ClMulDouble(a: nat, b: nat)
    ensures ClMul(2 * a, b) == 2 * ClMul(a, b) == ClMul(a, 2 * b)
  {
    ClMulStep(a, 2 * b);
    assert (2 * b) / 2 == b && (2 * b) % 2 == 0;
    XorZero(2 * ClMul(a, b));
    if b == 0 {
    } else {
      ClMulDouble(a, b / 2);
      XorDouble(Select(a, b), 2 * ClMul(a, b / 2));
    }
  }

  /** Splitting off the low bit of the left operand. */
  lemma ClMulSplitLeft(a: nat, b: nat)
    ensures ClMul(a, b) == Xor(Select(b, a), 2 * ClMul(a / 2, b))
  {
    var h := a / 2;
    XorLowBit(h, a % 2);
    XorComm(2 * h, a % 2);
    assert a == Xor(a % 2, 2 * h);
    ClMulDistLeft(a % 2, 2 * h, b);
    ClMulDouble(h, b);
    ClMulOne(b);
    ClMulZero(b);
  }

  lemma {:induction false} ClMulComm(a: nat, b: nat)
    ensures ClMul(a, b) == ClMul(b, a)
  {
    if a == 0 {
      ClMulZero(b);
    } else {
      ClMulComm(a / 2, b);
      ClMulSplitLeft(a, b);
      ClMulStep(b, a);
    }
  }

  lemma {:induction false} ClMulAssoc(a: nat, b: nat, c: nat)
    ensures ClMul(ClMul(a, b), c) == ClMul(a, ClMul(b, c))
  {
    if c == 0 {
      ClMulZero(a);
    } else {
      var x := ClMul(b, c / 2);
      ClMulAssoc(a, b, c / 2);
      ClMulStep(ClMul(a, b), c);
      ClMulStep(b, c);
      ClMulDistRight(a, Select(b, c), 2 * x);
      ClMulDouble(a, x);
      ClMulZero(a);
    }
  }

  // ----- remainders -----

  lemma {:induction false} PolyModBound(v: nat, d: nat, g: nat)
    requires HasDegree(g, d)
    ensures PolyMod(v, d, g) < Pow2(d)
  {
    if v == 0 {
    } else {
      PolyModBound(v / 2, d, g);
      XorBound(2 * PolyMod(v / 2, d, g) + v % 2, g, d + 1);
    }
  }

  lemma ReduceLinear(r: nat, s: nat, d: nat, g: nat)
    requires HasDegree(g, d) && r < Pow2(d + 1) && s < Pow2(d + 1)
    ensures Reduce(Xor(r, s), d, g) == Xor(Reduce(r, d, g), Reduce(s, d, g))
  {
    XorBound(r, s, d + 1);
    XorShuffle(r, g, s, g);
    XorSelf(g);
    XorZero(Xor(r, s));
    XorAssoc(r, s, g);
    XorAssoc(r, g, s);
    XorComm(g, s);
  }

  lemma PolyModStep(v: nat, d: nat, g: nat)
    ensures PolyMod(v, d, g) == Reduce(2 * PolyMod(v / 2, d, g) + v % 2, d, g)
  {
  }

  /** Appending the coefficients b and c below the polynomials u and w. */
  lemma XorAppend(u: nat, w: nat, b: nat, c: nat)
    requires b < 2 && c < 2
    ensures Xor(2 * u + b, 2 * w + c) == 2 * Xor(u, w) + (b + c) % 2
  {
    hide Xor;
    var x, y := 2 * u + b, 2 * w + c;
    XorStep(x, y);
    assert x / 2 == u && y / 2 == w;
    assert (x + y) % 2 == (b + c) % 2;
  }

  lemma {:induction false} PolyModLinear(u: nat, v: nat, d: nat, g: nat)
    requires HasDegree(g, d)
    ensures PolyMod(Xor(u, v), d, g) == Xor(PolyMod(u, d, g), PolyMod(v, d, g))
    decreases u + v
  {
    if u == 0 && v == 0 {
      XorZero(0);
    } else {
      PolyModLinear(u / 2, v / 2, d, g);
      LinearStep(u, v, d, g);
    }
  }

  lemma LinearStep(u: nat, v: nat, d: nat, g: nat)
    requires HasDegree(g, d)
    requires PolyMod(Xor(u / 2, v / 2), d, g) == Xor(PolyMod(u / 2, d, g), PolyMod(v / 2, d, g))
    ensures PolyMod(Xor(u, v), d, g) == Xor(PolyMod(u, d, g), PolyMod(v, d, g))
  {
    hide *;
    PolyModBound(u / 2, d, g);
    PolyModBound(v / 2, d, g);
    XorStep(u, v);
    ParitySum(u, v);
    PolyModStep(Xor(u, v), d, g);
    PolyModStep(u, d, g);
    PolyModStep(v, d, g);
    BringDown(PolyMod(u / 2, d, g), PolyMod(v / 2, d, g), u % 2, v % 2, d, g);
  }

  /** Bringing down one more coefficient and reducing is linear. */
  lemma BringDown(x: nat, y: nat, b: nat, c: nat, d: nat, g: nat)
    requires HasDegree(g, d) && x < Pow2(d) && y < Pow2(d) && b < 2 && c < 2
    ensures Reduce(2 * Xor(x, y) + (b + c) % 2, d, g) == Xor(Reduce(2 * x + b, d, g), Reduce(2 * y + c, d, g))
  {
    hide Xor;
    XorAppend(x, y, b, c);
    ReduceLinear(2 * x + b, 2 * y + c, d, g);
  }

  lemma ParitySum(u: nat, v: nat)
    ensures (u + v) % 2 == (u % 2 + v % 2) % 2
  {
  }

  lemma {:induction false} PolyModSmall(v: nat, d: nat, g: nat)
    requires v < Pow2(d)
    ensures PolyMod(v, d, g) == v
  {
    if v == 0 {
    } else {
      PolyModSmall(v / 2, d, g);
    }
  }

  lemma {:induction false} PolyModMultiple(q: nat, d: nat, g: nat)
    requires HasDegree(g, d)
    ensures PolyMod(ClMul(g, q), d, g) == 0
  {
    if q == 0 {
    } else {
      var x := ClMul(g, q / 2);
      PolyModMultiple(q / 2, d, g);
      assert PolyMod(2 * x, d, g) == 0 by {
        assert (2 * x) / 2 == x && (2 * x) % 2 == 0;
        PolyModStep(2 * x, d, g);
      }
      assert PolyMod(g, d, g) == 0 by {
        PolyModSmall(g / 2, d, g);
        PolyModStep(g, d, g);
        XorSelf(g);
      }
      PolyModLinear(Select(g, q), 2 * x, d, g);
      XorZero(0);
    }
  }

  /** Division with remainder: v == g * quotient + remainder. */
  lemma {:induction false} PolyDivision(v: nat, d: nat, g: nat)
    requires HasDegree(g, d)
    ensures v == Xor(ClMul(g, PolyQuot(v, d, g)), PolyMod(v, d, g))
  {
    hide Xor, ClMul, Pow2;
    if v == 0 {
      ClMulZero(g);
      XorZero(0);
    } else {
      PolyDivision(v / 2, d, g);
      DivisionBit(v / 2, v % 2, PolyQuot(v / 2, d, g), PolyMod(v / 2, d, g), d, g);
    }
  }

  lemma DivisionBit(h: nat, b: nat, q: nat, m: nat, d: nat, g: nat)
    requires h == Xor(ClMul(g, q), m) && b < 2
    ensures 2 * h + b
         == Xor(ClMul(g, 2 * q + (if 2 * m + b >= Pow2(d) then 1 else 0)), Reduce(2 * m + b, d, g))
  {
    hide *;
    XorAppend(ClMul(g, q), m, 0, b);
    DivisionStep(ClMul(g, q), q, 2 * m + b, d, g);
  }

  /** One step of the division: r is the remainder so far with the next coefficient brought down. */
  lemma DivisionStep(x: nat, q: nat, r: nat, d: nat, g: nat)
    requires x == ClMul(g, q)
    ensures Xor(2 * x, r) == Xor(ClMul(g, 2 * q + (if r >= Pow2(d) then 1 else 0)), Reduce(r, d, g))
  {
    var q1 := 2 * q + 1;
    assert q1 / 2 == q && q1 % 2 == 1;
    ClMulDouble(g, q);
    ClMulStep(g, q1);
    if r >= Pow2(d) {
      calc {
        Xor(ClMul(g, q1), Xor(r, g));
        { XorComm(g, 2 * x); XorComm(r, g); }
        Xor(Xor(2 * x, g), Xor(g, r));
        { XorAssoc(2 * x, g, Xor(g, r)); XorCancel(g, r); }
        Xor(2 * x, r);
      }
    }
  }

  /** The remainder is the only polynomial of degree below d that differs from v by a multiple of g. */
  lemma RemainderUnique(v: nat, q: nat, r: nat, d: nat, g: nat)
    requires HasDegree(g, d) && r < Pow2(d)
    requires v == Xor(ClMul(g, q), r)
    ensures PolyMod(v, d, g) == r
  {
    PolyModLinear(ClMul(g, q), r, d, g);
    PolyModMultiple(q, d, g);
    PolyModSmall(r, d, g);
    XorZero(r);
  }

  /** Reducing a factor first does not change the remainder of a product. */
  lemma PolyModProduct(a: nat, b: nat, d: nat, g: nat)
    requires HasDegree(g, d)
    ensures PolyMod(ClMul(PolyMod(a, d, g), b), d, g) == PolyMod(ClMul(a, b), d, g)
  {
    var q, m := PolyQuot(a, d, g), PolyMod(a, d, g);
    PolyDivision(a, d, g);
    ClMulDistLeft(ClMul(g, q), m, b);
    ClMulAssoc(g, q, b);
    PolyModLinear(ClMul(g, ClMul(q, b)), ClMul(m, b), d, g);
    PolyModMultiple(ClMul(q, b), d, g);
    XorZero(PolyMod(ClMul(m, b), d, g));
  }
}
