/** Polynomials over GF(256), highest coefficient first, and the Reed-Solomon code of the symbology. */
module ReedSolomon {
  import opened Bits
  import opened Gf256

  // ----- polynomials -----

  function Zeros(n: nat): seq<Byte> {
    seq(n, _ => 0)
  }

  function AddSeq(p: seq<Byte>, q: seq<Byte>): seq<Byte>
    requires |p| == |q|
  {
    seq(|p|, i requires 0 <= i < |p| => Add(p[i], q[i]))
  }

  function Scale(k: Byte, p: seq<Byte>): seq<Byte> {
    seq(|p|, i requires 0 <= i < |p| => Mul(p[i], k))
  }

  /** The value of the polynomial p at x. */
  function Eval(p: seq<Byte>, x: Byte): Byte {
    if p == [] then 0 else Add(Mul(Eval(p[..|p| - 1], x), x), p[|p| - 1])
  }

  /** x to the power n. */
  function Power(x: Byte, n: nat): Byte {
    if n == 0 then 1 else Mul(Power(x, n - 1), x)
  }

  /** The product of p and the linear factor (x + root). */
  function TimesLinear(p: seq<Byte>, root: Byte): seq<Byte> {
    seq(|p| + 1, k requires 0 <= k <= |p| =>
      Add(if k > 0 then Mul(p[k - 1], root) else 0, if k < |p| then p[k] else 0))
  }

  function GenPoly(degree: nat): (g: seq<Byte>)
    ensures |g| == degree + 1
  {
    if degree == 0 then [1] else TimesLinear(GenPoly(degree - 1), Alpha(degree - 1))
  }

  /** One step of long division: cancel the leading coefficient of buf with a multiple of gen. */
  function Eliminate(buf: seq<Byte>, gen: seq<Byte>): seq<Byte>
    requires 0 < |gen| <= |buf|
  {
    seq(|buf|, k requires 0 <= k < |buf| => if k < |gen| then Add(buf[k], Mul(gen[k], buf[0])) else buf[k])
  }

  /** The remainder of buf modulo the monic polynomial gen. */
  function Remainder(buf: seq<Byte>, gen: seq<Byte>): (r: seq<Byte>)
    requires gen != []
    ensures |r| == if |buf| < |gen| then |buf| else |gen| - 1
    decreases |buf|
  {
    if |buf| < |gen| then buf else Remainder(Eliminate(buf, gen)[1..], gen)
  }

  function CheckSymbols(data: seq<Byte>, ecLen: nat): (c: seq<Byte>)
    ensures |c| == ecLen
  {
    Remainder(data + Zeros(ecLen), GenPoly(ecLen))
  }

  function Codeword(data: seq<Byte>, ecLen: nat): seq<Byte> {
    data + CheckSymbols(data, ecLen)
  }

  /** The word vanishes at the first ecLen powers of the generator. */
  ghost predicate IsCodeword(word: seq<Byte>, ecLen: nat) {
    forall i: nat :: i < ecLen ==> Eval(word, Alpha(i)) == 0
  }

  // ----- evaluation is linear -----

  lemma {:induction false} EvalAdd(p: seq<Byte>, q: seq<Byte>, x: Byte)
    requires |p| == |q|
    ensures Eval(AddSeq(p, q), x) == Add(Eval(p, x), Eval(q, x))
  {
    if p == [] {
      AddZero(0);
    } else {
      hide Add, Mul;
      var n := |p| - 1;
      EvalAdd(p[..n], q[..n], x);
      assert AddSeq(p, q)[..n] == AddSeq(p[..n], q[..n]);
      MulDist(x, Eval(p[..n], x), Eval(q[..n], x));
      AddShuffle(Mul(Eval(p[..n], x), x), Mul(Eval(q[..n], x), x), p[n], q[n]);
    }
  }

  lemma {:induction false} EvalScale(k: Byte, p: seq<Byte>, x: Byte)
    ensures Eval(Scale(k, p), x) == Mul(Eval(p, x), k)
  {
    if p == [] {
      MulZero(k);
    } else {
      hide Add, Mul;
      var n := |p| - 1;
      var e := Eval(p[..n], x);
      EvalScale(k, p[..n], x);
      assert Scale(k, p)[..n] == Scale(k, p[..n]);
      MulAssoc(e, k, x);
      MulComm(k, x);
      MulAssoc(e, x, k);
      MulDist(k, Mul(e, x), p[n]);
    }
  }

  lemma {:induction false} EvalConcat(p: seq<Byte>, q: seq<Byte>, x: Byte)
    ensures Eval(p + q, x) == Add(Mul(Eval(p, x), Power(x, |q|)), Eval(q, x))
  {
    hide Add, Mul;
    if q == [] {
      assert p + q == p;
      MulOne(Eval(p, x));
      AddZero(Eval(p, x));
    } else {
      var n := |q| - 1;
      var a, b := Mul(Eval(p, x), Power(x, n)), Eval(q[..n], x);
      EvalConcat(p, q[..n], x);
      assert (p + q)[..|p| + n] == p + q[..n];
      MulDist(x, a, b);
      AddAssoc(Mul(a, x), Mul(b, x), q[n]);
      MulAssoc(Eval(p, x), Power(x, n), x);
    }
  }

  lemma {:induction false} EvalZeros(n: nat, x: Byte)
    ensures Eval(Zeros(n), x) == 0
  {
    if n == 0 {
    } else {
      EvalZeros(n - 1, x);
      assert Zeros(n)[..n - 1] == Zeros(n - 1);
      MulZero(x);
      AddZero(0);
    }
  }

  lemma EvalPadded(p: seq<Byte>, n: nat, x: Byte)
    ensures Eval(Zeros(n) + p, x) == Eval(p, x)
    ensures Eval(p + Zeros(n), x) == Mul(Eval(p, x), Power(x, n))
  {
    EvalConcat(Zeros(n), p, x);
    EvalConcat(p, Zeros(n), x);
    EvalZeros(n, x);
    MulZero(Power(x, |p|));
    AddZero(Eval(p, x));
    AddZero(Mul(Eval(p, x), Power(x, n)));
  }

  // ----- the generator is the product of its linear factors -----

  /** (x + 1)(x + a)(x + a^2) ... with n factors, a being the generator of the field. */
  function RootProduct(n: nat, x: Byte): Byte {
    if n == 0 then 1 else Mul(RootProduct(n - 1, x), Add(x, Alpha(n - 1)))
  }

  lemma EvalTimesLinear(p: seq<Byte>, root: Byte, x: Byte)
    ensures Eval(TimesLinear(p, root), x) == Mul(Eval(p, x), Add(x, root))
  {
    hide Add, Mul;
    var high, low := p + Zeros(1), Zeros(1) + Scale(root, p);
    assert TimesLinear(p, root) == AddSeq(low, high) by {
      forall k | 0 <= k <= |p|
        ensures TimesLinear(p, root)[k] == AddSeq(low, high)[k]
      {
      }
    }
    EvalAdd(low, high, x);
    EvalPadded(p, 1, x);
    EvalPadded(Scale(root, p), 1, x);
    EvalScale(root, p, x);
    MulOne(x);
    assert Power(x, 1) == Mul(Power(x, 0), x);
    MulDist(Eval(p, x), x, root);
    AddComm(Mul(Eval(p, x), x), Mul(Eval(p, x), root));
  }

  lemma {:induction false} GeneratorIsProduct(degree: nat, x: Byte)
    ensures Eval(GenPoly(degree), x) == RootProduct(degree, x)
    ensures GenPoly(degree)[0] == 1
  {
    if degree == 0 {
      assert [1][..0] == [];
      MulZero(x);
      AddZero(1);
    } else {
      GeneratorIsProduct(degree - 1, x);
      EvalTimesLinear(GenPoly(degree - 1), Alpha(degree - 1), x);
      AddZero(GenPoly(degree - 1)[0]);
    }
  }

  /** The first powers of alpha are the roots of the generator. */
  lemma GeneratorRoots(degree: nat, i: nat)
    requires i < degree
    ensures Eval(GenPoly(degree), Alpha(i)) == 0
  {
    hide Alpha, Eval, GenPoly, RootProduct;
    GeneratorIsProduct(degree, Alpha(i));
    RootProductVanishes(degree, i);
  }

  lemma {:induction false} RootProductVanishes(degree: nat, i: nat)
    requires i < degree
    ensures RootProduct(degree, Alpha(i)) == 0
  {
    hide Alpha, Add, Mul;
    if i == degree - 1 {
      AddSelf(Alpha(i), Alpha(i));
    } else {
      RootProductVanishes(degree - 1, i);
    }
    MulZero(RootProduct(degree - 1, Alpha(i)));
    MulZero(Add(Alpha(i), Alpha(degree - 1)));
  }

  // ----- division keeps the value at every root of the generator -----

  /** One elimination adds a multiple of the generator. */
  lemma EliminateAdds(buf: seq<Byte>, gen: seq<Byte>)
    requires 0 < |gen| <= |buf|
    ensures Eliminate(buf, gen) == AddSeq(buf, Scale(buf[0], gen) + Zeros(|buf| - |gen|))
  {
    hide Add, Mul;
    var multiple := Scale(buf[0], gen) + Zeros(|buf| - |gen|);
    forall k | 0 <= k < |buf|
      ensures Eliminate(buf, gen)[k] == Add(buf[k], multiple[k])
    {
      AddZero(buf[k]);
    }
  }

  /** A multiple of the generator is zero where the generator is. */
  lemma MultipleVanishes(k: Byte, gen: seq<Byte>, n: nat, x: Byte)
    requires Eval(gen, x) == 0
    ensures Eval(Scale(k, gen) + Zeros(n), x) == 0
  {
    hide Add, Mul, Eval, Scale, Power;
    EvalPadded(Scale(k, gen), n, x);
    EvalScale(k, gen, x);
    MulZero(k);
    MulZero(Power(x, n));
  }

  /** With a leading one, the elimination clears the leading coefficient. */
  lemma EliminateClears(buf: seq<Byte>, gen: seq<Byte>)
    requires 0 < |gen| <= |buf| && gen[0] == 1
    ensures Eliminate(buf, gen) == Zeros(1) + Eliminate(buf, gen)[1..]
  {
    hide Add, Mul;
    MulOne(buf[0]);
    AddSelf(buf[0], buf[0]);
  }

  lemma EliminateKeepsValue(buf: seq<Byte>, gen: seq<Byte>, x: Byte)
    requires 0 < |gen| <= |buf| && gen[0] == 1 && Eval(gen, x) == 0
    ensures Eval(Eliminate(buf, gen)[1..], x) == Eval(buf, x)
  {
    hide Add, Mul, Eval, Eliminate, AddSeq, Power;
    var multiple := Scale(buf[0], gen) + Zeros(|buf| - |gen|);
    EliminateAdds(buf, gen);
    EvalAdd(buf, multiple, x);
    MultipleVanishes(buf[0], gen, |buf| - |gen|, x);
    AddZero(Eval(buf, x));
    EliminateClears(buf, gen);
    EvalPadded(Eliminate(buf, gen)[1..], 1, x);
  }

  lemma {:induction false} RemainderKeepsValue(buf: seq<Byte>, gen: seq<Byte>, x: Byte)
    requires gen != [] && gen[0] == 1 && Eval(gen, x) == 0
    ensures Eval(Remainder(buf, gen), x) == Eval(buf, x)
    decreases |buf|
  {
    if |buf| < |gen| {
    } else {
      EliminateKeepsValue(buf, gen, x);
      RemainderKeepsValue(Eliminate(buf, gen)[1..], gen, x);
    }
  }

  /** Data followed by its check symbols vanishes at every root of the generator. */
  lemma CodewordVanishes(data: seq<Byte>, ecLen: nat)
    ensures IsCodeword(Codeword(data, ecLen), ecLen)
  {
    forall i: nat | i < ecLen
      ensures Eval(Codeword(data, ecLen), Alpha(i)) == 0
    {
      hide Alpha, Add, Mul;
      var x := Alpha(i);
      GeneratorIsProduct(ecLen, x);
      GeneratorRoots(ecLen, i);
      RemainderKeepsValue(data + Zeros(ecLen), GenPoly(ecLen), x);
      EvalPadded(data, ecLen, x);
      EvalConcat(data, CheckSymbols(data, ecLen), x);
      var v := Mul(Eval(data, x), Power(x, ecLen));
      AddSelf(v, v);
    }
  }

  // ----- the encoder is linear -----

  lemma {:induction false} RemainderLinear(a: seq<Byte>, b: seq<Byte>, gen: seq<Byte>)
    requires gen != [] && |a| == |b|
    ensures Remainder(AddSeq(a, b), gen) == AddSeq(Remainder(a, gen), Remainder(b, gen))
    decreases |a|
  {
    if |a| < |gen| {
    } else {
      hide Add, Mul;
      var s := AddSeq(a, b);
      var ea, eb := Eliminate(a, gen), Eliminate(b, gen);
      forall k | 0 <= k < |s|
        ensures Eliminate(s, gen)[k] == Add(ea[k], eb[k])
      {
        if k < |gen| {
          MulDist(gen[k], a[0], b[0]);
          AddShuffle(a[k], Mul(gen[k], a[0]), b[k], Mul(gen[k], b[0]));
          AddShuffle(a[k], b[k], Mul(gen[k], a[0]), Mul(gen[k], b[0]));
        }
      }
      assert Eliminate(s, gen)[1..] == AddSeq(ea[1..], eb[1..]);
      RemainderLinear(ea[1..], eb[1..], gen);
    }
  }

  lemma CheckSymbolsLinear(a: seq<Byte>, b: seq<Byte>, ecLen: nat)
    requires |a| == |b|
    ensures CheckSymbols(AddSeq(a, b), ecLen) == AddSeq(CheckSymbols(a, ecLen), CheckSymbols(b, ecLen))
  {
    AddZero(0);
    assert AddSeq(a, b) + Zeros(ecLen) == AddSeq(a + Zeros(ecLen), b + Zeros(ecLen));
    RemainderLinear(a + Zeros(ecLen), b + Zeros(ecLen), GenPoly(ecLen));
  }

  // ----- the distance of the code -----

  /** The number of non-zero symbols. */
  function Weight(e: seq<Byte>): nat {
    if e == [] then 0 else Weight(e[..|e| - 1]) + (if e[|e| - 1] != 0 then 1 else 0)
  }

  /** The number of positions in which two words differ. */
  function Distance(u: seq<Byte>, v: seq<Byte>): nat
    requires |u| == |v|
  {
    if u == [] then 0
    else Distance(u[..|u| - 1], v[..|v| - 1]) + (if u[|u| - 1] != v[|v| - 1] then 1 else 0)
  }

  /** Each symbol times the power of the generator that its position stands for. */
  function Locate(e: seq<Byte>): seq<Byte> {
    seq(|e|, p requires 0 <= p < |e| => Mul(e[p], Alpha(|e| - 1 - p)))
  }

  lemma {:induction false} EvalLocate(e: seq<Byte>, i: nat)
    ensures Eval(Locate(e), Alpha(i)) == Eval(e, Alpha(i + 1))
  {
    hide Alpha, Add, Mul;
    if e == [] {
    } else {
      var n := |e| - 1;
      var init := e[..n];
      EvalLocate(init, i);
      assert Locate(e)[..n] == Scale(Alpha(1), Locate(init)) by {
        forall p | 0 <= p < n
          ensures Locate(e)[p] == Mul(Locate(init)[p], Alpha(1))
        {
          AlphaAdd(n - 1 - p, 1);
          MulAssoc(e[p], Alpha(n - 1 - p), Alpha(1));
        }
      }
      EvalScale(Alpha(1), Locate(init), Alpha(i));
      AlphaAdd(1, i);
      MulAssoc(Eval(init, Alpha(i + 1)), Alpha(1), Alpha(i));
      AlphaStart();
      MulOne(e[n]);
    }
  }

  /** Removes position q from the support of e and shifts the syndromes down by one. */
  function Puncture(e: seq<Byte>, q: nat): seq<Byte>
    requires q < |e|
  {
    AddSeq(Locate(e), Scale(Alpha(|e| - 1 - q), e))
  }

  lemma PunctureSyndrome(e: seq<Byte>, q: nat, i: nat)
    requires q < |e| && Eval(e, Alpha(i)) == 0 && Eval(e, Alpha(i + 1)) == 0
    ensures Eval(Puncture(e, q), Alpha(i)) == 0
  {
    hide Alpha, Add, Mul;
    var k := Alpha(|e| - 1 - q);
    EvalAdd(Locate(e), Scale(k, e), Alpha(i));
    EvalLocate(e, i);
    EvalScale(k, e, Alpha(i));
    MulZero(k);
    AddZero(0);
  }

  lemma PunctureSupport(e: seq<Byte>, q: nat, p: nat)
    requires q < |e| <= 255 && p < |e|
    ensures Puncture(e, q)[p] == 0 <==> e[p] == 0 || p == q
  {
    hide Alpha, Add, Mul;
    var n := |e| - 1;
    var a, b := Alpha(n - p), Alpha(n - q);
    MulDist(e[p], a, b);
    assert Puncture(e, q)[p] == Mul(e[p], Add(a, b));
    NoZeroDivisors(e[p], Add(a, b));
    AddSelf(a, b);
    if p < q {
      AlphaDistinct(n - q, n - p);
    } else if q < p {
      AlphaDistinct(n - p, n - q);
    }
  }

  lemma {:induction false} WeightDrop(e: seq<Byte>, f: seq<Byte>, q: nat)
    requires |e| == |f|
    requires forall p :: 0 <= p < |e| ==> (f[p] == 0 <==> e[p] == 0 || p == q)
    requires q < |e| ==> e[q] != 0
    ensures Weight(f) + (if q < |e| then 1 else 0) == Weight(e)
  {
    if e == [] {
    } else {
      WeightDrop(e[..|e| - 1], f[..|e| - 1], q);
    }
  }

  lemma {:induction false} WeightZero(e: seq<Byte>)
    requires Weight(e) == 0
    ensures forall p :: 0 <= p < |e| ==> e[p] == 0
  {
    if e == [] {
    } else {
      WeightZero(e[..|e| - 1]);
    }
  }

  lemma {:induction false} EvalSingle(e: seq<Byte>, q: nat)
    requires forall p :: 0 <= p < |e| && p != q ==> e[p] == 0
    ensures Eval(e, 1) == if q < |e| then e[q] else 0
  {
    if e == [] {
    } else {
      hide Add, Mul;
      var n := |e| - 1;
      EvalSingle(e[..n], q);
      MulOne(Eval(e[..n], 1));
      AddZero(Eval(e[..n], 1));
      AddZero(e[n]);
    }
  }

  /** A word with at most w non-zero symbols and w consecutive zero syndromes is zero. */
  lemma {:induction false} BchBound(e: seq<Byte>, w: nat)
    requires |e| <= 255 && Weight(e) <= w && IsCodeword(e, w)
    ensures forall p :: 0 <= p < |e| ==> e[p] == 0
    decreases w
  {
    if Weight(e) == 0 {
      WeightZero(e);
    } else if exists q :: 0 <= q < |e| && e[q] != 0 {
      hide Alpha, Add, Mul, Eval;
      var q: nat :| q < |e| && e[q] != 0;
      var f := Puncture(e, q);
      forall p: nat | p < |e|
        ensures f[p] == 0 <==> e[p] == 0 || p == q
      {
        PunctureSupport(e, q, p);
      }
      WeightDrop(e, f, q);
      forall i: nat | i < w - 1
        ensures Eval(f, Alpha(i)) == 0
      {
        PunctureSyndrome(e, q, i);
      }
      BchBound(f, w - 1);
      AlphaStart();
      EvalSingle(e, q);
    }
  }

  lemma {:induction false} DistanceIsWeight(u: seq<Byte>, v: seq<Byte>)
    requires |u| == |v|
    ensures Distance(u, v) == Weight(AddSeq(u, v))
  {
    if u == [] {
    } else {
      var n := |u| - 1;
      DistanceIsWeight(u[..n], v[..n]);
      assert AddSeq(u, v)[..n] == AddSeq(u[..n], v[..n]);
      AddSelf(u[n], v[n]);
    }
  }

  lemma {:induction false} WeightBound(e: seq<Byte>)
    ensures Weight(e) <= |e|
  {
    if e == [] {
    } else {
      WeightBound(e[..|e| - 1]);
    }
  }

  /** Two codewords that differ in at most w places, w being the number of checks, are equal. */
  lemma CloseCodewordsEqual(u: seq<Byte>, v: seq<Byte>, w: nat)
    requires |u| == |v| <= 255 && IsCodeword(u, w) && IsCodeword(v, w) && Distance(u, v) <= w
    ensures u == v
  {
    var e := AddSeq(u, v);
    DistanceIsWeight(u, v);
    forall i: nat | i < w
      ensures Eval(e, Alpha(i)) == 0
    {
      EvalAdd(u, v, Alpha(i));
      AddZero(0);
    }
    BchBound(e, w);
    forall p | 0 <= p < |u|
      ensures u[p] == v[p]
    {
      assert e[p] == Add(u[p], v[p]);
      AddSelf(u[p], v[p]);
    }
  }

  /** Different data blocks get codewords at distance at least ecLen + 1. */
  lemma MinimumDistance(a: seq<Byte>, b: seq<Byte>, ecLen: nat)
    requires |a| == |b| && a != b && |a| + ecLen <= 255
    ensures Distance(Codeword(a, ecLen), Codeword(b, ecLen)) >= ecLen + 1
  {
    CodewordVanishes(a, ecLen);
    CodewordVanishes(b, ecLen);
    var u, v := Codeword(a, ecLen), Codeword(b, ecLen);
    assert u[..|a|] == a && v[..|b|] == b;
    if Distance(u, v) <= ecLen {
      CloseCodewordsEqual(u, v, ecLen);
    }
  }

  lemma {:induction false} DistanceSymmetric(u: seq<Byte>, v: seq<Byte>)
    requires |u| == |v|
    ensures Distance(u, v) == Distance(v, u)
  {
    if u == [] {
    } else {
      DistanceSymmetric(u[..|u| - 1], v[..|v| - 1]);
    }
  }

  lemma {:induction false} TriangleInequality(u: seq<Byte>, r: seq<Byte>, v: seq<Byte>)
    requires |u| == |r| == |v|
    ensures Distance(u, v) <= Distance(u, r) + Distance(r, v)
  {
    if u == [] {
    } else {
      var n := |u| - 1;
      TriangleInequality(u[..n], r[..n], v[..n]);
    }
  }

  /** A received word within half of ecLen errors of a codeword determines the data. */
  lemma CorrectableErrors(a: seq<Byte>, b: seq<Byte>, ecLen: nat, received: seq<Byte>)
    requires |a| == |b| && |received| == |a| + ecLen <= 255
    requires 2 * Distance(Codeword(a, ecLen), received) <= ecLen
    requires 2 * Distance(Codeword(b, ecLen), received) <= ecLen
    ensures a == b
  {
    DistanceSymmetric(Codeword(b, ecLen), received);
    TriangleInequality(Codeword(a, ecLen), received, Codeword(b, ecLen));
    if a != b {
      MinimumDistance(a, b, ecLen);
    }
  }

  /** The check symbols are the only ones that complete the data to a codeword. */
  lemma CheckSymbolsUnique(data: seq<Byte>, check: seq<Byte>)
    requires |check| <= 255
    ensures IsCodeword(data + check, |check|) <==> check == CheckSymbols(data, |check|)
  {
    hide Alpha, Add, Mul, Eval, Remainder;
    var c := CheckSymbols(data, |check|);
    var e := AddSeq(check, c);
    CodewordVanishes(data, |check|);
    if IsCodeword(data + check, |check|) {
      forall i: nat | i < |check|
        ensures Eval(e, Alpha(i)) == 0
      {
        var x := Alpha(i);
        var shifted := Mul(Eval(data, x), Power(x, |check|));
        assert Eval(data + c, x) == Eval(data + check, x) == 0;
        EvalConcat(data, c, x);
        EvalConcat(data, check, x);
        EvalAdd(check, c, x);
        AddSelf(shifted, Eval(c, x));
        AddSelf(shifted, Eval(check, x));
        AddSelf(Eval(check, x), Eval(c, x));
      }
      WeightBound(e);
      BchBound(e, |check|);
      forall p | 0 <= p < |check|
        ensures check[p] == c[p]
      {
        assert e[p] == Add(check[p], c[p]);
        AddSelf(check[p], c[p]);
      }
    }
  }

  // ----- the code in numbers -----

  /** The field is that of 0x11D: the powers of two, and 29 for the first that overflows. */
  lemma FirstPowers()
    ensures Alpha(0) == 1 && Alpha(1) == 2 && Alpha(7) == 128 && Alpha(8) == 29
  {
    hide Alpha;
    AlphaStart();
    AlphaStep(0);
    AlphaStep(1);
    AlphaStep(2);
    AlphaStep(3);
    AlphaStep(4);
    AlphaStep(5);
    AlphaStep(6);
    PowersFrom1(0);
  }

  /** The generator of two check symbols is x^2 + 3x + 2. */
  lemma GeneratorOfTwo()
    ensures GenPoly(2) == [1, 3, 2]
  {
    FirstPowers();
    AddZero(1);
    AddZero(2);
    MulOne(1);
    MulOne(2);
    OneAndTwo();
    hide Alpha, Add, Mul;
    assert GenPoly(1) == TimesLinear([1], 1);
    assert GenPoly(1) == [1, 1];
    assert GenPoly(2) == TimesLinear([1, 1], 2);
  }

  lemma OneAndTwo()
    ensures Add(1, 2) == 3 && Add(2, 1) == 3
  {
    XorLowBit(1, 1);
    XorComm(1, 2);
  }

  /** The check symbols of a single 1 are the generator without its leading coefficient. */
  lemma CheckSymbolsOfOne(ecLen: nat)
    ensures CheckSymbols([1], ecLen) == GenPoly(ecLen)[1..]
  {
    hide Add, Mul, GenPoly;
    var gen := GenPoly(ecLen);
    var buf := [1] + Zeros(ecLen);
    forall k | 1 <= k < |gen|
      ensures Eliminate(buf, gen)[k] == gen[k]
    {
      MulOne(gen[k]);
      AddZero(gen[k]);
    }
    var rest := Eliminate(buf, gen)[1..];
    assert rest == gen[1..];
    assert Remainder(buf, gen) == Remainder(rest, gen);
    assert Remainder(rest, gen) == rest;
  }

  // ----- the encoder -----

  /** The inner loop of the generator: a fresh array holding the product with (x + root). */
  method MultiplyLinear(gf: Tables, poly: array<Byte>, root: Byte) returns (next: array<Byte>)
    requires gf.Valid()
    ensures fresh(next) && next[..] == TimesLinear(poly[..], root)
  {
    hide Alpha, Add, Mul;
    next := new Byte[poly.Length + 1](_ => 0);
    ghost var p := poly[..];
    for j := 0 to poly.Length
      modifies next
      invariant forall k :: 0 <= k < j ==> next[k] == TimesLinear(p, root)[k]
      invariant next[j] == if j > 0 then Mul(p[j - 1], root) else 0
      invariant forall k :: j < k < next.Length ==> next[k] == 0
    {
      next[j] := Add(next[j], poly[j]);
      var m := gf.GfMul(poly[j], root);
      AddZero(m);
      next[j + 1] := Add(next[j + 1], m);
    }
    AddZero(next[poly.Length]);
    assert next[..] == TimesLinear(p, root);
  }

  method RsGeneratorPoly(gf: Tables, degree: nat) returns (g: seq<Byte>)
    requires gf.Valid() && degree <= 512
    ensures g == GenPoly(degree)
  {
    hide Alpha, Add, Mul;
    var poly := new Byte[1](_ => 1);
    for i := 0 to degree
      invariant poly[..] == GenPoly(i)
    {
      poly := MultiplyLinear(gf, poly, gf.exp[i]);
    }
    g := poly[..];
  }

  /** The inner loop of the division: cancel the coefficient at i. */
  method EliminateAt(gf: Tables, buffer: array<Byte>, i: nat, gen: seq<Byte>)
    requires gf.Valid() && buffer != gf.exp && 0 < |gen| && i + |gen| <= buffer.Length
    modifies buffer
    ensures buffer[i..] == Eliminate(old(buffer[i..]), gen)
    ensures buffer[..i] == old(buffer[..i])
  {
    hide Alpha, Add, Mul;
    ghost var rest := buffer[i..];
    var factor := buffer[i];
    for j := 0 to |gen|
      invariant gf.Valid()
      invariant buffer[..i] == old(buffer[..i])
      invariant forall k :: 0 <= k < |rest| ==>
        buffer[i + k] == if k < j then Eliminate(rest, gen)[k] else rest[k]
    {
      var m := gf.GfMul(gen[j], factor);
      buffer[i + j] := Add(buffer[i + j], m);
    }
  }

  /** Long division in place: the buffer holds the data and zeros, then zeros and the remainder. */
  method RsEncode(gf: Tables, data: seq<Byte>, ecLen: nat) returns (check: seq<Byte>)
    requires gf.Valid() && ecLen <= 512
    ensures check == CheckSymbols(data, ecLen)
  {
    hide Alpha, Add, Mul;
    var gen := RsGeneratorPoly(gf, ecLen);
    var buffer := new Byte[|data| + ecLen](i => if 0 <= i < |data| then data[i] else 0);
    assert buffer[..] == data + Zeros(ecLen);
    for i := 0 to |data|
      modifies buffer
      invariant Remainder(buffer[i..], gen) == CheckSymbols(data, ecLen)
    {
      ghost var rest := buffer[i..];
      if buffer[i] != 0 {
        EliminateAt(gf, buffer, i, gen);
      } else {
        EliminateNothing(rest, gen);
      }
      assert buffer[i + 1..] == Eliminate(rest, gen)[1..];
    }
    check := buffer[|data|..];
  }

  lemma EliminateNothing(buf: seq<Byte>, gen: seq<Byte>)
    requires 0 < |gen| <= |buf| && buf[0] == 0
    ensures Eliminate(buf, gen) == buf
  {
    forall k | 0 <= k < |gen|
      ensures Eliminate(buf, gen)[k] == buf[k]
    {
      MulZero(gen[k]);
      AddZero(buf[k]);
    }
  }
}
