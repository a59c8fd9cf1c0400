/** The check bits of the format and version words: remainders of BCH division over GF(2). */
module Bch {
  import opened Arithmetic
  import opened Bits
  import opened Gf2Poly

  const EC_LEVEL_M_BITS: nat := 0
  const FORMAT_GENERATOR: nat := 0x537
  const FORMAT_MASK: nat := 0x5412
  const VERSION_GENERATOR: nat := 0x1F25

  function FormatWord(mask: nat): nat {
    Xor(mask * Pow2(10) + PolyMod(mask * Pow2(10), 10, FORMAT_GENERATOR), FORMAT_MASK)
  }

  function VersionWord(version: nat): nat {
    version * Pow2(12) + PolyMod(version * Pow2(12), 12, VERSION_GENERATOR)
  }

  lemma GeneratorDegrees()
    ensures HasDegree(FORMAT_GENERATOR, 10) && HasDegree(VERSION_GENERATOR, 12)
    ensures Pow2(5) == 32 && Pow2(10) == 1024 && Pow2(12) == 4096 && Pow2(15) == 32768 && Pow2(18) == 262144
  {
    assert Pow2(5) == 32;
    Pow2Add(5, 5);
    Pow2Add(10, 1);
    Pow2Add(11, 1);
    Pow2Add(12, 1);
    Pow2Add(10, 5);
    Pow2Add(15, 3);
  }

  // ----- a message followed by its remainder is a multiple of the generator -----

  lemma SystematicWord(message: nat, d: nat, g: nat)
    requires HasDegree(g, d)
    ensures PolyMod(message * Pow2(d) + PolyMod(message * Pow2(d), d, g), d, g) == 0
    ensures (message * Pow2(d) + PolyMod(message * Pow2(d), d, g)) / Pow2(d) == message
    ensures Or(message * Pow2(d), PolyMod(message * Pow2(d), d, g))
         == message * Pow2(d) + PolyMod(message * Pow2(d), d, g)
  {
    hide *;
    var shifted := message * Pow2(d);
    var r := PolyMod(shifted, d, g);
    PolyModBound(shifted, d, g);
    XorDisjoint(message, r, d);
    PolyModLinear(shifted, r, d, g);
    PolyModSmall(r, d, g);
    XorSelf(r);
    DivUnique(shifted + r, Pow2(d), message, r);
  }

  /** Unmasked, a format word is a multiple of its generator and carries its mask number. */
  lemma FormatWordFacts(mask: nat)
    requires mask < 8
    ensures PolyMod(Xor(FormatWord(mask), FORMAT_MASK), 10, FORMAT_GENERATOR) == 0
    ensures Xor(FormatWord(mask), FORMAT_MASK) / Pow2(10) == mask
    ensures FormatWord(mask) < Pow2(15)
  {
    GeneratorDegrees();
    SystematicWord(mask, 10, FORMAT_GENERATOR);
    hide Xor, PolyMod, Pow2;
    PolyModBound(mask * Pow2(10), 10, FORMAT_GENERATOR);
    var word := mask * Pow2(10) + PolyMod(mask * Pow2(10), 10, FORMAT_GENERATOR);
    XorCancel(word, FORMAT_MASK);
    XorBound(word, FORMAT_MASK, 15);
  }

  /** A version word is a multiple of its generator and carries its version number. */
  lemma VersionWordFacts(version: nat)
    requires version < 64
    ensures PolyMod(VersionWord(version), 12, VERSION_GENERATOR) == 0
    ensures VersionWord(version) / Pow2(12) == version
    ensures VersionWord(version) < Pow2(18)
  {
    GeneratorDegrees();
    SystematicWord(version, 12, VERSION_GENERATOR);
    hide PolyMod, Pow2;
    PolyModBound(version * Pow2(12), 12, VERSION_GENERATOR);
  }

  // ----- the shift-and-xor loop -----

  method BitLengthOf(value: nat) returns (length: nat)
    ensures length == BitLength(value)
  {
    length := 0;
    var rest := value;
    while rest != 0
      invariant length + BitLength(rest) == BitLength(value)
      decreases rest
    {
      length := length + 1;
      rest := rest / 2;
    }
  }

  lemma {:induction false} ShiftIsMultiple(g: nat, s: nat)
    ensures ClMul(g, Pow2(s)) == g * Pow2(s)
  {
    if s == 0 {
      ClMulOne(g);
    } else {
      ShiftIsMultiple(g, s - 1);
      ClMulDouble(g, Pow2(s - 1));
      TwiceProduct(g, Pow2(s - 1));
    }
  }

  lemma ShiftedRange(g: nat, d: nat, s: nat)
    requires HasDegree(g, d)
    ensures Pow2(d + s) <= g * Pow2(s) < Pow2(d + 1 + s)
  {
    Pow2Add(d, s);
    Pow2Add(d + 1, s);
    ProductMonotone(Pow2(d), g, Pow2(s));
    ProductMonotone(g + 1, Pow2(d + 1), Pow2(s));
    ProductSum(g, 1, Pow2(s));
  }

  /** Subtracting the generator, shifted under the leading bit, keeps the remainder and drops that bit. */
  lemma ShiftAndXor(value: nat, d: nat, g: nat)
    requires HasDegree(g, d) && BitLength(value) >= d + 1
    ensures var next := Xor(value, g * Pow2(BitLength(value) - (d + 1)));
      && PolyMod(next, d, g) == PolyMod(value, d, g)
      && BitLength(next) < BitLength(value)
  {
    hide *;
    var length := BitLength(value);
    var s := length - (d + 1);
    var shifted := g * Pow2(s);
    BitLengthBounds(value, length);
    BitLengthBounds(value, length - 1);
    ShiftedRange(g, d, s);
    XorBound(value, shifted, length);
    BitLengthBounds(Xor(value, shifted), length - 1);
    ShiftIsMultiple(g, s);
    PolyModLinear(value, shifted, d, g);
    PolyModMultiple(Pow2(s), d, g);
    XorZero(PolyMod(value, d, g));
  }

  lemma GeneratorLength(g: nat, d: nat)
    requires HasDegree(g, d)
    ensures BitLength(g) == d + 1
  {
    hide BitLength, Pow2;
    BitLengthBounds(g, d);
    BitLengthBounds(g, d + 1);
  }

  lemma ShortIsRemainder(value: nat, d: nat, g: nat)
    requires HasDegree(g, d) && BitLength(value) <= d
    ensures PolyMod(value, d, g) == value
  {
    hide BitLength, Pow2, PolyMod;
    BitLengthBounds(value, d);
    PolyModSmall(value, d, g);
  }

  /** The loop shared by both words, from any start value. */
  method ShiftXorRemainder(start: nat, generator: nat, ghost d: nat) returns (value: nat)
    requires HasDegree(generator, d)
    ensures value == PolyMod(start, d, generator)
  {
    hide *;
    value := start;
    var target := BitLengthOf(generator);
    GeneratorLength(generator, d);
    var length := BitLengthOf(value);
    while length >= target
      invariant length == BitLength(value) && target == d + 1
      invariant PolyMod(value, d, generator) == PolyMod(start, d, generator)
      decreases length
    {
      ShiftAndXor(value, d, generator);
      value := Xor(value, generator * Pow2(length - target));
      length := BitLengthOf(value);
    }
    ShortIsRemainder(value, d, generator);
  }

  lemma Pow2Eight()
    ensures Pow2(3) == 8
  {
  }

  method FormatInfoBits(mask: nat) returns (word: nat)
    requires mask < 8
    ensures word == FormatWord(mask)
  {
    GeneratorDegrees();
    hide Xor, Or, PolyMod, Pow2;
    var data := Or(EC_LEVEL_M_BITS * Pow2(3), mask);
    Pow2Eight();
    XorDisjoint(EC_LEVEL_M_BITS, mask, 3);
    var value := ShiftXorRemainder(data * Pow2(10), FORMAT_GENERATOR, 10);
    SystematicWord(mask, 10, FORMAT_GENERATOR);
    word := Xor(Or(data * Pow2(10), value), FORMAT_MASK);
  }

  method VersionInfoBits(version: nat) returns (word: nat)
    ensures word == VersionWord(version)
  {
    GeneratorDegrees();
    hide Or, PolyMod, Pow2;
    var value := ShiftXorRemainder(version * Pow2(12), VERSION_GENERATOR, 12);
    SystematicWord(version, 12, VERSION_GENERATOR);
    word := Or(version * Pow2(12), value);
  }
}
