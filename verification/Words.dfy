/** The format and version words as numbers, and how far apart they are. */
module Words {
  import opened Arithmetic
  import opened Bits
  import opened Gf2Poly
  import opened Bch

  // ----- exclusive or and the number of ones, four bits at a time -----

  function High(x: nat): nat {
    if x >= 12 then 3 else if x >= 8 then 2 else if x >= 4 then 1 else 0
  }

  function Low(x: nat): nat {
    if x >= 12 then x - 12 else if x >= 8 then x - 8 else if x >= 4 then x - 4 else x
  }

  function XorPair(x: nat, y: nat): nat {
    (if (x >= 2) == (y >= 2) then 0 else 2) + (if (x == 1 || x == 3) == (y == 1 || y == 3) then 0 else 1)
  }

  /** Exclusive or of hexadecimal digits. */
  function XorDigit(x: nat, y: nat): (d: nat)
    ensures d < 16
  {
    4 * XorPair(High(x), High(y)) + XorPair(Low(x), Low(y))
  }

  function OnesPair(x: nat): nat {
    if x == 0 then 0 else if x == 3 then 2 else 1
  }

  /** The ones of a hexadecimal digit. */
  function OnesDigit(x: nat): nat {
    OnesPair(High(x)) + OnesPair(Low(x))
  }

  /** How many bits are set. */
  function Ones(v: nat): nat {
    if v == 0 then 0 else Ones(v / 2) + v % 2
  }

  lemma XorAppendPair(h: nat, x: nat, h': nat, y: nat)
    requires x < 4 && y < 4
    ensures Xor(4 * h + x, 4 * h' + y) == 4 * Xor(h, h') + XorPair(x, y)
  {
    hide Xor;
    var (p, s) := if x >= 2 then (1, x - 2) else (0, x);
    var (q, t) := if y >= 2 then (1, y - 2) else (0, y);
    XorAppend(h, h', p, q);
    XorAppend(2 * h + p, 2 * h' + q, s, t);
  }

  lemma XorAppendDigit(h: nat, x: nat, h': nat, y: nat)
    requires x < 16 && y < 16
    ensures Xor(16 * h + x, 16 * h' + y) == 16 * Xor(h, h') + XorDigit(x, y)
  {
    hide Xor, XorPair;
    XorAppendPair(h, High(x), h', High(y));
    XorAppendPair(4 * h + High(x), Low(x), 4 * h' + High(y), Low(y));
  }

  lemma OnesAppend(h: nat, b: nat)
    requires b < 2
    ensures Ones(2 * h + b) == Ones(h) + b
  {
    assert (2 * h + b) / 2 == h && (2 * h + b) % 2 == b;
  }

  lemma OnesAppendPair(h: nat, x: nat)
    requires x < 4
    ensures Ones(4 * h + x) == Ones(h) + OnesPair(x)
  {
    hide Ones;
    var (p, s) := if x >= 2 then (1, x - 2) else (0, x);
    OnesAppend(h, p);
    OnesAppend(2 * h + p, s);
  }

  lemma OnesAppendDigit(h: nat, x: nat)
    requires x < 16
    ensures Ones(16 * h + x) == Ones(h) + OnesDigit(x)
  {
    hide Ones, OnesPair;
    OnesAppendPair(h, High(x));
    OnesAppendPair(4 * h + High(x), Low(x));
  }

  /** The number with these hexadecimal digits. */
  function Hex(a: nat, b: nat, c: nat, d: nat): nat {
    16 * Hex3(a, b, c) + d
  }

  function Hex3(a: nat, b: nat, c: nat): nat {
    16 * Hex2(a, b) + c
  }

  function Hex2(a: nat, b: nat): nat {
    16 * a + b
  }

  lemma XorWord(a: nat, b: nat, c: nat, d: nat, e: nat, f: nat, g: nat, h: nat)
    requires a < 16 && b < 16 && c < 16 && d < 16 && e < 16 && f < 16 && g < 16 && h < 16
    ensures Xor(Hex(a, b, c, d), Hex(e, f, g, h))
         == Hex(XorDigit(a, e), XorDigit(b, f), XorDigit(c, g), XorDigit(d, h))
  {
    hide Xor, XorDigit, Hex2, Hex3;
    XorThree(a, b, c, e, f, g);
    XorAppendDigit(Hex3(a, b, c), d, Hex3(e, f, g), h);
  }

  lemma XorThree(a: nat, b: nat, c: nat, e: nat, f: nat, g: nat)
    requires a < 16 && b < 16 && c < 16 && e < 16 && f < 16 && g < 16
    ensures Xor(Hex3(a, b, c), Hex3(e, f, g)) == Hex3(XorDigit(a, e), XorDigit(b, f), XorDigit(c, g))
  {
    hide Xor, XorDigit, Hex2;
    XorTwo(a, b, e, f);
    XorAppendDigit(Hex2(a, b), c, Hex2(e, f), g);
  }

  lemma XorTwo(a: nat, b: nat, e: nat, f: nat)
    requires a < 16 && b < 16 && e < 16 && f < 16
    ensures Xor(Hex2(a, b), Hex2(e, f)) == Hex2(XorDigit(a, e), XorDigit(b, f))
  {
    hide Xor, XorDigit;
    XorZero(0);
    XorAppendDigit(0, a, 0, e);
    XorAppendDigit(a, b, e, f);
  }

  lemma OnesWord(a: nat, b: nat, c: nat, d: nat)
    requires a < 16 && b < 16 && c < 16 && d < 16
    ensures Ones(Hex(a, b, c, d)) == OnesDigit(a) + OnesDigit(b) + OnesDigit(c) + OnesDigit(d)
  {
    NoOnes();
    hide Ones, OnesDigit;
    OnesAppendDigit(0, a);
    OnesAppendDigit(a, b);
    OnesAppendDigit(Hex2(a, b), c);
    OnesAppendDigit(Hex3(a, b, c), d);
  }

  /** The bits in which two words given by their digits differ. */
  lemma Apart(a: nat, b: nat, c: nat, d: nat, e: nat, f: nat, g: nat, h: nat)
    requires a < 16 && b < 16 && c < 16 && d < 16 && e < 16 && f < 16 && g < 16 && h < 16
    ensures Ones(Xor(Hex(a, b, c, d), Hex(e, f, g, h)))
         == OnesDigit(XorDigit(a, e)) + OnesDigit(XorDigit(b, f)) + OnesDigit(XorDigit(c, g)) + OnesDigit(XorDigit(d, h))
  {
    hide Xor, XorDigit, Ones, OnesDigit, Hex;
    XorWord(a, b, c, d, e, f, g, h);
    OnesWord(XorDigit(a, e), XorDigit(b, f), XorDigit(c, g), XorDigit(d, h));
  }

  lemma HexValue(a: nat, b: nat, c: nat, d: nat)
    ensures Hex(a, b, c, d) == 4096 * a + 256 * b + 16 * c + d
  {
  }

  lemma NoOnes()
    ensures Ones(0) == 0
  {
  }

  // ----- the words as numbers -----

  lemma Doubled(v: nat, r: nat, d: nat, g: nat)
    requires PolyMod(v, d, g) == r
    ensures PolyMod(2 * v, d, g) == if 2 * r >= Pow2(d) then Xor(2 * r, g) else 2 * r
  {
    hide PolyMod, Xor, Pow2;
    PolyModStep(2 * v, d, g);
    assert (2 * v) / 2 == v && (2 * v) % 2 == 0;
  }

  lemma FormatWordIs(mask: nat, r: nat)
    requires PolyMod(mask * 1024, 10, 0x537) == r
    ensures FormatWord(mask) == Xor(mask * 1024 + r, 0x5412)
  {
    GeneratorDegrees();
    hide Xor, PolyMod, Pow2;
  }

  lemma VersionWordIs(version: nat, r: nat)
    requires PolyMod(version * 4096, 12, 0x1F25) == r
    ensures VersionWord(version) == version * 4096 + r
  {
    GeneratorDegrees();
    hide PolyMod, Pow2;
  }

  lemma Small(v: nat)
    ensures v < 1024 ==> PolyMod(v, 10, 0x537) == v
    ensures v < 4096 ==> PolyMod(v, 12, 0x1F25) == v
    ensures Pow2(10) == 1024 && Pow2(12) == 4096
  {
    GeneratorDegrees();
    hide PolyMod, Pow2;
    if v < 1024 {
      PolyModSmall(v, 10, 0x537);
    }
    if v < 4096 {
      PolyModSmall(v, 12, 0x1F25);
    }
  }

  lemma Xor400And537()
    ensures Xor(0x400, 0x537) == 0x137
  {
    hide Xor, Hex;
    HexValue(0, 4, 0, 0);
    HexValue(0, 5, 3, 7);
    HexValue(0, 1, 3, 7);
    XorWord(0, 4, 0, 0, 0, 5, 3, 7);
  }

  lemma Xor537And5412()
    ensures Xor(0x537, 0x5412) == 0x5125
  {
    hide Xor, Hex;
    HexValue(0, 5, 3, 7);
    HexValue(5, 4, 1, 2);
    HexValue(5, 1, 2, 5);
    XorWord(0, 5, 3, 7, 5, 4, 1, 2);
  }

  lemma XorA6EAnd5412()
    ensures Xor(0xA6E, 0x5412) == 0x5E7C
  {
    hide Xor, Hex;
    HexValue(0, 10, 6, 14);
    HexValue(5, 4, 1, 2);
    HexValue(5, 14, 7, 12);
    XorWord(0, 10, 6, 14, 5, 4, 1, 2);
  }

  lemma Xor600And537()
    ensures Xor(0x600, 0x537) == 0x337
  {
    hide Xor, Hex;
    HexValue(0, 6, 0, 0);
    HexValue(0, 5, 3, 7);
    HexValue(0, 3, 3, 7);
    XorWord(0, 6, 0, 0, 0, 5, 3, 7);
  }

  lemma Xor66EAnd537()
    ensures Xor(0x66E, 0x537) == 0x359
  {
    hide Xor, Hex;
    HexValue(0, 6, 6, 14);
    HexValue(0, 5, 3, 7);
    HexValue(0, 3, 5, 9);
    XorWord(0, 6, 6, 14, 0, 5, 3, 7);
  }

  lemma XorF59And5412()
    ensures Xor(0xF59, 0x5412) == 0x5B4B
  {
    hide Xor, Hex;
    HexValue(0, 15, 5, 9);
    HexValue(5, 4, 1, 2);
    HexValue(5, 11, 4, 11);
    XorWord(0, 15, 5, 9, 5, 4, 1, 2);
  }

  lemma Xor4DCAnd537()
    ensures Xor(0x4DC, 0x537) == 0x1EB
  {
    hide Xor, Hex;
    HexValue(0, 4, 13, 12);
    HexValue(0, 5, 3, 7);
    HexValue(0, 1, 14, 11);
    XorWord(0, 4, 13, 12, 0, 5, 3, 7);
  }

  lemma Xor11EBAnd5412()
    ensures Xor(0x11EB, 0x5412) == 0x45F9
  {
    hide Xor, Hex;
    HexValue(1, 1, 14, 11);
    HexValue(5, 4, 1, 2);
    HexValue(4, 5, 15, 9);
    XorWord(1, 1, 14, 11, 5, 4, 1, 2);
  }

  lemma Xor500And537()
    ensures Xor(0x500, 0x537) == 0x37
  {
    hide Xor, Hex;
    HexValue(0, 5, 0, 0);
    HexValue(0, 5, 3, 7);
    HexValue(0, 0, 3, 7);
    XorWord(0, 5, 0, 0, 0, 5, 3, 7);
  }

  lemma Xor14DCAnd5412()
    ensures Xor(0x14DC, 0x5412) == 0x40CE
  {
    hide Xor, Hex;
    HexValue(1, 4, 13, 12);
    HexValue(5, 4, 1, 2);
    HexValue(4, 0, 12, 14);
    XorWord(1, 4, 13, 12, 5, 4, 1, 2);
  }

  lemma Xor6B2And537()
    ensures Xor(0x6B2, 0x537) == 0x385
  {
    hide Xor, Hex;
    HexValue(0, 6, 11, 2);
    HexValue(0, 5, 3, 7);
    HexValue(0, 3, 8, 5);
    XorWord(0, 6, 11, 2, 0, 5, 3, 7);
  }

  lemma Xor1B85And5412()
    ensures Xor(0x1B85, 0x5412) == 0x4F97
  {
    hide Xor, Hex;
    HexValue(1, 11, 8, 5);
    HexValue(5, 4, 1, 2);
    HexValue(4, 15, 9, 7);
    XorWord(1, 11, 8, 5, 5, 4, 1, 2);
  }

  lemma Xor700And537()
    ensures Xor(0x700, 0x537) == 0x237
  {
    hide Xor, Hex;
    HexValue(0, 7, 0, 0);
    HexValue(0, 5, 3, 7);
    HexValue(0, 2, 3, 7);
    XorWord(0, 7, 0, 0, 0, 5, 3, 7);
  }

  lemma Xor46EAnd537()
    ensures Xor(0x46E, 0x537) == 0x159
  {
    hide Xor, Hex;
    HexValue(0, 4, 6, 14);
    HexValue(0, 5, 3, 7);
    HexValue(0, 1, 5, 9);
    XorWord(0, 4, 6, 14, 0, 5, 3, 7);
  }

  lemma Xor1EB2And5412()
    ensures Xor(0x1EB2, 0x5412) == 0x4AA0
  {
    hide Xor, Hex;
    HexValue(1, 14, 11, 2);
    HexValue(5, 4, 1, 2);
    HexValue(4, 10, 10, 0);
    XorWord(1, 14, 11, 2, 5, 4, 1, 2);
  }

  lemma Xor1C00And1F25()
    ensures Xor(0x1C00, 0x1F25) == 0x325
  {
    hide Xor, Hex;
    HexValue(1, 12, 0, 0);
    HexValue(1, 15, 2, 5);
    HexValue(0, 3, 2, 5);
    XorWord(1, 12, 0, 0, 1, 15, 2, 5);
  }

  lemma Xor1000And1F25()
    ensures Xor(0x1000, 0x1F25) == 0xF25
  {
    hide Xor, Hex;
    HexValue(1, 0, 0, 0);
    HexValue(1, 15, 2, 5);
    HexValue(0, 15, 2, 5);
    XorWord(1, 0, 0, 0, 1, 15, 2, 5);
  }

  lemma Xor1E4AAnd1F25()
    ensures Xor(0x1E4A, 0x1F25) == 0x16F
  {
    hide Xor, Hex;
    HexValue(1, 14, 4, 10);
    HexValue(1, 15, 2, 5);
    HexValue(0, 1, 6, 15);
    XorWord(1, 14, 4, 10, 1, 15, 2, 5);
  }

  lemma Xor1200And1F25()
    ensures Xor(0x1200, 0x1F25) == 0xD25
  {
    hide Xor, Hex;
    HexValue(1, 2, 0, 0);
    HexValue(1, 15, 2, 5);
    HexValue(0, 13, 2, 5);
    XorWord(1, 2, 0, 0, 1, 15, 2, 5);
  }

  lemma Xor1A4AAnd1F25()
    ensures Xor(0x1A4A, 0x1F25) == 0x56F
  {
    hide Xor, Hex;
    HexValue(1, 10, 4, 10);
    HexValue(1, 15, 2, 5);
    HexValue(0, 5, 6, 15);
    XorWord(1, 10, 4, 10, 1, 15, 2, 5);
  }

  lemma Xor15BCAnd1F25()
    ensures Xor(0x15BC, 0x1F25) == 0xA99
  {
    hide Xor, Hex;
    HexValue(1, 5, 11, 12);
    HexValue(1, 15, 2, 5);
    HexValue(0, 10, 9, 9);
    XorWord(1, 5, 11, 12, 1, 15, 2, 5);
  }

  lemma Xor1400And1F25()
    ensures Xor(0x1400, 0x1F25) == 0xB25
  {
    hide Xor, Hex;
    HexValue(1, 4, 0, 0);
    HexValue(1, 15, 2, 5);
    HexValue(0, 11, 2, 5);
    XorWord(1, 4, 0, 0, 1, 15, 2, 5);
  }

  lemma Xor164AAnd1F25()
    ensures Xor(0x164A, 0x1F25) == 0x96F
  {
    hide Xor, Hex;
    HexValue(1, 6, 4, 10);
    HexValue(1, 15, 2, 5);
    HexValue(0, 9, 6, 15);
    XorWord(1, 6, 4, 10, 1, 15, 2, 5);
  }

  lemma Xor12DEAnd1F25()
    ensures Xor(0x12DE, 0x1F25) == 0xDFB
  {
    hide Xor, Hex;
    HexValue(1, 2, 13, 14);
    HexValue(1, 15, 2, 5);
    HexValue(0, 13, 15, 11);
    XorWord(1, 2, 13, 14, 1, 15, 2, 5);
  }

  lemma Xor1BF6And1F25()
    ensures Xor(0x1BF6, 0x1F25) == 0x4D3
  {
    hide Xor, Hex;
    HexValue(1, 11, 15, 6);
    HexValue(1, 15, 2, 5);
    HexValue(0, 4, 13, 3);
    XorWord(1, 11, 15, 6, 1, 15, 2, 5);
  }

  lemma FormatRemainder0()
    ensures PolyMod(0, 10, 0x537) == 0x0
  {
    hide *;
    Small(0);
  }

  lemma Format0()
    ensures FormatWord(0) == 0x5412
  {
    hide *;
    FormatRemainder0();
    FormatWordIs(0, 0x0);
    XorZero(0x5412);
  }

  lemma FormatRemainder1()
    ensures PolyMod(1024, 10, 0x537) == 0x137
  {
    hide *;
    Small(512);
    Xor400And537();
    Doubled(512, 0x200, 10, 0x537);
  }

  lemma Format1()
    ensures FormatWord(1) == 0x5125
  {
    hide *;
    FormatRemainder1();
    FormatWordIs(1, 0x137);
    Xor537And5412();
  }

  lemma FormatRemainder2()
    ensures PolyMod(2048, 10, 0x537) == 0x26E
  {
    hide *;
    Small(512);
    Xor400And537();
    Doubled(512, 0x200, 10, 0x537);
    Doubled(1024, 0x137, 10, 0x537);
  }

  lemma Format2()
    ensures FormatWord(2) == 0x5E7C
  {
    hide *;
    FormatRemainder2();
    FormatWordIs(2, 0x26E);
    XorA6EAnd5412();
  }

  lemma FormatRemainder3()
    ensures PolyMod(3072, 10, 0x537) == 0x359
  {
    hide *;
    Small(768);
    Xor600And537();
    Doubled(768, 0x300, 10, 0x537);
    Xor66EAnd537();
    Doubled(1536, 0x337, 10, 0x537);
  }

  lemma Format3()
    ensures FormatWord(3) == 0x5B4B
  {
    hide *;
    FormatRemainder3();
    FormatWordIs(3, 0x359);
    XorF59And5412();
  }

  lemma FormatRemainder4()
    ensures PolyMod(4096, 10, 0x537) == 0x1EB
  {
    hide *;
    Small(512);
    Xor400And537();
    Doubled(512, 0x200, 10, 0x537);
    Doubled(1024, 0x137, 10, 0x537);
    Xor4DCAnd537();
    Doubled(2048, 0x26E, 10, 0x537);
  }

  lemma Format4()
    ensures FormatWord(4) == 0x45F9
  {
    hide *;
    FormatRemainder4();
    FormatWordIs(4, 0x1EB);
    Xor11EBAnd5412();
  }

  lemma FormatRemainder5()
    ensures PolyMod(5120, 10, 0x537) == 0xDC
  {
    hide *;
    Small(640);
    Xor500And537();
    Doubled(640, 0x280, 10, 0x537);
    Doubled(1280, 0x37, 10, 0x537);
    Doubled(2560, 0x6E, 10, 0x537);
  }

  lemma Format5()
    ensures FormatWord(5) == 0x40CE
  {
    hide *;
    FormatRemainder5();
    FormatWordIs(5, 0xDC);
    Xor14DCAnd5412();
  }

  lemma FormatRemainder6()
    ensures PolyMod(6144, 10, 0x537) == 0x385
  {
    hide *;
    Small(768);
    Xor600And537();
    Doubled(768, 0x300, 10, 0x537);
    Xor66EAnd537();
    Doubled(1536, 0x337, 10, 0x537);
    Xor6B2And537();
    Doubled(3072, 0x359, 10, 0x537);
  }

  lemma Format6()
    ensures FormatWord(6) == 0x4F97
  {
    hide *;
    FormatRemainder6();
    FormatWordIs(6, 0x385);
    Xor1B85And5412();
  }

  lemma FormatRemainder7()
    ensures PolyMod(7168, 10, 0x537) == 0x2B2
  {
    hide *;
    Small(896);
    Xor700And537();
    Doubled(896, 0x380, 10, 0x537);
    Xor46EAnd537();
    Doubled(1792, 0x237, 10, 0x537);
    Doubled(3584, 0x159, 10, 0x537);
  }

  lemma Format7()
    ensures FormatWord(7) == 0x4AA0
  {
    hide *;
    FormatRemainder7();
    FormatWordIs(7, 0x2B2);
    Xor1EB2And5412();
  }

  lemma VersionRemainder7()
    ensures PolyMod(28672, 12, 0x1F25) == 0xC94
  {
    hide *;
    Small(3584);
    Xor1C00And1F25();
    Doubled(3584, 0xE00, 12, 0x1F25);
    Doubled(7168, 0x325, 12, 0x1F25);
    Doubled(14336, 0x64A, 12, 0x1F25);
  }

  lemma Version7()
    ensures VersionWord(7) == 0x7C94
  {
    hide *;
    VersionRemainder7();
    VersionWordIs(7, 0xC94);
  }

  lemma VersionRemainder8()
    ensures PolyMod(32768, 12, 0x1F25) == 0x5BC
  {
    hide *;
    Small(2048);
    Xor1000And1F25();
    Doubled(2048, 0x800, 12, 0x1F25);
    Xor1E4AAnd1F25();
    Doubled(4096, 0xF25, 12, 0x1F25);
    Doubled(8192, 0x16F, 12, 0x1F25);
    Doubled(16384, 0x2DE, 12, 0x1F25);
  }

  lemma Version8()
    ensures VersionWord(8) == 0x85BC
  {
    hide *;
    VersionRemainder8();
    VersionWordIs(8, 0x5BC);
  }

  lemma VersionRemainder9()
    ensures PolyMod(36864, 12, 0x1F25) == 0xA99
  {
    hide *;
    Small(2304);
    Xor1200And1F25();
    Doubled(2304, 0x900, 12, 0x1F25);
    Xor1A4AAnd1F25();
    Doubled(4608, 0xD25, 12, 0x1F25);
    Doubled(9216, 0x56F, 12, 0x1F25);
    Xor15BCAnd1F25();
    Doubled(18432, 0xADE, 12, 0x1F25);
  }

  lemma Version9()
    ensures VersionWord(9) == 0x9A99
  {
    hide *;
    VersionRemainder9();
    VersionWordIs(9, 0xA99);
  }

  lemma VersionRemainder10()
    ensures PolyMod(40960, 12, 0x1F25) == 0x4D3
  {
    hide *;
    Small(2560);
    Xor1400And1F25();
    Doubled(2560, 0xA00, 12, 0x1F25);
    Xor164AAnd1F25();
    Doubled(5120, 0xB25, 12, 0x1F25);
    Xor12DEAnd1F25();
    Doubled(10240, 0x96F, 12, 0x1F25);
    Xor1BF6And1F25();
    Doubled(20480, 0xDFB, 12, 0x1F25);
  }

  lemma Version10()
    ensures VersionWord(10) == 0xA4D3
  {
    hide *;
    VersionRemainder10();
    VersionWordIs(10, 0x4D3);
  }

  /** The format words of level M, and the version words of versions 7 to 10. */
  lemma WordNumbers(i: nat)
    ensures i < 8 ==> FormatWord(i) == [0x5412, 0x5125, 0x5E7C, 0x5B4B, 0x45F9, 0x40CE, 0x4F97, 0x4AA0][i]
    ensures 7 <= i <= 10 ==> VersionWord(i) == [0x7C94, 0x85BC, 0x9A99, 0xA4D3][i - 7]
  {
    hide FormatWord, VersionWord;
    Format0();
    Format1();
    Format2();
    Format3();
    Format4();
    Format5();
    Format6();
    Format7();
    Version7();
    Version8();
    Version9();
    Version10();
  }

  // ----- how far apart the words are -----

  /** A format word before its mask is added. */
  function Unmasked(mask: nat): nat {
    mask * Pow2(10) + PolyMod(mask * Pow2(10), 10, FORMAT_GENERATOR)
  }

  lemma {:induction false} XorScaled(a: nat, b: nat, n: nat)
    ensures Xor(a * Pow2(n), b * Pow2(n)) == Xor(a, b) * Pow2(n)
  {
    hide Xor;
    if n > 0 {
      XorScaled(a, b, n - 1);
      TwiceProduct(a, Pow2(n - 1));
      TwiceProduct(b, Pow2(n - 1));
      TwiceProduct(Xor(a, b), Pow2(n - 1));
      XorDouble(a * Pow2(n - 1), b * Pow2(n - 1));
    }
  }

  /** The exclusive or of two words of the code is the word of the exclusive or. */
  lemma UnmaskedLinear(a: nat, b: nat)
    ensures Xor(Unmasked(a), Unmasked(b)) == Unmasked(Xor(a, b))
  {
    GeneratorDegrees();
    hide Xor, PolyMod, Pow2, HasDegree;
    var g, p := FORMAT_GENERATOR, Pow2(10);
    PolyModBound(a * p, 10, g);
    PolyModBound(b * p, 10, g);
    PolyModBound(Xor(a, b) * p, 10, g);
    XorDisjoint(a, PolyMod(a * p, 10, g), 10);
    XorDisjoint(b, PolyMod(b * p, 10, g), 10);
    XorDisjoint(Xor(a, b), PolyMod(Xor(a, b) * p, 10, g), 10);
    XorShuffle(a * p, PolyMod(a * p, 10, g), b * p, PolyMod(b * p, 10, g));
    XorScaled(a, b, 10);
    PolyModLinear(a * p, b * p, 10, g);
  }

  /** The mask cancels between two format words. */
  lemma FormatDifference(a: nat, b: nat)
    ensures Xor(FormatWord(a), FormatWord(b)) == Unmasked(Xor(a, b))
  {
    UnmaskedLinear(a, b);
    hide Xor, PolyMod, Pow2;
    XorShuffle(Unmasked(a), FORMAT_MASK, Unmasked(b), FORMAT_MASK);
    XorSelf(FORMAT_MASK);
    XorZero(Xor(Unmasked(a), Unmasked(b)));
  }

  lemma UnmaskedIs(mask: nat, r: nat)
    requires PolyMod(mask * 1024, 10, 0x537) == r
    ensures Unmasked(mask) == mask * 1024 + r
  {
    GeneratorDegrees();
    hide PolyMod, Pow2;
  }

  lemma Weight1()
    ensures Ones(Unmasked(1)) >= 7
  {
    hide PolyMod, Pow2, Unmasked, Ones, Hex;
    FormatRemainder1();
    UnmaskedIs(1, 0x137);
    HexValue(0, 5, 3, 7);
    OnesWord(0, 5, 3, 7);
  }

  lemma Weight2()
    ensures Ones(Unmasked(2)) >= 7
  {
    hide PolyMod, Pow2, Unmasked, Ones, Hex;
    FormatRemainder2();
    UnmaskedIs(2, 0x26E);
    HexValue(0, 10, 6, 14);
    OnesWord(0, 10, 6, 14);
  }

  lemma Weight3()
    ensures Ones(Unmasked(3)) >= 7
  {
    hide PolyMod, Pow2, Unmasked, Ones, Hex;
    FormatRemainder3();
    UnmaskedIs(3, 0x359);
    HexValue(0, 15, 5, 9);
    OnesWord(0, 15, 5, 9);
  }

  lemma Weight4()
    ensures Ones(Unmasked(4)) >= 7
  {
    hide PolyMod, Pow2, Unmasked, Ones, Hex;
    FormatRemainder4();
    UnmaskedIs(4, 0x1EB);
    HexValue(1, 1, 14, 11);
    OnesWord(1, 1, 14, 11);
  }

  lemma Weight5()
    ensures Ones(Unmasked(5)) >= 7
  {
    hide PolyMod, Pow2, Unmasked, Ones, Hex;
    FormatRemainder5();
    UnmaskedIs(5, 0xDC);
    HexValue(1, 4, 13, 12);
    OnesWord(1, 4, 13, 12);
  }

  lemma Weight6()
    ensures Ones(Unmasked(6)) >= 7
  {
    hide PolyMod, Pow2, Unmasked, Ones, Hex;
    FormatRemainder6();
    UnmaskedIs(6, 0x385);
    HexValue(1, 11, 8, 5);
    OnesWord(1, 11, 8, 5);
  }

  lemma Weight7()
    ensures Ones(Unmasked(7)) >= 7
  {
    hide PolyMod, Pow2, Unmasked, Ones, Hex;
    FormatRemainder7();
    UnmaskedIs(7, 0x2B2);
    HexValue(1, 14, 11, 2);
    OnesWord(1, 14, 11, 2);
  }

  lemma UnmaskedWeight(c: nat)
    requires 0 < c < 8
    ensures Ones(Unmasked(c)) >= 7
  {
    hide *;
    Weight1();
    Weight2();
    Weight3();
    Weight4();
    Weight5();
    Weight6();
    Weight7();
  }

  /** Two format words of level M differ in at least seven bits. */
  lemma FormatWordsApart(a: nat, b: nat)
    requires a < 8 && b < 8 && a != b
    ensures Ones(Xor(FormatWord(a), FormatWord(b))) >= 7
  {
    assert Pow2(3) == 8;
    hide FormatWord, Xor, Unmasked, Ones, Pow2;
    FormatDifference(a, b);
    XorBound(a, b, 3);
    XorCancel(a, b);
    XorZero(b);
    UnmaskedWeight(Xor(a, b));
  }

  lemma Versions7And8()
    ensures Ones(Xor(VersionWord(7), VersionWord(8))) >= 8
  {
    hide VersionWord, Xor, Ones, Hex;
    HexValue(7, 12, 9, 4);
    HexValue(8, 5, 11, 12);
    Version7();
    Version8();
    Apart(7, 12, 9, 4, 8, 5, 11, 12);
  }

  lemma Versions7And9()
    ensures Ones(Xor(VersionWord(7), VersionWord(9))) >= 8
  {
    hide VersionWord, Xor, Ones, Hex;
    HexValue(7, 12, 9, 4);
    HexValue(9, 10, 9, 9);
    Version7();
    Version9();
    Apart(7, 12, 9, 4, 9, 10, 9, 9);
  }

  lemma Versions7And10()
    ensures Ones(Xor(VersionWord(7), VersionWord(10))) >= 8
  {
    hide VersionWord, Xor, Ones, Hex;
    HexValue(7, 12, 9, 4);
    HexValue(10, 4, 13, 3);
    Version7();
    Version10();
    Apart(7, 12, 9, 4, 10, 4, 13, 3);
  }

  lemma Versions8And9()
    ensures Ones(Xor(VersionWord(8), VersionWord(9))) >= 8
  {
    hide VersionWord, Xor, Ones, Hex;
    HexValue(8, 5, 11, 12);
    HexValue(9, 10, 9, 9);
    Version8();
    Version9();
    Apart(8, 5, 11, 12, 9, 10, 9, 9);
  }

  lemma Versions8And10()
    ensures Ones(Xor(VersionWord(8), VersionWord(10))) >= 8
  {
    hide VersionWord, Xor, Ones, Hex;
    HexValue(8, 5, 11, 12);
    HexValue(10, 4, 13, 3);
    Version8();
    Version10();
    Apart(8, 5, 11, 12, 10, 4, 13, 3);
  }

  lemma Versions9And10()
    ensures Ones(Xor(VersionWord(9), VersionWord(10))) >= 8
  {
    hide VersionWord, Xor, Ones, Hex;
    HexValue(9, 10, 9, 9);
    HexValue(10, 4, 13, 3);
    Version9();
    Version10();
    Apart(9, 10, 9, 9, 10, 4, 13, 3);
  }

  /** Two version words differ in at least eight bits. */
  lemma VersionWordsApart(v: nat, w: nat)
    requires 7 <= v < w <= 10
    ensures Ones(Xor(VersionWord(v), VersionWord(w))) >= 8
  {
    hide *;
    Versions7And8();
    Versions7And9();
    Versions7And10();
    Versions8And9();
    Versions8And10();
    Versions9And10();
  }
}
