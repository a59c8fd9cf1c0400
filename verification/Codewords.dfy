/** Codeword assembly: the bit stream of mode, length and payload, cut into padded codewords. */
module Codewords {
  import opened Arithmetic
  import opened Bits
  import opened Gf256
  import opened Versions
  import opened Wrappers

  // ----- bytes and bits -----

  /** The bits of a byte string, each byte most significant bit first. */
  function BitsOfBytes(bytes: seq<Byte>): (bits: seq<bool>)
    ensures |bits| == 8 * |bytes|
  {
    seq(8 * |bytes|, i requires 0 <= i < 8 * |bytes| => BitsOf(bytes[i / 8], 8)[i % 8])
  }

  /** Bits 8k to 8k + 7, false beyond the end. */
  function Window(bits: seq<bool>, k: nat): (w: seq<bool>)
    ensures |w| == 8
  {
    seq(8, j requires 0 <= j < 8 => 8 * k + j < |bits| && bits[8 * k + j])
  }

  function ByteAt(bits: seq<bool>, k: nat): Byte {
    PrimitiveDegree();
    BitsOfValue(Window(bits, k));
    ValueOf(Window(bits, k))
  }

  function BytesOfBits(bits: seq<bool>, count: nat): seq<Byte> {
    seq(count, k requires 0 <= k < count => ByteAt(bits, k))
  }

  /** Bit j of byte k. */
  lemma BitOfByte(bytes: seq<Byte>, k: nat, j: nat)
    requires k < |bytes| && j < 8
    ensures BitsOfBytes(bytes)[8 * k + j] == BitsOf(bytes[k], 8)[j]
  {
    hide BitsOf;
    assert (8 * k + j) / 8 == k && (8 * k + j) % 8 == j;
  }

  lemma BytesRoundTrip(bytes: seq<Byte>)
    ensures BytesOfBits(BitsOfBytes(bytes), |bytes|) == bytes
  {
    hide BitsOf, ValueOf;
    forall k | 0 <= k < |bytes|
      ensures ByteAt(BitsOfBytes(bytes), k) == bytes[k]
    {
      PrimitiveDegree();
      ValueOfBits(bytes[k], 8);
      var w := Window(BitsOfBytes(bytes), k);
      assert w == BitsOf(bytes[k], 8) by {
        forall j | 0 <= j < 8
          ensures w[j] == BitsOf(bytes[k], 8)[j]
        {
          BitOfByte(bytes, k, j);
        }
      }
    }
  }

  lemma BitsOfBytesAppend(bytes: seq<Byte>, b: Byte)
    ensures BitsOfBytes(bytes + [b]) == BitsOfBytes(bytes) + BitsOf(b, 8)
  {
    hide BitsOf;
    var all := BitsOfBytes(bytes + [b]);
    forall i | 0 <= i < |all|
      ensures all[i] == (BitsOfBytes(bytes) + BitsOf(b, 8))[i]
    {
      BitOfByte(bytes + [b], i / 8, i % 8);
    }
  }

  lemma BitsRoundTrip(bits: seq<bool>, count: nat)
    requires |bits| == 8 * count
    ensures BitsOfBytes(BytesOfBits(bits, count)) == bits
  {
    hide BitsOf, ByteAt;
    forall i | 0 <= i < |bits|
      ensures BitsOfBytes(BytesOfBits(bits, count))[i] == bits[i]
    {
      BitOfWindow(bits, i);
    }
  }

  lemma BitOfWindow(bits: seq<bool>, i: nat)
    requires i < |bits|
    ensures BitsOf(ByteAt(bits, i / 8), 8)[i % 8] == bits[i]
  {
    hide BitsOf, ValueOf;
    BitsOfValue(Window(bits, i / 8));
  }

  // ----- the encoded stream and its reader -----

  const BYTE_MODE: nat := 4

  function Header(n: nat, countBits: nat): (bits: seq<bool>)
    ensures |bits| == 4 + countBits
  {
    BitsOf(BYTE_MODE, 4) + BitsOf(n, countBits)
  }

  function FalseBits(n: nat): seq<bool> {
    seq(n, _ => false)
  }

  /** Mode, length, payload and the four terminator bits. */
  function Stream(bytes: seq<Byte>, version: nat): (bits: seq<bool>)
    ensures |bits| == 8 + CountBits(version) + 8 * |bytes|
  {
    Header(|bytes|, CountBits(version)) + BitsOfBytes(bytes) + FalseBits(4)
  }

  /** The codewords that the stream fills. */
  function UsedCodewords(n: nat, version: nat): nat {
    n + (8 + CountBits(version)) / 8
  }

  /** The data codewords: the stream, then the two pad codewords in turn up to the capacity. */
  function DataCodewords(bytes: seq<Byte>, spec: VersionSpec): (cw: seq<Byte>)
    ensures |cw| == DataCodewordCount(spec)
  {
    var used := UsedCodewords(|bytes|, spec.version);
    seq(DataCodewordCount(spec), k requires 0 <= k < DataCodewordCount(spec) =>
      if k < used then ByteAt(Stream(bytes, spec.version), k)
      else if (k - used) % 2 == 0 then 0xEC else 0x11)
  }

  /** A reader of data codewords: checks the mode, reads the length, returns that many bytes. */
  function ReadPayload(codewords: seq<Byte>, version: nat): Option<seq<Byte>> {
    var bits := BitsOfBytes(codewords);
    var start := 4 + CountBits(version);
    if |bits| < start || ValueOf(bits[..4]) != BYTE_MODE then None
    else
      var n := ValueOf(bits[4..start]);
      if |bits| < start + 8 * n then None
      else Some(BytesOfBits(bits[start..start + 8 * n], n))
  }

  lemma CountBitsHold(n: nat, spec: VersionSpec)
    requires InTable(spec) && Fits(n, spec)
    ensures n < Pow2(CountBits(spec.version))
  {
    PrimitiveDegree();
    Pow2Add(8, 8);
    LargestPayload(n, spec.version - 1);
  }

  /** The codewords begin with the bits of the stream. */
  lemma StreamFirst(bytes: seq<Byte>, spec: VersionSpec)
    requires UsedCodewords(|bytes|, spec.version) <= DataCodewordCount(spec)
    ensures var bits, stream := BitsOfBytes(DataCodewords(bytes, spec)), Stream(bytes, spec.version);
      |stream| <= |bits| && bits[..|stream|] == stream
  {
    hide ByteAt, BitsOf, DataCodewordCount;
    var used := UsedCodewords(|bytes|, spec.version);
    var stream, cw := Stream(bytes, spec.version), DataCodewords(bytes, spec);
    assert |stream| == 8 * used;
    assert cw[..used] == BytesOfBits(stream, used);
    BitsRoundTrip(stream, used);
    BitsOfPrefix(cw, used);
  }

  lemma BitsOfPrefix(bytes: seq<Byte>, n: nat)
    requires n <= |bytes|
    ensures BitsOfBytes(bytes)[..8 * n] == BitsOfBytes(bytes[..n])
  {
    hide BitsOf;
    forall i | 0 <= i < 8 * n
      ensures BitsOfBytes(bytes)[i] == BitsOfBytes(bytes[..n])[i]
    {
      assert bytes[..n][i / 8] == bytes[i / 8];
    }
  }

  lemma FourParts(bits: seq<bool>, a: seq<bool>, b: seq<bool>, c: seq<bool>, d: seq<bool>)
    requires |a| + |b| + |c| + |d| <= |bits| && bits[..|a| + |b| + |c| + |d|] == a + b + c + d
    ensures bits[..|a|] == a && bits[|a|..|a| + |b|] == b && bits[|a| + |b|..|a| + |b| + |c|] == c
  {
    var all := a + b + c + d;
    assert forall i :: 0 <= i < |all| ==> bits[i] == all[i];
    assert forall i :: 0 <= i < |a| ==> all[i] == a[i];
    assert forall i :: 0 <= i < |b| ==> all[|a| + i] == b[i];
    assert forall i :: 0 <= i < |c| ==> all[|a| + |b| + i] == c[i];
  }

  /** Where the parts of the stream are. */
  lemma StreamParts(bits: seq<bool>, bytes: seq<Byte>, version: nat)
    requires var n := 8 + CountBits(version) + 8 * |bytes|; n <= |bits| && bits[..n] == Stream(bytes, version)
    ensures var start := 4 + CountBits(version);
      && bits[..4] == BitsOf(BYTE_MODE, 4) && bits[4..start] == BitsOf(|bytes|, CountBits(version))
      && bits[start..start + 8 * |bytes|] == BitsOfBytes(bytes)
  {
    hide BitsOf, BitsOfBytes, CountBits;
    FourParts(bits, BitsOf(BYTE_MODE, 4), BitsOf(|bytes|, CountBits(version)), BitsOfBytes(bytes), FalseBits(4));
  }

  /** Reading the data codewords gives back the payload, whatever the padding. */
  lemma PayloadRoundTrip(bytes: seq<Byte>, spec: VersionSpec)
    requires InTable(spec) && Fits(|bytes|, spec)
    ensures ReadPayload(DataCodewords(bytes, spec), spec.version) == Some(bytes)
  {
    hide BitsOf, ValueOf, Pow2, DataCodewordCount, InTable, Stream, BitsOfBytes, BytesOfBits, DataCodewords;
    var version, n := spec.version, |bytes|;
    FitsUsed(n, spec);
    StreamFirst(bytes, spec);
    StreamParts(BitsOfBytes(DataCodewords(bytes, spec)), bytes, version);
    Pow2Four();
    ValueOfBits(BYTE_MODE, 4);
    CountBitsHold(n, spec);
    ValueOfBits(n, CountBits(version));
    BytesRoundTrip(bytes);
  }

  lemma FitsUsed(n: nat, spec: VersionSpec)
    requires Fits(n, spec)
    ensures UsedCodewords(n, spec.version) <= DataCodewordCount(spec)
  {
    hide DataCodewordCount;
  }

  lemma Pow2Four()
    ensures Pow2(4) == 16
  {
  }

  // ----- the codewords as numbers -----

  /** The high half of a payload byte, or zero after the last. */
  function High(bytes: seq<Byte>, k: nat): nat {
    if k < |bytes| then bytes[k] / 16 else 0
  }

  /** The mode 0100, the length in eight or sixteen bits, the payload shifted by half a byte and four zero
      bits, then 0xEC and 0x11 in turn. */
  ghost predicate CodewordNumbers(cw: seq<Byte>, bytes: seq<Byte>, version: nat) {
    var n := |bytes|;
    var first := if version < 10 then 2 else 3;
    && n + first <= |cw|
    && (version < 10 ==> cw[0] == 64 + n / 16 && cw[1] == n % 16 * 16 + High(bytes, 0))
    && (version >= 10 ==> cw[0] == 64 && cw[1] == n / 16 && cw[2] == n % 16 * 16 + High(bytes, 0))
    && (forall k :: 0 <= k < n ==> cw[k + first] == bytes[k] % 16 * 16 + High(bytes, k + 1))
    && (forall k :: n + first <= k < |cw| ==> cw[k] == if (k - n - first) % 2 == 0 then 236 else 17)
  }

  /** The bits of half bytes in turn. */
  function NibbleBits(nibbles: seq<nat>): (bits: seq<bool>)
    ensures |bits| == 4 * |nibbles|
  {
    seq(4 * |nibbles|, i requires 0 <= i < 4 * |nibbles| => BitsOf(nibbles[i / 4], 4)[i % 4])
  }

  function ByteNibbles(bytes: seq<Byte>): (nibbles: seq<nat>)
    ensures |nibbles| == 2 * |bytes|
  {
    seq(2 * |bytes|, i requires 0 <= i < 2 * |bytes| => if i % 2 == 0 then bytes[i / 2] / 16 else bytes[i / 2] % 16)
  }

  /** The header, then the payload, then the terminator. */
  function StreamNibbles(bytes: seq<Byte>, version: nat): seq<nat> {
    var n := |bytes|;
    (if version < 10 then [4, n / 16, n % 16] else [4, 0, 0, n / 16, n % 16]) + ByteNibbles(bytes) + [0]
  }

  lemma ValueOfSnoc(s: seq<bool>, x: bool)
    ensures ValueOf(s + [x]) == 2 * ValueOf(s) + (if x then 1 else 0)
  {
    assert (s + [x])[..|s|] == s;
  }

  lemma ValueOfNibble(a: seq<bool>, b: seq<bool>)
    requires |b| == 4
    ensures ValueOf(a + b) == 16 * ValueOf(a) + ValueOf(b)
  {
    hide ValueOf;
    var x, y, z, w := b[0], b[1], b[2], b[3];
    assert b == [] + [x] + [y] + [z] + [w] && a + b == a + [x] + [y] + [z] + [w];
    ValueOfFourMore(a, x, y, z, w);
    ValueOfFourMore([], x, y, z, w);
    NoValue();
  }

  function Digit(x: bool): nat {
    if x then 1 else 0
  }

  lemma ValueOfFourMore(s: seq<bool>, x: bool, y: bool, z: bool, w: bool)
    ensures ValueOf(s + [x] + [y] + [z] + [w]) == 16 * ValueOf(s) + 8 * Digit(x) + 4 * Digit(y) + 2 * Digit(z) + Digit(w)
  {
    hide ValueOf;
    ValueOfSnoc(s, x);
    ValueOfSnoc(s + [x], y);
    ValueOfSnoc(s + [x] + [y], z);
    ValueOfSnoc(s + [x] + [y] + [z], w);
  }

  lemma NoValue()
    ensures ValueOf([]) == 0
  {
  }

  /** A byte is its two halves. */
  lemma ByteOfNibbles(h: nat, l: nat)
    requires h < 16 && l < 16
    ensures BitsOf(16 * h + l, 8) == BitsOf(h, 4) + BitsOf(l, 4)
    ensures ValueOf(BitsOf(h, 4) + BitsOf(l, 4)) == 16 * h + l
  {
    hide BitsOf, ValueOf, Pow2;
    Pow2Four();
    ValueOfNibble(BitsOf(h, 4), BitsOf(l, 4));
    ValueOfBits(h, 4);
    ValueOfBits(l, 4);
    BitsOfValue(BitsOf(h, 4) + BitsOf(l, 4));
  }

  /** Sixteen bits of a number below 256: a zero byte first. */
  lemma ShortCount(n: nat)
    requires n < 256
    ensures BitsOf(n, 16) == BitsOf(0, 4) + BitsOf(0, 4) + BitsOf(n / 16, 4) + BitsOf(n % 16, 4)
  {
    hide BitsOf, ValueOf, Pow2;
    var h, l := n / 16, n % 16;
    var w := BitsOf(0, 4) + BitsOf(0, 4) + BitsOf(h, 4) + BitsOf(l, 4);
    ByteOfNibbles(0, 0);
    ValueOfNibble(BitsOf(0, 4) + BitsOf(0, 4), BitsOf(h, 4));
    ValueOfNibble(BitsOf(0, 4) + BitsOf(0, 4) + BitsOf(h, 4), BitsOf(l, 4));
    Pow2Four();
    ValueOfBits(h, 4);
    ValueOfBits(l, 4);
    BitsOfValue(w);
  }

  lemma NibbleBitsAppend(a: seq<nat>, b: seq<nat>)
    ensures NibbleBits(a + b) == NibbleBits(a) + NibbleBits(b)
  {
    hide BitsOf;
    forall i | 0 <= i < 4 * |a + b|
      ensures NibbleBits(a + b)[i] == (NibbleBits(a) + NibbleBits(b))[i]
    {
      if i >= 4 * |a| {
        var j := i - 4 * |a|;
        assert i / 4 == |a| + j / 4 && i % 4 == j % 4;
      }
    }
  }

  lemma OneNibble(x: nat)
    ensures NibbleBits([x]) == BitsOf(x, 4)
  {
    hide BitsOf;
  }

  lemma PayloadNibbles(bytes: seq<Byte>)
    ensures BitsOfBytes(bytes) == NibbleBits(ByteNibbles(bytes))
  {
    hide BitsOf;
    forall i | 0 <= i < 8 * |bytes|
      ensures BitsOfBytes(bytes)[i] == NibbleBits(ByteNibbles(bytes))[i]
    {
      var b := bytes[i / 8];
      ByteOfNibbles(b / 16, b % 16);
      assert i / 4 / 2 == i / 8;
      assert i / 4 % 2 == 0 <==> i % 8 < 4;
      assert i % 4 == if i % 8 < 4 then i % 8 else i % 8 - 4;
    }
  }

  lemma HeaderNibbles(n: nat, version: nat)
    requires n < 256
    ensures Header(n, CountBits(version))
         == NibbleBits(if version < 10 then [4, n / 16, n % 16] else [4, 0, 0, n / 16, n % 16])
  {
    hide BitsOf, NibbleBits;
    var h, l := n / 16, n % 16;
    ByteOfNibbles(h, l);
    ShortCount(n);
    OneNibble(4);
    OneNibble(0);
    OneNibble(h);
    OneNibble(l);
    if version < 10 {
      assert [4, h, l] == [4] + [h] + [l];
      NibbleBitsAppend([4] + [h], [l]);
      NibbleBitsAppend([4], [h]);
    } else {
      assert [4, 0, 0, h, l] == [4] + [0] + [0] + [h] + [l];
      NibbleBitsAppend([4] + [0] + [0] + [h], [l]);
      NibbleBitsAppend([4] + [0] + [0], [h]);
      NibbleBitsAppend([4] + [0], [0]);
      NibbleBitsAppend([4], [0]);
    }
  }

  lemma StreamIsNibbles(bytes: seq<Byte>, version: nat)
    requires |bytes| < 256
    ensures Stream(bytes, version) == NibbleBits(StreamNibbles(bytes, version))
  {
    hide BitsOf, NibbleBits, BitsOfBytes, ByteNibbles, Header, FalseBits;
    var n := |bytes|;
    var header := if version < 10 then [4, n / 16, n % 16] else [4, 0, 0, n / 16, n % 16];
    HeaderNibbles(n, version);
    PayloadNibbles(bytes);
    NoBits(4);
    OneNibble(0);
    NibbleBitsAppend(header, ByteNibbles(bytes));
    NibbleBitsAppend(header + ByteNibbles(bytes), [0]);
  }

  lemma ByteAtNibbles(nibbles: seq<nat>, k: nat)
    requires 2 * k + 1 < |nibbles| && nibbles[2 * k] < 16 && nibbles[2 * k + 1] < 16
    ensures ByteAt(NibbleBits(nibbles), k) == 16 * nibbles[2 * k] + nibbles[2 * k + 1]
  {
    hide BitsOf, ValueOf;
    var h, l := nibbles[2 * k], nibbles[2 * k + 1];
    forall j | 0 <= j < 8
      ensures Window(NibbleBits(nibbles), k)[j] == (BitsOf(h, 4) + BitsOf(l, 4))[j]
    {
      assert (8 * k + j) / 4 == if j < 4 then 2 * k else 2 * k + 1;
      assert (8 * k + j) % 4 == if j < 4 then j else j - 4;
    }
    assert Window(NibbleBits(nibbles), k) == BitsOf(h, 4) + BitsOf(l, 4);
    ByteOfNibbles(h, l);
  }

  /** The half bytes in their places. */
  lemma StreamNibbleAt(bytes: seq<Byte>, version: nat, i: nat)
    requires |bytes| < 256
    ensures var ns, first := StreamNibbles(bytes, version), (if version < 10 then 3 else 5);
      && |ns| == 2 * |bytes| + first + 1
      && (i < |ns| ==> ns[i] < 16)
      && (i < |bytes| ==> ns[2 * i + first] == bytes[i] / 16 && ns[2 * i + 1 + first] == bytes[i] % 16)
      && ns[|ns| - 1] == 0 && ns[0] == 4
      && (version < 10 ==> ns[1] == |bytes| / 16 && ns[2] == |bytes| % 16)
      && (version >= 10 ==> ns[1] == ns[2] == 0 && ns[3] == |bytes| / 16 && ns[4] == |bytes| % 16)
  {
  }

  lemma UsedCodeword(bytes: seq<Byte>, spec: VersionSpec, k: nat)
    requires |bytes| < 256 && k < UsedCodewords(|bytes|, spec.version) <= DataCodewordCount(spec)
    ensures var ns := StreamNibbles(bytes, spec.version);
      |ns| == 2 * UsedCodewords(|bytes|, spec.version)
      && DataCodewords(bytes, spec)[k] == 16 * ns[2 * k] + ns[2 * k + 1]
  {
    hide ByteAt, Stream, StreamNibbles, NibbleBits, DataCodewordCount;
    StreamNibbleAt(bytes, spec.version, 2 * k);
    StreamNibbleAt(bytes, spec.version, 2 * k + 1);
    StreamIsNibbles(bytes, spec.version);
    ByteAtNibbles(StreamNibbles(bytes, spec.version), k);
  }

  /** The data codewords of a payload that fits. */
  lemma DataCodewordNumbers(bytes: seq<Byte>, spec: VersionSpec)
    requires InTable(spec) && Fits(|bytes|, spec)
    ensures CodewordNumbers(DataCodewords(bytes, spec), bytes, spec.version)
  {
    LargestPayload(|bytes|, spec.version - 1);
    FitsUsed(|bytes|, spec);
    hide StreamNibbles, DataCodewordCount, InTable, Fits, CodewordNumbers, DataCodewords;
    var n, version, cw := |bytes|, spec.version, DataCodewords(bytes, spec);
    var first := if version < 10 then 2 else 3;
    HeaderCodewords(bytes, spec);
    forall k: nat | k < n
      ensures cw[k + first] == bytes[k] % 16 * 16 + High(bytes, k + 1)
    {
      PayloadCodeword(bytes, spec, k);
    }
    AssembleNumbers(bytes, spec);
  }

  lemma PayloadCodeword(bytes: seq<Byte>, spec: VersionSpec, k: nat)
    requires k < |bytes| < 256 && UsedCodewords(|bytes|, spec.version) <= DataCodewordCount(spec)
    ensures var first := if spec.version < 10 then 2 else 3;
      DataCodewords(bytes, spec)[k + first] == bytes[k] % 16 * 16 + High(bytes, k + 1)
  {
    hide StreamNibbles, DataCodewordCount, DataCodewords;
    UsedCodeword(bytes, spec, k + if spec.version < 10 then 2 else 3);
    StreamNibbleAt(bytes, spec.version, k);
    StreamNibbleAt(bytes, spec.version, k + 1);
  }

  lemma HeaderCodewords(bytes: seq<Byte>, spec: VersionSpec)
    requires |bytes| < 256 && UsedCodewords(|bytes|, spec.version) <= DataCodewordCount(spec)
    ensures var cw, n := DataCodewords(bytes, spec), |bytes|;
      && (spec.version < 10 ==> cw[0] == 64 + n / 16 && cw[1] == n % 16 * 16 + High(bytes, 0))
      && (spec.version >= 10 ==> cw[0] == 64 && cw[1] == n / 16 && cw[2] == n % 16 * 16 + High(bytes, 0))
  {
    hide StreamNibbles, DataCodewordCount, DataCodewords;
    StreamNibbleAt(bytes, spec.version, 0);
    UsedCodeword(bytes, spec, 0);
    UsedCodeword(bytes, spec, 1);
    if spec.version >= 10 {
      UsedCodeword(bytes, spec, 2);
    }
  }

  lemma AssembleNumbers(bytes: seq<Byte>, spec: VersionSpec)
    requires UsedCodewords(|bytes|, spec.version) <= DataCodewordCount(spec)
    requires var cw, n := DataCodewords(bytes, spec), |bytes|;
      var first := if spec.version < 10 then 2 else 3;
      && (spec.version < 10 ==> cw[0] == 64 + n / 16 && cw[1] == n % 16 * 16 + High(bytes, 0))
      && (spec.version >= 10 ==> cw[0] == 64 && cw[1] == n / 16 && cw[2] == n % 16 * 16 + High(bytes, 0))
      && (forall k: nat :: k < n ==> cw[k + first] == bytes[k] % 16 * 16 + High(bytes, k + 1))
    ensures CodewordNumbers(DataCodewords(bytes, spec), bytes, spec.version)
  {
    hide DataCodewords, DataCodewordCount, High;
    var first := if spec.version < 10 then 2 else 3;
    forall k | |bytes| + first <= k < |DataCodewords(bytes, spec)|
      ensures DataCodewords(bytes, spec)[k] == if (k - |bytes| - first) % 2 == 0 then 236 else 17
    {
      PadCodeword(bytes, spec, k);
    }
  }

  lemma PadCodeword(bytes: seq<Byte>, spec: VersionSpec, k: nat)
    requires UsedCodewords(|bytes|, spec.version) <= k < DataCodewordCount(spec)
    ensures DataCodewords(bytes, spec)[k] == if (k - UsedCodewords(|bytes|, spec.version)) % 2 == 0 then 236 else 17
  {
    hide ByteAt, Stream, DataCodewordCount;
  }

  // ----- the bit buffer -----

  class BitBuffer {
    var bits: seq<bool>

    constructor ()
      ensures bits == []
    {
      bits := [];
    }

    /** Appends the low length bits of value, most significant first. */
    method Put(value: nat, length: nat)
      modifies this
      ensures bits == old(bits) + BitsOf(value, length)
    {
      hide BitsOf, Pow2;
      var i := length;
      while i > 0
        invariant 0 <= i <= length
        invariant bits == old(bits) + BitsOf(value, length)[..length - i]
      {
        i := i - 1;
        BitsOfAt(value, length, length - 1 - i);
        BitIsShift(value, i);
        bits := bits + [(value / Pow2(i)) % 2 == 1];
      }
    }

    /** Fills the last started byte with zeros. */
    method PadToByte()
      modifies this
      ensures bits == old(bits) + FalseBits(if |old(bits)| % 8 == 0 then 0 else 8 - |old(bits)| % 8)
    {
      assert bits + FalseBits(0) == bits;
      if |bits| % 8 != 0 {
        NoBits(8 - |bits| % 8);
        Put(0, 8 - |bits| % 8);
      }
    }

    /** The bits cut into count bytes; bits past the end are dropped. */
    method ToCodewords(count: nat) returns (out: array<Byte>)
      ensures fresh(out) && out[..] == BytesOfBits(bits, count)
    {
      out := new Byte[count](_ => 0);
      EmptyWindows(count);
      for i := 0 to |bits|
        modifies out
        invariant forall k :: 0 <= k < count ==> out[k] == ByteAt(bits[..i], k)
      {
        hide ByteAt, Or, Pow2;
        ByteStep(bits, i);
        if bits[i] && i / 8 < count {
          out[i / 8] := Or(out[i / 8], Pow2(7 - i % 8));
        }
      }
      assert bits[..|bits|] == bits;
    }
  }

  lemma EmptyWindows(count: nat)
    ensures forall k :: 0 <= k < count ==> ByteAt([], k) == 0
  {
    forall k | 0 <= k < count
      ensures ByteAt([], k) == 0
    {
      ValueOfZeros(Window([], k));
    }
  }

  lemma {:induction false} ValueOfZeros(w: seq<bool>)
    requires forall j :: 0 <= j < |w| ==> !w[j]
    ensures ValueOf(w) == 0
  {
    if w == [] {
    } else {
      ValueOfZeros(w[..|w| - 1]);
    }
  }

  /** Setting one more bit, with zeros from there on, is a bitwise or. */
  lemma {:induction false} SetBit(w: seq<bool>, j: nat)
    requires j < |w| && forall k :: j <= k < |w| ==> !w[k]
    ensures ValueOf(w[j := true]) == Or(ValueOf(w), Pow2(|w| - 1 - j))
  {
    hide Or, Xor;
    var n := |w| - 1;
    var v := ValueOf(w[..n]);
    if j == n {
      assert w[j := true][..n] == w[..n];
      XorOrDouble(v, 1);
      OrZero(v);
    } else {
      SetBit(w[..n], j);
      assert w[j := true][..n] == w[..n][j := true];
      XorOrDouble(v, 2 * Pow2(n - 1 - j));
    }
  }

  /** What one more bit of the stream does to the byte it falls in, and to no other byte. */
  lemma ByteStep(bits: seq<bool>, i: nat)
    requires i < |bits|
    ensures forall k: nat :: k != i / 8 ==> ByteAt(bits[..i + 1], k) == ByteAt(bits[..i], k)
    ensures ByteAt(bits[..i + 1], i / 8)
         == if bits[i] then Or(ByteAt(bits[..i], i / 8), Pow2(7 - i % 8)) else ByteAt(bits[..i], i / 8)
  {
    hide ValueOf, Or, Pow2;
    forall k: nat | k != i / 8
      ensures ByteAt(bits[..i + 1], k) == ByteAt(bits[..i], k)
    {
      assert Window(bits[..i + 1], k) == Window(bits[..i], k);
    }
    var w, w' := Window(bits[..i], i / 8), Window(bits[..i + 1], i / 8);
    if bits[i] {
      assert w' == w[i % 8 := true];
      SetBit(w, i % 8);
    } else {
      assert w' == w;
    }
  }

  // ----- assembly -----

  /** The stream before its terminator. */
  method PutStream(buffer: BitBuffer, bytes: seq<Byte>, version: nat)
    requires buffer.bits == []
    modifies buffer
    ensures buffer.bits == Header(|bytes|, CountBits(version)) + BitsOfBytes(bytes)
  {
    hide BitsOf, BitsOfBytes;
    var countBits := if version < 10 then 8 else 16;
    buffer.Put(BYTE_MODE, 4);
    buffer.Put(|bytes|, countBits);
    EmptyBytes();
    for i := 0 to |bytes|
      invariant buffer.bits == Header(|bytes|, countBits) + BitsOfBytes(bytes[..i])
    {
      buffer.Put(bytes[i], 8);
      BitsOfBytesAppend(bytes[..i], bytes[i]);
      assert bytes[..i + 1] == bytes[..i] + [bytes[i]];
    }
    assert bytes[..|bytes|] == bytes;
  }

  lemma EmptyBytes()
    ensures BitsOfBytes([]) == []
  {
  }

  /** There is room for all four terminator bits, after which the stream is whole bytes, or for none. */
  lemma TerminatorBits(n: nat, spec: VersionSpec)
    ensures var free := 8 * DataCodewordCount(spec) - (4 + CountBits(spec.version) + 8 * n);
      if Fits(n, spec) then free >= 4 else free < 0
    ensures (8 + CountBits(spec.version) + 8 * n) % 8 == 0
  {
    hide DataCodewordCount;
  }

  /** A payload that does not fit is cut off at the capacity. */
  method BuildDataCodewords(bytes: seq<Byte>, spec: VersionSpec) returns (codewords: seq<Byte>)
    ensures codewords == DataCodewords(bytes, spec)
    ensures InTable(spec) && Fits(|bytes|, spec) ==> CodewordNumbers(codewords, bytes, spec.version)
  {
    NoBits(4);
    TerminatorBits(|bytes|, spec);
    hide BitsOf, BitsOfBytes, DataCodewordCount, ByteAt, Fits, CountBits, Header, DataCodewords, FalseBits, InTable,
      CodewordNumbers;
    var capacity := DataCodewordCount(spec);
    var buffer := new BitBuffer();
    PutStream(buffer, bytes, spec.version);

    var capacityBits := capacity * 8;
    var terminator := Min(4, capacityBits - |buffer.bits|);
    assert Fits(|bytes|, spec) ==> terminator == 4;
    if terminator > 0 {
      buffer.Put(0, terminator);
    }
    assert Fits(|bytes|, spec) ==> buffer.bits == Stream(bytes, spec.version);
    buffer.PadToByte();
    assert buffer.bits == Stream(bytes, spec.version);

    var out := buffer.ToCodewords(capacity);
    FillWithPads(out, |buffer.bits| / 8, bytes, spec);
    codewords := out[..];
    if InTable(spec) && Fits(|bytes|, spec) {
      DataCodewordNumbers(bytes, spec);
    }
  }

  /** The two pad codewords in turn, from index up to the end. */
  method FillWithPads(out: array<Byte>, index: nat, ghost bytes: seq<Byte>, ghost spec: VersionSpec)
    requires out.Length == DataCodewordCount(spec)
    requires index == UsedCodewords(|bytes|, spec.version)
    requires forall k :: 0 <= k < index && k < out.Length ==> out[k] == ByteAt(Stream(bytes, spec.version), k)
    modifies out
    ensures out[..] == DataCodewords(bytes, spec)
  {
    hide ByteAt, Stream, DataCodewordCount;
    var i := index;
    var padWithEc := true;
    while i < out.Length
      invariant index <= i && (i <= out.Length || i == index)
      invariant padWithEc <==> (i - index) % 2 == 0
      invariant forall k :: 0 <= k < i && k < out.Length ==> out[k] == DataCodewords(bytes, spec)[k]
    {
      out[i] := if padWithEc then 0xEC else 0x11;
      padWithEc := !padWithEc;
      i := i + 1;
    }
  }

  lemma {:induction false} NoBits(n: nat)
    ensures BitsOf(0, n) == FalseBits(n)
  {
    if n > 0 {
      NoBits(n - 1);
    }
  }
}
