/** Placing the function patterns and the format and version information. */
module Patterns {
  import opened Arithmetic
  import opened Bits
  import opened Bch
  import opened Layout
  import opened CanvasModule

  predicate InFinderBox(row: int, col: int, r: int, c: int) {
    row - 1 <= r <= row + 7 && col - 1 <= c <= col + 7
  }

  method PlaceFinder(canvas: Canvas, row: int, col: int)
    requires canvas.Valid()
    modifies canvas.cells, canvas.reserved
    ensures forall r, c :: InGrid(canvas.size, r, c) ==>
      canvas.At(r, c) == (if InFinderBox(row, col, r, c) then Painted(FinderShape(r - row, c - col))
                          else old(canvas.At(r, c)))
  {
    hide Index, FinderShape;
    var size := canvas.size;
    for r := -1 to 8
      invariant forall i, j :: InGrid(size, i, j) ==>
        canvas.At(i, j) == (if InFinderBox(row, col, i, j) && i < row + r then Painted(FinderShape(i - row, j - col))
                            else old(canvas.At(i, j)))
    {
      for c := -1 to 8
        invariant forall i, j :: InGrid(size, i, j) ==>
          canvas.At(i, j) == (if InFinderBox(row, col, i, j) && (i < row + r || (i == row + r && j < col + c))
                              then Painted(FinderShape(i - row, j - col)) else old(canvas.At(i, j)))
      {
        var rr := row + r;
        var cc := col + c;
        if !(rr < 0 || rr >= size || cc < 0 || cc >= size) {
          var inRing := (r >= 0 && r <= 6 && (c == 0 || c == 6)) || (c >= 0 && c <= 6 && (r == 0 || r == 6));
          var inCore := r >= 2 && r <= 4 && c >= 2 && c <= 4;
          ShapeParts(r, c);
          canvas.SetModule(rr, cc, inRing || inCore, true);
        }
      }
    }
  }

  lemma ShapeParts(r: int, c: int)
    ensures FinderShape(r, c) <==>
      (r >= 0 && r <= 6 && (c == 0 || c == 6)) || (c >= 0 && c <= 6 && (r == 0 || r == 6))
      || (r >= 2 && r <= 4 && c >= 2 && c <= 4)
  {
  }

  predicate InAlignmentBox(row: int, col: int, r: int, c: int) {
    Abs(r - row) <= 2 && Abs(c - col) <= 2
  }

  /** The five by five pattern around one centre. */
  method PlaceAlignmentAt(canvas: Canvas, row: int, col: int)
    requires canvas.Valid() && 2 <= row < canvas.size - 2 && 2 <= col < canvas.size - 2
    modifies canvas.cells, canvas.reserved
    ensures forall r, c :: InGrid(canvas.size, r, c) ==>
      canvas.At(r, c) == (if InAlignmentBox(row, col, r, c) then Painted(Max(Abs(r - row), Abs(c - col)) != 1)
                          else old(canvas.At(r, c)))
  {
    hide Index;
    for r := -2 to 3
      invariant forall i, j :: InGrid(canvas.size, i, j) ==>
        canvas.At(i, j) == (if InAlignmentBox(row, col, i, j) && i < row + r
                            then Painted(Max(Abs(i - row), Abs(j - col)) != 1) else old(canvas.At(i, j)))
    {
      for c := -2 to 3
        invariant forall i, j :: InGrid(canvas.size, i, j) ==>
          canvas.At(i, j) == (if InAlignmentBox(row, col, i, j) && (i < row + r || (i == row + r && j < col + c))
                              then Painted(Max(Abs(i - row), Abs(j - col)) != 1) else old(canvas.At(i, j)))
      {
        var dark := Max(Abs(r), Abs(c)) != 1;
        canvas.SetModule(row + r, col + c, dark, true);
      }
    }
  }

  /** The place in the table of the centre near x, or -1. */
  function CentreRank(v: nat, x: int): int {
    if NearCentre(v, x) < 0 then -1
    else if NearCentre(v, x) == 6 then 0
    else if v >= 7 && NearCentre(v, x) == 4 * v + 10 then 2
    else 1
  }

  lemma CentreRanks(v: nat, i: nat, x: int)
    requires 1 <= v <= 10 && i < |ALIGNMENT_CENTRES[v - 1]|
    ensures var centre := ALIGNMENT_CENTRES[v - 1][i];
      2 <= centre < Size(v) - 2
      && (Abs(x - centre) <= 2 <==> NearCentre(v, x) == centre) && (NearCentre(v, x) == centre <==> CentreRank(v, x) == i)
  {
    CentreTable(v);
  }

  lemma RankBound(v: nat, x: int)
    requires 1 <= v <= 10
    ensures CentreRank(v, x) < |ALIGNMENT_CENTRES[v - 1]|
    ensures CentreRank(v, x) >= 0 <==> NearCentre(v, x) >= 0
  {
    CentreTable(v);
  }

  method PlaceAlignment(canvas: Canvas, version: nat)
    requires canvas.Valid() && 1 <= version <= 10 && canvas.size == Size(version)
    modifies canvas.cells, canvas.reserved
    ensures forall r, c :: InGrid(canvas.size, r, c) ==>
      canvas.At(r, c) == (if Alignment(version, r, c) then Painted(AlignmentDark(version, r, c))
                          else old(canvas.At(r, c)))
  {
    hide Index, NearCentre, CentreRank;
    var size := canvas.size;
    var centres := ALIGNMENT_CENTRES[version - 1];
    forall x: int
      ensures CentreRank(version, x) < |centres| && (CentreRank(version, x) >= 0 <==> NearCentre(version, x) >= 0)
    {
      RankBound(version, x);
    }
    for i := 0 to |centres|
      invariant forall r, c :: InGrid(size, r, c) ==>
        canvas.At(r, c) == (if Alignment(version, r, c) && CentreRank(version, r) < i
                            then Painted(AlignmentDark(version, r, c)) else old(canvas.At(r, c)))
    {
      for j := 0 to |centres|
        invariant forall r, c :: InGrid(size, r, c) ==>
          canvas.At(r, c) == (if Alignment(version, r, c)
                                 && (CentreRank(version, r) < i || (CentreRank(version, r) == i && CentreRank(version, c) < j))
                              then Painted(AlignmentDark(version, r, c)) else old(canvas.At(r, c)))
      {
        var row, col := centres[i], centres[j];
        forall x: int
          ensures Abs(x - row) <= 2 <==> NearCentre(version, x) == row
          ensures NearCentre(version, x) == row <==> CentreRank(version, x) == i
          ensures Abs(x - col) <= 2 <==> NearCentre(version, x) == col
          ensures NearCentre(version, x) == col <==> CentreRank(version, x) == j
        {
          CentreRanks(version, i, x);
          CentreRanks(version, j, x);
        }
        CentreRanks(version, i, 0);
        CentreRanks(version, j, 0);
        var nearFinder := (row == 6 && col == 6) || (row == 6 && col == size - 7) || (row == size - 7 && col == 6);
        if !nearFinder {
          PlaceAlignmentAt(canvas, row, col);
        }
      }
    }
  }

  method PlaceTiming(canvas: Canvas)
    requires canvas.Valid() && canvas.size >= 17
    modifies canvas.cells, canvas.reserved
    ensures forall r, c :: InGrid(canvas.size, r, c) ==>
      canvas.At(r, c) == (if Timing(canvas.size, r, c) && !old(canvas.At(r, c)).reserved
                          then Painted(TimingDark(r, c)) else old(canvas.At(r, c)))
  {
    hide Index;
    var size := canvas.size;
    for i := 8 to size - 8
      invariant forall r, c :: InGrid(size, r, c) ==>
        canvas.At(r, c) == (if Timing(size, r, c) && r < (if c == 6 then i else 7) && c < (if r == 6 then i else 7)
                               && !old(canvas.At(r, c)).reserved
                            then Painted(TimingDark(r, c)) else old(canvas.At(r, c)))
    {
      var taken := canvas.IsReserved(6, i);
      if !taken {
        canvas.SetModule(6, i, i % 2 == 0, true);
      }
      taken := canvas.IsReserved(i, 6);
      if !taken {
        canvas.SetModule(i, 6, i % 2 == 0, true);
      }
    }
  }

  // ----- format and version areas -----

  /** The strips of the format area that lie along the two outer finders. */
  predicate OuterFormat(n: nat, r: int, c: int) {
    (r == 8 && c >= n - 8) || (c == 8 && r >= n - 8)
  }

  method ReserveInnerFormat(canvas: Canvas)
    requires canvas.Valid() && canvas.size >= 21
    modifies canvas.cells, canvas.reserved
    ensures forall r, c :: InGrid(canvas.size, r, c) ==>
      canvas.At(r, c) == (if ((r == 8 && c < 9) || (c == 8 && r < 9)) && !old(canvas.At(r, c)).reserved
                          then Painted(false) else old(canvas.At(r, c)))
  {
    hide Index;
    for i := 0 to 9
      invariant forall r, c :: InGrid(canvas.size, r, c) ==>
        canvas.At(r, c) == (if ((r == 8 && c < i) || (c == 8 && r < i)) && !old(canvas.At(r, c)).reserved
                            then Painted(false) else old(canvas.At(r, c)))
    {
      var taken := canvas.IsReserved(8, i);
      if !taken {
        canvas.SetModule(8, i, false, true);
      }
      taken := canvas.IsReserved(i, 8);
      if !taken {
        canvas.SetModule(i, 8, false, true);
      }
    }
  }

  method ReserveOuterFormat(canvas: Canvas)
    requires canvas.Valid() && canvas.size >= 21
    modifies canvas.cells, canvas.reserved
    ensures forall r, c :: InGrid(canvas.size, r, c) ==>
      canvas.At(r, c) == (if DarkModule(canvas.size, r, c) then Painted(true)
                          else if OuterFormat(canvas.size, r, c) then Painted(false) else old(canvas.At(r, c)))
  {
    hide Index;
    var size := canvas.size;
    for i := 0 to 8
      invariant forall r, c :: InGrid(size, r, c) ==>
        canvas.At(r, c) == (if (r == 8 && c >= size - i) || (c == 8 && r >= size - i)
                            then Painted(false) else old(canvas.At(r, c)))
    {
      canvas.SetModule(8, size - 1 - i, false, true);
      canvas.SetModule(size - 1 - i, 8, false, true);
    }
    canvas.SetModule(size - 8, 8, true, true);
  }

  /** Writes both copies of an 18-bit word into the version areas. */
  method WriteVersionBits(canvas: Canvas, version: nat, word: nat)
    requires canvas.Valid() && version >= 7 && canvas.size == Size(version)
    modifies canvas.cells, canvas.reserved
    ensures forall r, c :: InGrid(canvas.size, r, c) ==>
      canvas.At(r, c) == (if VersionArea(version, r, c) then Painted(Bit(word, VersionIndex(version, r, c)))
                          else old(canvas.At(r, c)))
  {
    hide Index, Bit, Pow2, Size;
    var size := canvas.size;
    for i := 0 to 18
      invariant forall r, c :: InGrid(size, r, c) ==>
        canvas.At(r, c) == (if VersionArea(version, r, c) && VersionIndex(version, r, c) < i
                            then Painted(Bit(word, VersionIndex(version, r, c))) else old(canvas.At(r, c)))
    {
      var dark := (word / Pow2(i)) % 2 == 1;
      BitIsShift(word, i);
      var d, m := i / 3, i % 3;
      assert d < 6 && i == 3 * d + m;
      canvas.SetModule(d, m + size - 11, dark, true);
      canvas.SetModule(m + size - 11, d, dark, true);
    }
  }

  method ReserveFormatAreas(canvas: Canvas, version: nat)
    requires canvas.Valid() && 1 <= version <= 10 && canvas.size == Size(version)
    modifies canvas.cells, canvas.reserved
    ensures var n := canvas.size; forall r, c :: InGrid(n, r, c) ==>
      canvas.At(r, c) == (if DarkModule(n, r, c) then Painted(true)
                          else if FormatArea(n, r, c) && (OuterFormat(n, r, c) || !old(canvas.At(r, c)).reserved)
                          then Painted(false)
                          else if VersionArea(version, r, c) then Painted(false)
                          else old(canvas.At(r, c)))
  {
    hide Index;
    ReserveInnerFormat(canvas);
    ReserveOuterFormat(canvas);
    if version >= 7 {
      forall i: nat
        ensures !Bit(0, i)
      {
        ZeroBits(i);
      }
      WriteVersionBits(canvas, version, 0);
    }
  }

  lemma {:induction false} ZeroBits(i: nat)
    ensures !Bit(0, i)
  {
    if i > 0 {
      ZeroBits(i - 1);
    }
  }

  method WriteFormatInfo(canvas: Canvas, mask: nat)
    requires canvas.Valid() && canvas.size >= 21 && mask < 8
    modifies canvas.cells, canvas.reserved
    ensures var n := canvas.size; forall r, c :: InGrid(n, r, c) ==>
      canvas.At(r, c) == (if FormatIndex(n, r, c) >= 0 then Painted(Bit(FormatWord(mask), FormatIndex(n, r, c)))
                          else if DarkModule(n, r, c) then Painted(true)
                          else old(canvas.At(r, c)))
  {
    hide Index, Bit, Pow2, FormatWord;
    var size := canvas.size;
    var bits := FormatInfoBits(mask);
    for i := 0 to 15
      invariant forall r, c :: InGrid(size, r, c) ==>
        canvas.At(r, c) == (if c == 8 && 0 <= FormatIndex(size, r, c) < i
                            then Painted(Bit(bits, FormatIndex(size, r, c))) else old(canvas.At(r, c)))
    {
      var dark := (bits / Pow2(i)) % 2 == 1;
      BitIsShift(bits, i);
      if i < 6 {
        canvas.SetModule(i, 8, dark, true);
      } else if i < 8 {
        canvas.SetModule(i + 1, 8, dark, true);
      } else {
        canvas.SetModule(size - 15 + i, 8, dark, true);
      }
    }
    WriteFormatRow(canvas, bits);
    canvas.SetModule(size - 8, 8, true, true);
  }

  /** The second loop: the copy along row 8. */
  method WriteFormatRow(canvas: Canvas, bits: nat)
    requires canvas.Valid() && canvas.size >= 21
    modifies canvas.cells, canvas.reserved
    ensures var n := canvas.size; forall r, c :: InGrid(n, r, c) ==>
      canvas.At(r, c) == (if c != 8 && FormatIndex(n, r, c) >= 0 then Painted(Bit(bits, FormatIndex(n, r, c)))
                          else old(canvas.At(r, c)))
  {
    hide Index, Bit, Pow2;
    var size := canvas.size;
    for i := 0 to 15
      invariant forall r, c :: InGrid(size, r, c) ==>
        canvas.At(r, c) == (if c != 8 && 0 <= FormatIndex(size, r, c) < i
                            then Painted(Bit(bits, FormatIndex(size, r, c))) else old(canvas.At(r, c)))
    {
      var dark := (bits / Pow2(i)) % 2 == 1;
      BitIsShift(bits, i);
      if i < 8 {
        canvas.SetModule(8, size - i - 1, dark, true);
      } else if i < 9 {
        canvas.SetModule(8, 15 - i, dark, true);
      } else {
        canvas.SetModule(8, 15 - i - 1, dark, true);
      }
    }
  }

  method WriteVersionInfo(canvas: Canvas, version: nat)
    requires canvas.Valid() && 1 <= version <= 10 && canvas.size == Size(version)
    modifies canvas.cells, canvas.reserved
    ensures forall r, c :: InGrid(canvas.size, r, c) ==>
      canvas.At(r, c) == (if VersionArea(version, r, c)
                          then Painted(Bit(VersionWord(version), VersionIndex(version, r, c)))
                          else old(canvas.At(r, c)))
  {
    hide Index, Bit, VersionWord;
    if version < 7 {
      return;
    }
    var bits := VersionInfoBits(version);
    WriteVersionBits(canvas, version, bits);
  }

  /** The canvas before any data: every reserved module flagged, every fixed pattern in its colour. */
  function Template(v: nat, r: int, c: int): Module {
    if FixedPattern(v, r, c) then Painted(FixedDark(v, r, c))
    else if Reserved(v, r, c) then Painted(false)
    else Module(-1, false)
  }

  method PlacePatterns(version: nat) returns (canvas: Canvas)
    requires 1 <= version <= 10
    ensures canvas.Valid() && fresh(canvas) && fresh(canvas.cells) && fresh(canvas.reserved)
    ensures canvas.size == Size(version)
    ensures forall r, c :: InGrid(canvas.size, r, c) ==> canvas.At(r, c) == Template(version, r, c)
  {
    hide Index, NearCentre, AlignmentDark, FinderShape;
    var size := Size(version);
    canvas := new Canvas(size);
    PlaceFinder(canvas, 0, 0);
    PlaceFinder(canvas, 0, size - 7);
    PlaceFinder(canvas, size - 7, 0);
    assert forall r, c :: InGrid(size, r, c) ==>
      canvas.At(r, c) == (if Finder(size, r, c) then Painted(FinderDark(size, r, c)) else Module(-1, false));
    PlaceAlignment(canvas, version);
    PlaceTiming(canvas);
    assert forall r, c :: InGrid(size, r, c) ==>
      canvas.At(r, c) == (if Alignment(version, r, c) then Painted(AlignmentDark(version, r, c))
                          else if Finder(size, r, c) then Painted(FinderDark(size, r, c))
                          else if Timing(size, r, c) then Painted(TimingDark(r, c))
                          else Module(-1, false));
    ReserveFormatAreas(canvas, version);
    forall r, c | InGrid(size, r, c)
      ensures canvas.At(r, c) == Template(version, r, c)
    {
      if OuterFormat(size, r, c) || VersionArea(version, r, c) {
        AreasDisjoint(version, r, c);
      }
    }
  }

  /** The outer format strips and the version areas touch no fixed pattern but the dark module. */
  lemma AreasDisjoint(v: nat, r: int, c: int)
    requires 1 <= v <= 10 && InGrid(Size(v), r, c)
    requires OuterFormat(Size(v), r, c) || VersionArea(v, r, c)
    ensures !Alignment(v, r, c) && !Finder(Size(v), r, c) && !Timing(Size(v), r, c)
  {
  }
}
