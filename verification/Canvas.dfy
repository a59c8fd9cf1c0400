/** The matrix under construction: the flat cell and reservation buffers and the methods that write them. */
module CanvasModule {
  import opened Arithmetic
  import opened Layout

  /** A cell holds -1 while unset, 0 for light, 1 for dark. */
  datatype Module = Module(value: int, reserved: bool)

  function Painted(dark: bool): Module {
    Module(if dark then 1 else 0, true)
  }

  function Index(n: nat, r: int, c: int): (i: nat)
    requires InGrid(n, r, c)
    ensures i < n * n
  {
    ProductNonNegative(r, n);
    MultiplesApart(r, n, n);
    r * n + c
  }

  lemma IndexInjective(n: nat, r: int, c: int, r': int, c': int)
    requires InGrid(n, r, c) && InGrid(n, r', c') && Index(n, r, c) == Index(n, r', c')
    ensures r == r' && c == c'
  {
    if r < r' {
      MultiplesApart(r, r', n);
    } else if r' < r {
      MultiplesApart(r', r, n);
    }
  }

  class Canvas {
    const size: nat
    const cells: array<int>
    const reserved: array<bool>

    ghost predicate Valid() {
      cells.Length == size * size && reserved.Length == size * size
    }

    function At(r: int, c: int): Module
      requires Valid() && InGrid(size, r, c)
      reads cells, reserved
    {
      Module(cells[Index(size, r, c)], reserved[Index(size, r, c)])
    }

    constructor (n: nat)
      ensures Valid() && size == n && fresh(cells) && fresh(reserved)
      ensures forall r, c :: InGrid(n, r, c) ==> At(r, c) == Module(-1, false)
    {
      ProductNonNegative(n, n);
      size := n;
      cells := new int[n * n](_ => -1);
      reserved := new bool[n * n](_ => false);
    }

    method SetModule(row: int, col: int, dark: bool, reserve: bool)
      requires Valid() && InGrid(size, row, col)
      modifies cells, reserved
      ensures forall r, c :: InGrid(size, r, c) ==>
        At(r, c) == (if r == row && c == col then Module(if dark then 1 else 0, reserve || old(At(r, c)).reserved)
                     else old(At(r, c)))
    {
      var i := Index(size, row, col);
      forall r, c | InGrid(size, r, c) && Index(size, r, c) == i
        ensures r == row && c == col
      {
        IndexInjective(size, r, c, row, col);
      }
      hide Index;
      cells[i] := if dark then 1 else 0;
      if reserve {
        reserved[i] := true;
      }
    }

    method IsReserved(row: int, col: int) returns (b: bool)
      requires Valid() && InGrid(size, row, col)
      ensures b == At(row, col).reserved
    {
      b := reserved[Index(size, row, col)];
    }
  }
}
