/**
 * The pixel loops of DRW (`drw`): sprite rows memory[I], memory[I+1], ...
 * are XORed, most significant bit first, into the display at (Vx, Vy)
 * without wrapping, and a flag records whether a set bit met a lit cell.
 *
 * Pixel (row, col) is bit `col` of sprite line `row`; the fold `Scan`
 * visits pixels in the order of the two nested loops of the source, row
 * by row and, inside a row, column by column.
 */
module Sprite {
  import opened Consts
  import opened Helpers
  import opened Bits

  /** `(line >> (7 - col)) & 1`: bit `col` of a sprite line, counting from the most significant. */
  function SpriteBit(line: Byte, col: nat): Bit
    requires col < 8
  {
    line / Pow2(7 - col) % 2
  }

  /** `a ^ b` on 0/1 values. */
  function Xor(a: Bit, b: Bit): Bit
  {
    if a == b then 0 else 1
  }

  /**
   * The sprite read from memory[i..i+n) and drawn at (vx, vy) stays inside
   * memory and inside the 2048-cell display (the source does not wrap).
   */
  predicate Fits(i: int, vx: int, vy: int, n: nat)
  {
    && 0 <= i && i + n <= MemorySize
    && 0 <= vx && 0 <= vy
    && (n == 0 || To1D(7 + vx, n - 1 + vy) < DisplaySize)
  }

  /** Display cell of sprite pixel (row, col): `to1D(x + xCoord, y + yCoord)`. */
  function Cell(vx: int, vy: int, row: nat, col: nat): int
  {
    To1D(col + vx, row + vy)
  }

  lemma CellInRange(i: int, vx: int, vy: int, n: nat, row: nat, col: nat)
    requires Fits(i, vx, vy, n) && row < n && col < 8
    ensures 0 <= Cell(vx, vy, row, col) < DisplaySize
    ensures 0 <= i + row < MemorySize
  {
  }

  /** The bit that sprite pixel (row, col) carries. */
  function PixelBit(memory: seq<Byte>, i: int, row: nat, col: nat): Bit
    requires 0 <= i + row < |memory| && col < 8
  {
    SpriteBit(memory[i + row], col)
  }

  // ---------------------------------------------------------------------
  // The fold

  /** The display and the collision flag part-way through the pixel loops. */
  datatype Frame = Frame(cells: seq<Bit>, hit: bool)

  /** Pixel (r, c) comes before pixel (row, col) in the order of the loops. */
  predicate Before(r: nat, c: nat, row: nat, col: nat)
  {
    r < row || (r == row && c < col)
  }

  /**
   * The state of the two nested loops of DRW before column `col` of row
   * `row`: all earlier rows have been drawn, then the first `col` pixels
   * of this one.
   */
  function Scan(display: seq<Bit>, memory: seq<Byte>, i: int, vx: int, vy: int, n: nat, row: nat, col: nat): (f: Frame)
    requires |display| == DisplaySize && |memory| == MemorySize && Fits(i, vx, vy, n)
    requires col <= 8 && (row < n || (row == n && col == 0))
    ensures |f.cells| == DisplaySize
    decreases row, col
  {
    if col == 0 then
      if row == 0 then Frame(display, false) else Scan(display, memory, i, vx, vy, n, row - 1, 8)
    else
      CellInRange(i, vx, vy, n, row, col - 1);
      var f := Scan(display, memory, i, vx, vy, n, row, col - 1);
      var k := Cell(vx, vy, row, col - 1);
      var bit := PixelBit(memory, i, row, col - 1);
      Frame(f.cells[k := Xor(bit, f.cells[k])], f.hit || (bit == 1 && f.cells[k] == 1))
  }

  /** All n rows drawn: the display and the flag DRW leaves. */
  function Draw(display: seq<Bit>, memory: seq<Byte>, i: int, vx: int, vy: int, n: nat): (f: Frame)
    requires |display| == DisplaySize && |memory| == MemorySize && Fits(i, vx, vy, n)
    ensures |f.cells| == DisplaySize
  {
    Scan(display, memory, i, vx, vy, n, n, 0)
  }

  // ---------------------------------------------------------------------
  // Closed form

  /** The sprite pixel (row, col) that lands on display cell k, or (-1, -1) when none can: the inverse of Cell. */
  function PixelAt(vx: int, vy: int, k: int): (rc: (int, int))
    ensures rc.0 >= 0 ==> 0 <= rc.1 < 8
  {
    var off := k - To1D(vx, vy);
    if off >= 0 && off % ScreenWidth < 8 then (off / ScreenWidth, off % ScreenWidth) else (-1, -1)
  }

  lemma PixelAtCell(vx: int, vy: int, row: nat, col: nat)
    requires col < 8
    ensures PixelAt(vx, vy, Cell(vx, vy, row, col)) == (row, col)
  {
    var off := Cell(vx, vy, row, col) - To1D(vx, vy);
    assert off == col + ScreenWidth * row;
    assert off % ScreenWidth == col && off / ScreenWidth == row;
  }

  lemma CellPixelAt(vx: int, vy: int, k: int)
    requires PixelAt(vx, vy, k).0 >= 0
    ensures Cell(vx, vy, PixelAt(vx, vy, k).0, PixelAt(vx, vy, k).1) == k
  {
  }

  /** Distinct pixels of a sprite land on distinct cells. */
  lemma CellInjective(vx: int, vy: int, r1: nat, c1: nat, r2: nat, c2: nat)
    requires c1 < 8 && c2 < 8 && Cell(vx, vy, r1, c1) == Cell(vx, vy, r2, c2)
    ensures r1 == r2 && c1 == c2
  {
    PixelAtCell(vx, vy, r1, c1);
    PixelAtCell(vx, vy, r2, c2);
  }

  /**
   * Cell k before pixel (row, col), in closed form: the old value XOR the
   * bit of the one pixel that lands on it, when that pixel has already been
   * visited; otherwise the old value.
   */
  function CellAfter(display: seq<Bit>, memory: seq<Byte>, i: int, vx: int, vy: int, n: nat, row: nat, col: nat, k: int): Bit
    requires |display| == DisplaySize && |memory| == MemorySize && Fits(i, vx, vy, n)
    requires col <= 8 && (row < n || (row == n && col == 0)) && 0 <= k < DisplaySize
  {
    var rc := PixelAt(vx, vy, k);
    if rc.0 >= 0 && Before(rc.0, rc.1, row, col) then
      Xor(display[k], PixelBit(memory, i, rc.0, rc.1))
    else display[k]
  }

  /** Every cell part-way through the loops holds its closed form. */
  lemma {:induction false} ScanAt(display: seq<Bit>, memory: seq<Byte>, i: int, vx: int, vy: int, n: nat, row: nat, col: nat, k: int)
    requires |display| == DisplaySize && |memory| == MemorySize && Fits(i, vx, vy, n)
    requires col <= 8 && (row < n || (row == n && col == 0)) && 0 <= k < DisplaySize
    ensures Scan(display, memory, i, vx, vy, n, row, col).cells[k] == CellAfter(display, memory, i, vx, vy, n, row, col, k)
    decreases row, col
  {
    if col == 0 {
      if row > 0 {
        ScanAt(display, memory, i, vx, vy, n, row - 1, 8, k);
      }
    } else {
      ScanAt(display, memory, i, vx, vy, n, row, col - 1, k);
      ScanAtStep(display, memory, i, vx, vy, n, row, col, k);
    }
  }

  /** Pixel (row, col - 1) changes only its own cell, whose closed form is the one that gains it. */
  lemma ScanAtStep(display: seq<Bit>, memory: seq<Byte>, i: int, vx: int, vy: int, n: nat, row: nat, col: nat, k: int)
    requires |display| == DisplaySize && |memory| == MemorySize && Fits(i, vx, vy, n)
    requires 0 < col <= 8 && row < n && 0 <= k < DisplaySize
    requires Scan(display, memory, i, vx, vy, n, row, col - 1).cells[k]
          == CellAfter(display, memory, i, vx, vy, n, row, col - 1, k)
    ensures Scan(display, memory, i, vx, vy, n, row, col).cells[k] == CellAfter(display, memory, i, vx, vy, n, row, col, k)
  {
    var c := Cell(vx, vy, row, col - 1);
    if k == c {
      PixelAtCell(vx, vy, row, col - 1);
    } else if PixelAt(vx, vy, k) == (row, col - 1) {
      CellPixelAt(vx, vy, k);
    }
  }

  /** A set pixel met a lit cell of the ORIGINAL display (the test of the source's `vf`). */
  predicate Hit(display: seq<Bit>, memory: seq<Byte>, i: int, vx: int, vy: int, r: nat, c: nat)
  {
    var k := Cell(vx, vy, r, c);
    && c < 8 && 0 <= k < |display| && 0 <= i + r < |memory|
    && PixelBit(memory, i, r, c) == 1 && display[k] == 1
  }

  /** Pixel (row, col - 1) raises the flag exactly when it is a hit on the original display. */
  lemma HitStep(display: seq<Bit>, memory: seq<Byte>, i: int, vx: int, vy: int, n: nat, row: nat, col: nat)
    requires |display| == DisplaySize && |memory| == MemorySize && Fits(i, vx, vy, n)
    requires 0 < col <= 8 && row < n
    ensures Scan(display, memory, i, vx, vy, n, row, col).hit
        == (Scan(display, memory, i, vx, vy, n, row, col - 1).hit || Hit(display, memory, i, vx, vy, row, col - 1))
  {
    var c := Cell(vx, vy, row, col - 1);
    PixelAtCell(vx, vy, row, col - 1);
    ScanAt(display, memory, i, vx, vy, n, row, col - 1, c);
  }

  /** The flag is raised exactly when some visited set sprite bit lands on a cell that was lit before the draw. */
  lemma {:induction false} CollidesIff(display: seq<Bit>, memory: seq<Byte>, i: int, vx: int, vy: int, n: nat, row: nat, col: nat)
    requires |display| == DisplaySize && |memory| == MemorySize && Fits(i, vx, vy, n)
    requires col <= 8 && (row < n || (row == n && col == 0))
    ensures Scan(display, memory, i, vx, vy, n, row, col).hit
        <==> exists r: nat, c: nat :: Before(r, c, row, col) && Hit(display, memory, i, vx, vy, r, c)
    decreases row, col
  {
    if col == 0 {
      if row > 0 {
        CollidesIff(display, memory, i, vx, vy, n, row - 1, 8);
        forall r: nat, c: nat | Hit(display, memory, i, vx, vy, r, c)
          ensures Before(r, c, row - 1, 8) <==> Before(r, c, row, 0)
        {
        }
      }
    } else {
      CollidesIff(display, memory, i, vx, vy, n, row, col - 1);
      HitStep(display, memory, i, vx, vy, n, row, col);
      if exists r: nat, c: nat :: Before(r, c, row, col) && Hit(display, memory, i, vx, vy, r, c) {
        var r: nat, c: nat :| Before(r, c, row, col) && Hit(display, memory, i, vx, vy, r, c);
        assert Before(r, c, row, col - 1) || (r == row && c == col - 1);
      }
    }
  }

  // ---------------------------------------------------------------------
  // Whole sprites

  /** XORing the same sprite twice at the same place gives back the display. */
  lemma DrawTwice(display: seq<Bit>, memory: seq<Byte>, i: int, vx: int, vy: int, n: nat)
    requires |display| == DisplaySize && |memory| == MemorySize && Fits(i, vx, vy, n)
    ensures Draw(Draw(display, memory, i, vx, vy, n).cells, memory, i, vx, vy, n).cells == display
  {
    var once := Draw(display, memory, i, vx, vy, n).cells;
    var twice := Draw(once, memory, i, vx, vy, n).cells;
    forall k | 0 <= k < DisplaySize
      ensures twice[k] == display[k]
    {
      ScanAt(display, memory, i, vx, vy, n, n, 0, k);
      ScanAt(once, memory, i, vx, vy, n, n, 0, k);
    }
  }

  /**
   * On a blank display the first draw raises no flag, and a second draw of
   * the same sprite raises it exactly when the sprite has a set bit.
   */
  lemma DrawOnBlank(display: seq<Bit>, memory: seq<Byte>, i: int, vx: int, vy: int, n: nat)
    requires |display| == DisplaySize && |memory| == MemorySize && Fits(i, vx, vy, n)
    requires forall k :: 0 <= k < DisplaySize ==> display[k] == 0
    ensures !Draw(display, memory, i, vx, vy, n).hit
    ensures Draw(Draw(display, memory, i, vx, vy, n).cells, memory, i, vx, vy, n).hit
        <==> exists r: nat, c: nat :: r < n && c < 8 && PixelBit(memory, i, r, c) == 1
  {
    var once := Draw(display, memory, i, vx, vy, n).cells;
    CollidesIff(display, memory, i, vx, vy, n, n, 0);
    CollidesIff(once, memory, i, vx, vy, n, n, 0);
    forall r: nat, c: nat | r < n && c < 8
      ensures Hit(once, memory, i, vx, vy, r, c) <==> PixelBit(memory, i, r, c) == 1
    {
      CellInRange(i, vx, vy, n, r, c);
      PixelAtCell(vx, vy, r, c);
      ScanAt(display, memory, i, vx, vy, n, n, 0, Cell(vx, vy, r, c));
    }
    if exists r: nat, c: nat :: r < n && c < 8 && PixelBit(memory, i, r, c) == 1 {
      var r: nat, c: nat :| r < n && c < 8 && PixelBit(memory, i, r, c) == 1;
      assert Before(r, c, n, 0) && Hit(once, memory, i, vx, vy, r, c);
    }
  }
}
