/** `MatrixFeatherWing` (lib/adafruit_featherwing/matrix_featherwing.py): a 16 x 8 LED
    matrix whose pixels are shifted in place one step right, left, up or down, optionally
    rotating the pixel pushed off one edge back in at the other, and which pushes its
    buffer to the display after each change only while `auto_write` is set.

    The pixel buffer of the driver is the array `pixels`, indexed `[x, y]` with 16
    columns `x` and 8 rows `y`; `shows` counts the buffer pushes to the display. */
module MatrixFeatherWing {
  import opened Values

  const Columns := 16
  const Rows := 8
  const LastColumn := Columns - 1
  const LastRow := Rows - 1

  /** A line of pixels moved one step toward its end: every pixel takes the place of
      the next one, the last falls off, and `vacated` fills the first place. */
  function Advance(line: seq<int>, vacated: int): (moved: seq<int>)
    requires |line| >= 1
    ensures |moved| == |line| && moved[0] == vacated
    ensures forall i :: 1 <= i < |line| ==> moved[i] == line[i - 1]
  {
    [vacated] + line[..|line| - 1]
  }

  /** A line of pixels moved one step toward its start: the first pixel falls off and
      `vacated` fills the last place. */
  function Retreat(line: seq<int>, vacated: int): (moved: seq<int>)
    requires |line| >= 1
    ensures |moved| == |line| && moved[|line| - 1] == vacated
    ensures forall i :: 0 <= i < |line| - 1 ==> moved[i] == line[i + 1]
  {
    line[1..] + [vacated]
  }

  /** The pixel that refills the vacated place: the one pushed off the other end when
      rotating, 0 (off) otherwise. */
  function Refill(rotate: bool, pushedOff: int): int {
    if rotate then pushedOff else 0
  }

  /** Rotating a line toward its end and then toward its start, or the other way
      round, gives the line back. */
  lemma RotationsCancel(line: seq<int>)
    requires |line| >= 1
    ensures Retreat(Advance(line, line[|line| - 1]), line[|line| - 1]) == line
    ensures Advance(Retreat(line, line[0]), line[0]) == line
  {
    var n := |line|;
    assert line == line[..n - 1] + [line[n - 1]];
    assert line == [line[0]] + line[1..];
  }

  /** Rotation moves the pixels of a line around and loses none. */
  lemma RotationKeepsPixels(line: seq<int>)
    requires |line| >= 1
    ensures multiset(Advance(line, line[|line| - 1])) == multiset(line)
    ensures multiset(Retreat(line, line[0])) == multiset(line)
  {
    var n := |line|;
    assert line == line[..n - 1] + [line[n - 1]];
    assert line == [line[0]] + line[1..];
  }

  // ---------------------------------------------------------------------------
  // The grid as a value: `g[x][y]`, column `x`, row `y`

  type Grid = seq<seq<int>>

  predicate IsGrid(g: Grid) {
    |g| == Columns && forall x :: 0 <= x < Columns ==> |g[x]| == Rows
  }

  /** Row `y` of the grid, left to right. */
  function Row(g: Grid, y: int): seq<int>
    requires IsGrid(g) && 0 <= y < Rows
  {
    seq(Columns, x requires 0 <= x < Columns => g[x][y])
  }

  /** Every column moves one place right; column 0 takes the refill of each row. */
  function ShiftedRight(g: Grid, rotate: bool): (h: Grid)
    requires IsGrid(g)
    ensures IsGrid(h)
    ensures forall x, y :: 0 < x < Columns && 0 <= y < Rows ==> h[x][y] == g[x - 1][y]
    ensures forall y :: 0 <= y < Rows ==> h[0][y] == Refill(rotate, g[LastColumn][y])
  {
    seq(Columns, x requires 0 <= x < Columns =>
      seq(Rows, y requires 0 <= y < Rows => Advance(Row(g, y), Refill(rotate, g[LastColumn][y]))[x]))
  }

  /** Every column moves one place left; the last column takes the refill of each row. */
  function ShiftedLeft(g: Grid, rotate: bool): (h: Grid)
    requires IsGrid(g)
    ensures IsGrid(h)
    ensures forall x, y :: 0 <= x < LastColumn && 0 <= y < Rows ==> h[x][y] == g[x + 1][y]
    ensures forall y :: 0 <= y < Rows ==> h[LastColumn][y] == Refill(rotate, g[0][y])
  {
    seq(Columns, x requires 0 <= x < Columns =>
      seq(Rows, y requires 0 <= y < Rows => Retreat(Row(g, y), Refill(rotate, g[0][y]))[x]))
  }

  /** Every row moves one place towards the last row; row 0 takes the refill of each
      column. */
  function ShiftedUp(g: Grid, rotate: bool): (h: Grid)
    requires IsGrid(g)
    ensures IsGrid(h)
    ensures forall x, y :: 0 <= x < Columns && 0 < y < Rows ==> h[x][y] == g[x][y - 1]
    ensures forall x :: 0 <= x < Columns ==> h[x][0] == Refill(rotate, g[x][LastRow])
  {
    seq(Columns, x requires 0 <= x < Columns => Advance(g[x], Refill(rotate, g[x][LastRow])))
  }

  /** Every row moves one place towards row 0; the last row takes the refill of each
      column. */
  function ShiftedDown(g: Grid, rotate: bool): (h: Grid)
    requires IsGrid(g)
    ensures IsGrid(h)
    ensures forall x, y :: 0 <= x < Columns && 0 <= y < LastRow ==> h[x][y] == g[x][y + 1]
    ensures forall x :: 0 <= x < Columns ==> h[x][LastRow] == Refill(rotate, g[x][0])
  {
    seq(Columns, x requires 0 <= x < Columns => Retreat(g[x], Refill(rotate, g[x][0])))
  }

  /** A horizontal shift works on each row by itself: row `y` of the result is row `y`
      moved along, so no pixel changes row, and with rotation every row keeps its
      pixels. */
  lemma HorizontalShiftsKeepRows(g: Grid, rotate: bool, y: int)
    requires IsGrid(g) && 0 <= y < Rows
    ensures Row(ShiftedRight(g, rotate), y) == Advance(Row(g, y), Refill(rotate, g[LastColumn][y]))
    ensures Row(ShiftedLeft(g, rotate), y) == Retreat(Row(g, y), Refill(rotate, g[0][y]))
    ensures rotate ==> multiset(Row(ShiftedRight(g, rotate), y)) == multiset(Row(g, y))
    ensures rotate ==> multiset(Row(ShiftedLeft(g, rotate), y)) == multiset(Row(g, y))
  {
    RotationKeepsPixels(Row(g, y));
  }

  /** A vertical shift works on each column by itself, and with rotation every column
      keeps its pixels. */
  lemma VerticalShiftsKeepColumns(g: Grid, rotate: bool, x: int)
    requires IsGrid(g) && 0 <= x < Columns
    ensures ShiftedUp(g, rotate)[x] == Advance(g[x], Refill(rotate, g[x][LastRow]))
    ensures ShiftedDown(g, rotate)[x] == Retreat(g[x], Refill(rotate, g[x][0]))
    ensures rotate ==> multiset(ShiftedUp(g, rotate)[x]) == multiset(g[x])
    ensures rotate ==> multiset(ShiftedDown(g, rotate)[x]) == multiset(g[x])
  {
    RotationKeepsPixels(g[x]);
  }

  /** Rotating right and then left, or left and then right, restores the grid. */
  lemma RotateRightThenLeft(g: Grid)
    requires IsGrid(g)
    ensures ShiftedLeft(ShiftedRight(g, true), true) == g
    ensures ShiftedRight(ShiftedLeft(g, true), true) == g
  {
    var right := ShiftedRight(g, true);
    var left := ShiftedLeft(g, true);
    forall y | 0 <= y < Rows
      ensures Row(ShiftedLeft(right, true), y) == Row(g, y)
      ensures Row(ShiftedRight(left, true), y) == Row(g, y)
    {
      HorizontalShiftsKeepRows(g, true, y);
      HorizontalShiftsKeepRows(right, true, y);
      HorizontalShiftsKeepRows(left, true, y);
      RotationsCancel(Row(g, y));
    }
    RowsDetermine(ShiftedLeft(right, true), g);
    RowsDetermine(ShiftedRight(left, true), g);
  }

  /** Rotating up and then down, or down and then up, restores the grid. */
  lemma RotateUpThenDown(g: Grid)
    requires IsGrid(g)
    ensures ShiftedDown(ShiftedUp(g, true), true) == g
    ensures ShiftedUp(ShiftedDown(g, true), true) == g
  {
    forall x | 0 <= x < Columns
      ensures ShiftedDown(ShiftedUp(g, true), true)[x] == g[x]
      ensures ShiftedUp(ShiftedDown(g, true), true)[x] == g[x]
    {
      RotationsCancel(g[x]);
    }
  }

  /** Two grids that agree pixel by pixel are the same grid. */
  lemma SamePixels(g: Grid, h: Grid)
    requires IsGrid(g) && IsGrid(h)
    requires forall x, y :: 0 <= x < Columns && 0 <= y < Rows ==> g[x][y] == h[x][y]
    ensures g == h
  {
    forall x | 0 <= x < Columns
      ensures g[x] == h[x]
    {
    }
  }

  /** Two grids with the same rows are the same grid. */
  lemma RowsDetermine(g: Grid, h: Grid)
    requires IsGrid(g) && IsGrid(h)
    requires forall y :: 0 <= y < Rows ==> Row(g, y) == Row(h, y)
    ensures g == h
  {
    forall x | 0 <= x < Columns
      ensures g[x] == h[x]
    {
      forall y | 0 <= y < Rows
        ensures g[x][y] == h[x][y]
      {
        assert Row(g, y)[x] == Row(h, y)[x];
      }
    }
  }

  // ---------------------------------------------------------------------------
  // The FeatherWing

  class MatrixFeatherWing {
    /** The driver's pixel buffer, `pixels[x, y]`. */
    const pixels: array2<int>
    var autoWrite: bool
    /** How many times the buffer was pushed to the display. */
    var shows: nat

    ghost predicate Valid() {
      pixels.Length0 == Columns && pixels.Length1 == Rows
    }

    /** The buffer as a grid value. */
    ghost function Contents(): (g: Grid)
      requires Valid()
      reads pixels
      ensures IsGrid(g)
    {
      seq(Columns, x requires 0 <= x < Columns reads pixels =>
        seq(Rows, y requires 0 <= y < Rows reads pixels => pixels[x, y]))
    }

    /** `__init__`: a dark 16 x 8 buffer that is written out after every change. */
    constructor()
      ensures Valid() && fresh(pixels)
      ensures autoWrite && shows == 0
      ensures forall x, y :: 0 <= x < Columns && 0 <= y < Rows ==> pixels[x, y] == 0
    {
      pixels := new int[Columns, Rows]((x, y) => 0);
      autoWrite := true;
      shows := 0;
    }

    /** `_update`: pushes the buffer to the display only while `auto_write` is set. */
    method Update()
      modifies this`shows
      ensures shows == old(shows) + (if autoWrite then 1 else 0)
    {
      if autoWrite {
        shows := shows + 1;
      }
    }

    /** `show`: pushes the buffer to the display. */
    method Show()
      modifies this`shows
      ensures shows == old(shows) + 1
    {
      shows := shows + 1;
    }

    /** The `auto_write` setter: a bool is taken, anything else is ignored. */
    method SetAutoWrite(write: Value)
      modifies this`autoWrite
      ensures autoWrite == if write.Bool? then write.b else old(autoWrite)
    {
      if write.Bool? {
        autoWrite := write.b;
      }
    }

    /** `fill`: a bool turns every pixel on (1) or off (0); anything else raises
        ValueError and changes nothing. */
    method Fill(fill: Value) returns (r: Outcome)
      requires Valid()
      modifies pixels, this`shows
      ensures r == (if fill.Bool? then Pass else Fail(ValueError))
      ensures fill.Bool? ==> forall x, y :: 0 <= x < Columns && 0 <= y < Rows ==> pixels[x, y] == (if fill.b then 1 else 0)
      ensures fill.Bool? ==> shows == old(shows) + (if autoWrite then 1 else 0)
      ensures !fill.Bool? ==> unchanged(pixels) && shows == old(shows)
    {
      if !fill.Bool? {
        return Fail(ValueError);
      }
      var level := if fill.b then 1 else 0;
      forall x, y | 0 <= x < Columns && 0 <= y < Rows {
        pixels[x, y] := level;
      }
      Update();
      return Pass;
    }

    /** The inner loop of `shift_right` for row `y`: each pixel from the right end down
        to column 1 takes its left neighbour's value, and column 0 gets `lastPixel`. */
    method ShiftRowRight(y: int, lastPixel: int)
      requires Valid() && 0 <= y < Rows
      modifies pixels
      ensures forall x :: 1 <= x < Columns ==> pixels[x, y] == old(pixels[x - 1, y])
      ensures pixels[0, y] == lastPixel
      ensures forall x, y' :: 0 <= x < Columns && 0 <= y' < Rows && y' != y ==> pixels[x, y'] == old(pixels[x, y'])
    {
      var x := LastColumn;
      while x > 0
        invariant 0 <= x < Columns
        invariant forall i :: x < i < Columns ==> pixels[i, y] == old(pixels[i - 1, y])
        invariant forall i :: 0 <= i <= x ==> pixels[i, y] == old(pixels[i, y])
        invariant forall i, j :: 0 <= i < Columns && 0 <= j < Rows && j != y ==> pixels[i, j] == old(pixels[i, j])
      {
        pixels[x, y] := pixels[x - 1, y];
        x := x - 1;
      }
      pixels[0, y] := lastPixel;
    }

    /** The inner loop of `shift_left` for row `y`: each pixel from column 0 up to the
        one before the right end takes its right neighbour's value, and the right end
        gets `lastPixel`. */
    method ShiftRowLeft(y: int, lastPixel: int)
      requires Valid() && 0 <= y < Rows
      modifies pixels
      ensures forall x :: 0 <= x < LastColumn ==> pixels[x, y] == old(pixels[x + 1, y])
      ensures pixels[LastColumn, y] == lastPixel
      ensures forall x, y' :: 0 <= x < Columns && 0 <= y' < Rows && y' != y ==> pixels[x, y'] == old(pixels[x, y'])
    {
      var x := 0;
      while x < LastColumn
        invariant 0 <= x <= LastColumn
        invariant forall i :: 0 <= i < x ==> pixels[i, y] == old(pixels[i + 1, y])
        invariant forall i :: x <= i < Columns ==> pixels[i, y] == old(pixels[i, y])
        invariant forall i, j :: 0 <= i < Columns && 0 <= j < Rows && j != y ==> pixels[i, j] == old(pixels[i, j])
      {
        pixels[x, y] := pixels[x + 1, y];
        x := x + 1;
      }
      pixels[LastColumn, y] := lastPixel;
    }

    /** The inner loop of `shift_up` for column `x`: each pixel from the last row down
        to row 1 takes the value of the row before it, and row 0 gets `lastPixel`. */
    method ShiftColumnUp(x: int, lastPixel: int)
      requires Valid() && 0 <= x < Columns
      modifies pixels
      ensures forall y :: 1 <= y < Rows ==> pixels[x, y] == old(pixels[x, y - 1])
      ensures pixels[x, 0] == lastPixel
      ensures forall x', y :: 0 <= x' < Columns && 0 <= y < Rows && x' != x ==> pixels[x', y] == old(pixels[x', y])
    {
      var y := LastRow;
      while y > 0
        invariant 0 <= y < Rows
        invariant forall j :: y < j < Rows ==> pixels[x, j] == old(pixels[x, j - 1])
        invariant forall j :: 0 <= j <= y ==> pixels[x, j] == old(pixels[x, j])
        invariant forall i, j :: 0 <= i < Columns && 0 <= j < Rows && i != x ==> pixels[i, j] == old(pixels[i, j])
      {
        pixels[x, y] := pixels[x, y - 1];
        y := y - 1;
      }
      pixels[x, 0] := lastPixel;
    }

    /** The inner loop of `shift_down` for column `x`: each pixel from row 0 up to the
        one before the last row takes the value of the row after it, and the last row
        gets `lastPixel`. */
    method ShiftColumnDown(x: int, lastPixel: int)
      requires Valid() && 0 <= x < Columns
      modifies pixels
      ensures forall y :: 0 <= y < LastRow ==> pixels[x, y] == old(pixels[x, y + 1])
      ensures pixels[x, LastRow] == lastPixel
      ensures forall x', y :: 0 <= x' < Columns && 0 <= y < Rows && x' != x ==> pixels[x', y] == old(pixels[x', y])
    {
      var y := 0;
      while y < LastRow
        invariant 0 <= y <= LastRow
        invariant forall j :: 0 <= j < y ==> pixels[x, j] == old(pixels[x, j + 1])
        invariant forall j :: y <= j < Rows ==> pixels[x, j] == old(pixels[x, j])
        invariant forall i, j :: 0 <= i < Columns && 0 <= j < Rows && i != x ==> pixels[i, j] == old(pixels[i, j])
      {
        pixels[x, y] := pixels[x, y + 1];
        y := y + 1;
      }
      pixels[x, LastRow] := lastPixel;
    }

    /** `shift_right`: every pixel moves one column right; column 0 becomes dark, or
        takes the pixel pushed off the right edge when rotating. */
    method ShiftRight(rotate: bool)
      requires Valid()
      modifies pixels, this`shows
      ensures forall x, y :: 1 <= x < Columns && 0 <= y < Rows ==> pixels[x, y] == old(pixels[x - 1, y])
      ensures forall y :: 0 <= y < Rows ==> pixels[0, y] == (if rotate then old(pixels[LastColumn, y]) else 0)
      ensures Contents() == ShiftedRight(old(Contents()), rotate)
      ensures shows == old(shows) + (if autoWrite then 1 else 0)
    {
      var y := 0;
      while y < Rows
        invariant 0 <= y <= Rows
        invariant forall i, j :: 1 <= i < Columns && 0 <= j < y ==> pixels[i, j] == old(pixels[i - 1, j])
        invariant forall j :: 0 <= j < y ==> pixels[0, j] == (if rotate then old(pixels[LastColumn, j]) else 0)
        invariant forall i, j :: 0 <= i < Columns && y <= j < Rows ==> pixels[i, j] == old(pixels[i, j])
        invariant shows == old(shows)
      {
        var lastPixel := if rotate then pixels[LastColumn, y] else 0;
        ShiftRowRight(y, lastPixel);
        y := y + 1;
      }
      ghost var before := old(Contents());
      forall x, j | 0 <= x < Columns && 0 <= j < Rows
        ensures Contents()[x][j] == ShiftedRight(before, rotate)[x][j]
      {
        assert before[x][j] == old(pixels[x, j]);
        assert Row(before, j)[x] == old(pixels[x, j]);
        if x > 0 {
          assert Row(before, j)[x - 1] == old(pixels[x - 1, j]);
        }
      }
      SamePixels(Contents(), ShiftedRight(before, rotate));
      Update();
    }

    /** `shift_left`: every pixel moves one column left; the right edge becomes dark,
        or takes the pixel pushed off column 0 when rotating. */
    method ShiftLeft(rotate: bool)
      requires Valid()
      modifies pixels, this`shows
      ensures forall x, y :: 0 <= x < LastColumn && 0 <= y < Rows ==> pixels[x, y] == old(pixels[x + 1, y])
      ensures forall y :: 0 <= y < Rows ==> pixels[LastColumn, y] == (if rotate then old(pixels[0, y]) else 0)
      ensures Contents() == ShiftedLeft(old(Contents()), rotate)
      ensures shows == old(shows) + (if autoWrite then 1 else 0)
    {
      var y := 0;
      while y < Rows
        invariant 0 <= y <= Rows
        invariant forall i, j :: 0 <= i < LastColumn && 0 <= j < y ==> pixels[i, j] == old(pixels[i + 1, j])
        invariant forall j :: 0 <= j < y ==> pixels[LastColumn, j] == (if rotate then old(pixels[0, j]) else 0)
        invariant forall i, j :: 0 <= i < Columns && y <= j < Rows ==> pixels[i, j] == old(pixels[i, j])
        invariant shows == old(shows)
      {
        var lastPixel := if rotate then pixels[0, y] else 0;
        ShiftRowLeft(y, lastPixel);
        y := y + 1;
      }
      ghost var before := old(Contents());
      forall x, j | 0 <= x < Columns && 0 <= j < Rows
        ensures Contents()[x][j] == ShiftedLeft(before, rotate)[x][j]
      {
        assert before[x][j] == old(pixels[x, j]);
        assert Row(before, j)[x] == old(pixels[x, j]);
        if x < LastColumn {
          assert Row(before, j)[x + 1] == old(pixels[x + 1, j]);
        }
      }
      SamePixels(Contents(), ShiftedLeft(before, rotate));
      Update();
    }

    /** `shift_up`: every pixel moves from row `y - 1` to row `y`; row 0 becomes dark,
        or takes the pixel pushed off the last row when rotating. */
    method ShiftUp(rotate: bool)
      requires Valid()
      modifies pixels, this`shows
      ensures forall x, y :: 0 <= x < Columns && 1 <= y < Rows ==> pixels[x, y] == old(pixels[x, y - 1])
      ensures forall x :: 0 <= x < Columns ==> pixels[x, 0] == (if rotate then old(pixels[x, LastRow]) else 0)
      ensures Contents() == ShiftedUp(old(Contents()), rotate)
      ensures shows == old(shows) + (if autoWrite then 1 else 0)
    {
      var x := 0;
      while x < Columns
        invariant 0 <= x <= Columns
        invariant forall i, j :: 0 <= i < x && 1 <= j < Rows ==> pixels[i, j] == old(pixels[i, j - 1])
        invariant forall i :: 0 <= i < x ==> pixels[i, 0] == (if rotate then old(pixels[i, LastRow]) else 0)
        invariant forall i, j :: x <= i < Columns && 0 <= j < Rows ==> pixels[i, j] == old(pixels[i, j])
        invariant shows == old(shows)
      {
        var lastPixel := if rotate then pixels[x, LastRow] else 0;
        ShiftColumnUp(x, lastPixel);
        x := x + 1;
      }
      ghost var before := old(Contents());
      forall i, j | 0 <= i < Columns && 0 <= j < Rows
        ensures Contents()[i][j] == ShiftedUp(before, rotate)[i][j]
      {
        assert before[i][j] == old(pixels[i, j]);
        if j > 0 {
          assert before[i][j - 1] == old(pixels[i, j - 1]);
        }
      }
      SamePixels(Contents(), ShiftedUp(before, rotate));
      Update();
    }

    /** `shift_down`: every pixel moves from row `y + 1` to row `y`; the last row
        becomes dark, or takes the pixel pushed off row 0 when rotating. */
    method ShiftDown(rotate: bool)
      requires Valid()
      modifies pixels, this`shows
      ensures forall x, y :: 0 <= x < Columns && 0 <= y < LastRow ==> pixels[x, y] == old(pixels[x, y + 1])
      ensures forall x :: 0 <= x < Columns ==> pixels[x, LastRow] == (if rotate then old(pixels[x, 0]) else 0)
      ensures Contents() == ShiftedDown(old(Contents()), rotate)
      ensures shows == old(shows) + (if autoWrite then 1 else 0)
    {
      var x := 0;
      while x < Columns
        invariant 0 <= x <= Columns
        invariant forall i, j :: 0 <= i < x && 0 <= j < LastRow ==> pixels[i, j] == old(pixels[i, j + 1])
        invariant forall i :: 0 <= i < x ==> pixels[i, LastRow] == (if rotate then old(pixels[i, 0]) else 0)
        invariant forall i, j :: x <= i < Columns && 0 <= j < Rows ==> pixels[i, j] == old(pixels[i, j])
        invariant shows == old(shows)
      {
        var lastPixel := if rotate then pixels[x, 0] else 0;
        ShiftColumnDown(x, lastPixel);
        x := x + 1;
      }
      ghost var before := old(Contents());
      forall i, j | 0 <= i < Columns && 0 <= j < Rows
        ensures Contents()[i][j] == ShiftedDown(before, rotate)[i][j]
      {
        assert before[i][j] == old(pixels[i, j]);
        if j < LastRow {
          assert before[i][j + 1] == old(pixels[i, j + 1]);
        }
      }
      SamePixels(Contents(), ShiftedDown(before, rotate));
      Update();
    }
  }
}
