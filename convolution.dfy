/** ParallelMatrixOperationsExample.java: a 2-D convolution of an integer
    image with a square filter, zero-padded at the borders, computed by a
    fork/join task that fills the rows [startRow, endRow] of the result.
    The image and the filter are only read, so they are sequences here;
    the result matrix `new int[h][w]` is written in place and is an
    `array2`. The two subtasks write disjoint row ranges, so running them
    one after the other gives the result `invokeAll` gives. */
module Convolution {
  import opened JavaInt

  const THRESHOLD: int := 1000

  /** The filter is indexed `filter[i][j]` with both indices below
      `filter.length`, so every row must be at least that long. */
  predicate FilterRowsCover(filter: seq<seq<Int32>>)
  {
    forall i :: 0 <= i < |filter| ==> |filter[i]| >= |filter|
  }

  /** Whether the filter tap (i, j), centred on (row, col), falls on a pixel
      of the image. */
  predicate OnImage(image: seq<seq<Int32>>, filter: seq<seq<Int32>>, row: int, col: int, i: int, j: int)
  {
    var center := |filter| / 2;
    0 <= row + i - center < |image| && 0 <= col + j - center < |image[row + i - center]|
  }

  /** The exact contribution of tap (i, j): the pixel under it times the
      filter weight, or zero where the filter hangs over the border. */
  function Tap(image: seq<seq<Int32>>, filter: seq<seq<Int32>>, row: int, col: int, i: int, j: int): (r: int)
    requires FilterRowsCover(filter) && 0 <= i < |filter| && 0 <= j < |filter|
    ensures !OnImage(image, filter, row, col, i, j) ==> r == 0
  {
    var center := |filter| / 2;
    if OnImage(image, filter, row, col, i, j) then (image[row + i - center][col + j - center] as int) * (filter[i][j] as int) else 0
  }

  /** The exact sum of the taps (i, j), (i, j + 1), ... of filter row i. */
  function RowFrom(image: seq<seq<Int32>>, filter: seq<seq<Int32>>, row: int, col: int, i: int, j: int): int
    requires FilterRowsCover(filter) && 0 <= i < |filter| && 0 <= j <= |filter|
    decreases |filter| - j
  {
    if j == |filter| then 0 else Tap(image, filter, row, col, i, j) + RowFrom(image, filter, row, col, i, j + 1)
  }

  /** The exact sum of the filter rows i, i + 1, ... */
  function WindowFrom(image: seq<seq<Int32>>, filter: seq<seq<Int32>>, row: int, col: int, i: int): int
    requires FilterRowsCover(filter) && 0 <= i <= |filter|
    decreases |filter| - i
  {
    if i == |filter| then 0 else RowFrom(image, filter, row, col, i, 0) + WindowFrom(image, filter, row, col, i + 1)
  }

  /** The exact weighted sum of the window centred on (row, col). */
  function Window(image: seq<seq<Int32>>, filter: seq<seq<Int32>>, row: int, col: int): int
    requires FilterRowsCover(filter)
  {
    WindowFrom(image, filter, row, col, 0)
  }

  /** What is left of the exact sum once the loops stand at (i, j). */
  function Remaining(image: seq<seq<Int32>>, filter: seq<seq<Int32>>, row: int, col: int, i: int, j: int): int
    requires FilterRowsCover(filter) && 0 <= i <= |filter| && 0 <= j <= |filter|
  {
    if i == |filter| then 0 else RowFrom(image, filter, row, col, i, j) + WindowFrom(image, filter, row, col, i + 1)
  }

  /** The two loops of `applyConvolution` from (i, j) on, with the running
      `int` sum: `sum += image[rowIndex][colIndex] * filter[i][j]` for the
      taps on the image, both the product and the addition wrapping. */
  function ConvolutionFrom(image: seq<seq<Int32>>, filter: seq<seq<Int32>>, row: int, col: int,
                           i: int, j: int, sum: Int32): Int32
    requires FilterRowsCover(filter) && 0 <= i <= |filter| && 0 <= j <= |filter|
    decreases |filter| - i, |filter| - j
  {
    var center := |filter| / 2;
    if i == |filter| then sum
    else if j == |filter| then ConvolutionFrom(image, filter, row, col, i + 1, 0, sum)
    else if OnImage(image, filter, row, col, i, j) then
      ConvolutionFrom(image, filter, row, col, i, j + 1,
        Add32(sum, Mul32(image[row + i - center][col + j - center], filter[i][j])))
    else ConvolutionFrom(image, filter, row, col, i, j + 1, sum)
  }

  /** Running the loops from (i, j) with the `int` sum of `s` so far gives
      the `int` of the exact remaining sum added to `s`. */
  lemma {:induction false} ConvolutionFromExact(image: seq<seq<Int32>>, filter: seq<seq<Int32>>, row: int, col: int,
                                                i: int, j: int, s: int)
    requires FilterRowsCover(filter) && 0 <= i <= |filter| && 0 <= j <= |filter|
    ensures ConvolutionFrom(image, filter, row, col, i, j, Wrap32(s)) == Wrap32(s + Remaining(image, filter, row, col, i, j))
    decreases |filter| - i, |filter| - j
  {
    var center := |filter| / 2;
    if i == |filter| {
    } else if j == |filter| {
      ConvolutionFromExact(image, filter, row, col, i + 1, 0, s);
    } else {
      var t := Tap(image, filter, row, col, i, j);
      if OnImage(image, filter, row, col, i, j) {
        WrapAdd(s, t);
      }
      ConvolutionFromExact(image, filter, row, col, i, j + 1, s + t);
    }
  }

  /** `applyConvolution(image, filter, row, col)`: the `int` value of the
      exact weighted sum of the window centred on (row, col), where taps
      beyond the border of the image count as zero. */
  function ApplyConvolution(image: seq<seq<Int32>>, filter: seq<seq<Int32>>, row: int, col: int): (r: Int32)
    requires FilterRowsCover(filter)
    ensures r == Wrap32(Window(image, filter, row, col))
  {
    ConvolutionFromExact(image, filter, row, col, 0, 0, 0);
    ConvolutionFrom(image, filter, row, col, 0, 0, 0)
  }

  /** The result cells the subtask for rows [startRow, endRow] is responsible
      for: the columns of the image row. */
  predicate InTask(image: seq<seq<Int32>>, startRow: int, endRow: int, i: int, j: int)
  {
    startRow <= i <= endRow && 0 <= i < |image| && j < |image[i]|
  }

  /** The base case of `compute`: for each row in [startRow, endRow] and
      each column of that image row, `result[i][j] = applyConvolution(...)`.
      Every other cell of `result` keeps its value. */
  method ConvolveRows(image: seq<seq<Int32>>, filter: seq<seq<Int32>>, result: array2<Int32>, startRow: int, endRow: int)
    requires FilterRowsCover(filter)
    requires 0 <= startRow && endRow < |image| && endRow < result.Length0
    requires forall i :: startRow <= i <= endRow ==> |image[i]| <= result.Length1
    modifies result
    ensures forall i, j :: 0 <= i < result.Length0 && 0 <= j < result.Length1 ==>
      result[i, j] == if InTask(image, startRow, endRow, i, j) then ApplyConvolution(image, filter, i, j) else old(result[i, j])
  {
    var i := startRow;
    while i <= endRow
      invariant i == startRow || startRow <= i <= endRow + 1
      invariant forall r, c :: 0 <= r < result.Length0 && 0 <= c < result.Length1 ==>
        result[r, c] == if InTask(image, startRow, i - 1, r, c) then ApplyConvolution(image, filter, r, c) else old(result[r, c])
    {
      for j := 0 to |image[i]|
        invariant forall r, c :: 0 <= r < result.Length0 && 0 <= c < result.Length1 ==>
          result[r, c] == if InTask(image, startRow, i - 1, r, c) || (r == i && c < j)
                          then ApplyConvolution(image, filter, r, c) else old(result[r, c])
      {
        result[i, j] := ApplyConvolution(image, filter, i, j);
      }
      i := i + 1;
    }
    assert forall r, c :: InTask(image, startRow, i - 1, r, c) == InTask(image, startRow, endRow, r, c);
  }

  /** `ConvolutionTask(image, filter, result, startRow, endRow).compute()`:
      the cells of rows [startRow, endRow] hold the convolution, every
      other cell is untouched. Tall ranges are split at
      `(startRow + endRow) / 2` into [startRow, mid] and [mid + 1, endRow]. */
  method Compute(image: seq<seq<Int32>>, filter: seq<seq<Int32>>, result: array2<Int32>, startRow: int, endRow: int)
    requires FilterRowsCover(filter)
    requires 0 <= startRow && endRow < |image| && endRow < result.Length0
    requires forall i :: startRow <= i <= endRow ==> |image[i]| <= result.Length1
    modifies result
    ensures forall i, j :: 0 <= i < result.Length0 && 0 <= j < result.Length1 ==>
      result[i, j] == if InTask(image, startRow, endRow, i, j) then ApplyConvolution(image, filter, i, j) else old(result[i, j])
    decreases endRow - startRow
  {
    if endRow - startRow <= THRESHOLD {
      ConvolveRows(image, filter, result, startRow, endRow);
    } else {
      var mid := (startRow + endRow) / 2;
      Compute(image, filter, result, startRow, mid);
      Compute(image, filter, result, mid + 1, endRow);
    }
  }

  /** A 1 x 1 filter scales each pixel by its weight. */
  lemma SingleWeight(image: seq<seq<Int32>>, w: Int32, row: int, col: int)
    requires 0 <= row < |image| && 0 <= col < |image[row]|
    ensures ApplyConvolution(image, [[w]], row, col) == Mul32(image[row][col], w)
  {
    var filter := [[w]];
    assert Tap(image, filter, row, col, 0, 0) == image[row][col] * w;
    assert WindowFrom(image, filter, row, col, 1) == 0 && RowFrom(image, filter, row, col, 0, 1) == 0;
    assert Window(image, filter, row, col) == image[row][col] * w;
  }

  /** A 1 x 1 filter centred off the image sees nothing. */
  lemma SingleWeightOutside(image: seq<seq<Int32>>, w: Int32, row: int, col: int)
    requires !(0 <= row < |image| && 0 <= col < |image[row]|)
    ensures ApplyConvolution(image, [[w]], row, col) == 0
  {
    var filter := [[w]];
    assert !OnImage(image, filter, row, col, 0, 0);
    assert WindowFrom(image, filter, row, col, 1) == 0 && RowFrom(image, filter, row, col, 0, 1) == 0;
    assert Window(image, filter, row, col) == 0;
  }

  const MainImage: seq<seq<Int32>> := [
    [100, 100, 100, 100, 100],
    [100, 200, 200, 200, 100],
    [100, 200, 400, 200, 100],
    [100, 200, 200, 200, 100],
    [100, 100, 100, 100, 100]]

  const MainFilter: seq<seq<Int32>> := [[0, -1, 0], [-1, 5, -1], [0, -1, 0]]

  lemma MainFilterCovers(filter: seq<seq<Int32>>)
    requires filter == MainFilter
    ensures FilterRowsCover(filter)
  {
  }

  /** The sharpening filter lifts the bright centre of `main`'s image to
      5 * 400 - 4 * 200. */
  lemma MainCenter(image: seq<seq<Int32>>, filter: seq<seq<Int32>>)
    requires image == MainImage && filter == MainFilter
    ensures FilterRowsCover(filter)
    ensures ApplyConvolution(image, filter, 2, 2) == 1200
  {
    MainFilterCovers(filter);
    assert RowFrom(image, filter, 2, 2, 0, 0) == -200;
    assert RowFrom(image, filter, 2, 2, 1, 0) == 1600;
    assert RowFrom(image, filter, 2, 2, 2, 0) == -200;
  }

  /** At the corner only four taps fall on the image: 5 * 100 - 100 - 100. */
  lemma MainCorner(image: seq<seq<Int32>>, filter: seq<seq<Int32>>)
    requires image == MainImage && filter == MainFilter
    ensures FilterRowsCover(filter)
    ensures ApplyConvolution(image, filter, 0, 0) == 300
  {
    MainFilterCovers(filter);
    assert RowFrom(image, filter, 0, 0, 0, 0) == 0;
    assert RowFrom(image, filter, 0, 0, 1, 0) == 400;
    assert RowFrom(image, filter, 0, 0, 2, 0) == -100;
  }

  /** `main`: the root task covers rows [0, image.length - 1] of a fresh
      zero matrix, so every cell holds its convolution. */
  method MainExample() returns (result: array2<Int32>)
    ensures result.Length0 == 5 && result.Length1 == 5
    ensures result[2, 2] == 1200 && result[0, 0] == 300
  {
    var image := MainImage;
    var filter := MainFilter;
    MainFilterCovers(filter);
    result := new Int32[|image|, |image[0]|]((i, j) => 0);
    Compute(image, filter, result, 0, |image| - 1);
    MainCenter(image, filter);
    MainCorner(image, filter);
    assert InTask(image, 0, 4, 2, 2) && InTask(image, 0, 4, 0, 0);
  }
}
