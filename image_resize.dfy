/** ParallelImageProcessingExample.java: nearest-neighbour resizing of an
    image by a fork/join task over a rectangle [startX, endX] x [startY, endY]
    of the output, split into four quadrants while its area is large. A
    `BufferedImage` is a grid of RGB values addressed `(x, y)`, here an
    `array2<int>` whose first index is x. The four subtasks write disjoint
    rectangles, so running them one after the other gives the result
    `invokeAll` gives. */
module ImageResize {

  const THRESHOLD: int := 1000

  /** The source column (or row) for output column x:
      `(x * inputWidth) / outputWidth`. */
  function SourceIndex(x: int, inSize: int, outSize: int): (r: int)
    requires 0 <= x < outSize && 0 < inSize
    ensures 0 <= r < inSize
  {
    ScaledBelow(x, inSize, outSize);
    (x * inSize) / outSize
  }

  lemma ScaledBelow(x: int, inSize: int, outSize: int)
    requires 0 <= x < outSize && 0 < inSize
    ensures 0 <= (x * inSize) / outSize < inSize
  {
    assert 0 <= x * inSize;
    assert x * inSize < outSize * inSize by {
      assert (outSize - x) * inSize > 0;
    }
    var q := (x * inSize) / outSize;
    assert q * outSize <= x * inSize;
  }

  /** Resizing to the same size copies each pixel from its own place. */
  lemma SameSizeIsIdentity(x: int, size: int)
    requires 0 <= x < size
    ensures SourceIndex(x, size, size) == x
  {
    var q := (x * size) / size;
    var m := (x * size) % size;
    assert (x - q) * size == m;
    ZeroMultiple(x - q, size);
  }

  lemma ZeroMultiple(k: int, d: int)
    requires 0 < d && 0 <= k * d < d
    ensures k == 0
  {
    MultipleBounds(k, d);
  }

  lemma MultipleBounds(k: int, d: int)
    requires 0 < d
    ensures k >= 1 ==> k * d >= d
    ensures k <= -1 ==> k * d <= -d
  {
    if k >= 1 {
      assert k * d == (k - 1) * d + d;
    } else if k <= -1 {
      assert k * d == (k + 1) * d - d;
    }
  }

  predicate InRect(x: int, y: int, startX: int, endX: int, startY: int, endY: int)
  {
    startX <= x <= endX && startY <= y <= endY
  }

  /** The quadrants `compute` splits a rectangle into, at
      midX = (startX + endX) / 2 and midY = (startY + endY) / 2, cover it
      and do not overlap: each of its points lies in exactly one of them. */
  lemma QuadrantsPartition(startX: int, endX: int, startY: int, endY: int, x: int, y: int)
    ensures var midX, midY := (startX + endX) / 2, (startY + endY) / 2;
      var q1, q2 := InRect(x, y, startX, midX, startY, midY), InRect(x, y, startX, midX, midY + 1, endY);
      var q3, q4 := InRect(x, y, midX + 1, endX, startY, midY), InRect(x, y, midX + 1, endX, midY + 1, endY);
      (InRect(x, y, startX, endX, startY, endY) <==> q1 || q2 || q3 || q4)
      && !(q1 && q2) && !(q1 && q3) && !(q1 && q4) && !(q2 && q3) && !(q2 && q4) && !(q3 && q4)
  {
  }

  /** A rectangle too large for the threshold, with neither side of negative
      span, is at least two wide and two high, so each quadrant is strictly
      narrower and strictly lower and has no negative span either. */
  lemma SplitShrinks(startX: int, endX: int, startY: int, endY: int)
    requires startX <= endX + 1 && startY <= endY + 1
    ensures (endX - startX) * (endY - startY) > THRESHOLD ==>
      var midX, midY := (startX + endX) / 2, (startY + endY) / 2;
      startX <= midX < endX && startY <= midY < endY
  {
    FlatAreaSmall(endX - startX, endY - startY);
  }

  /** A rectangle with an empty or one-wide side is under the threshold. */
  lemma FlatAreaSmall(w: int, h: int)
    requires w >= -1 && h >= -1
    ensures (w <= 0 || h <= 0) ==> w * h <= THRESHOLD
  {
    if w == -1 {
      assert w * h == -h;
    } else if h == -1 {
      assert w * h == -w;
    } else if w == 0 || h == 0 {
      assert w * h == 0;
    }
  }

  /** What the subtask for a rectangle leaves in `output`: resized pixels
      inside it, the old value elsewhere. */
  ghost predicate Resized(input: array2<int>, output: array2<int>, startX: int, endX: int, startY: int, endY: int, x: int, y: int)
    requires 0 < input.Length0 && 0 < input.Length1
    requires 0 <= x < output.Length0 && 0 <= y < output.Length1
    reads input, output
  {
    output[x, y] == input[SourceIndex(x, input.Length0, output.Length0), SourceIndex(y, input.Length1, output.Length1)]
  }

  /** The base case: both loops, `outputImage.setRGB(x, y,
      inputImage.getRGB(sourceX, sourceY))` for every point of the
      rectangle. */
  method ResizeDirect(input: array2<int>, output: array2<int>, startX: int, endX: int, startY: int, endY: int)
    requires input != output
    requires 0 < input.Length0 && 0 < input.Length1
    requires 0 <= startX && endX < output.Length0 && 0 <= startY && endY < output.Length1
    modifies output
    ensures forall x, y :: 0 <= x < output.Length0 && 0 <= y < output.Length1 ==>
      if InRect(x, y, startX, endX, startY, endY) then Resized(input, output, startX, endX, startY, endY, x, y)
      else output[x, y] == old(output[x, y])
  {
    var x := startX;
    while x <= endX
      invariant x == startX || startX <= x <= endX + 1
      invariant forall x', y' :: 0 <= x' < output.Length0 && 0 <= y' < output.Length1 ==>
        if InRect(x', y', startX, x - 1, startY, endY) then Resized(input, output, startX, endX, startY, endY, x', y')
        else output[x', y'] == old(output[x', y'])
    {
      var y := startY;
      while y <= endY
        invariant y == startY || startY <= y <= endY + 1
        invariant forall x', y' :: 0 <= x' < output.Length0 && 0 <= y' < output.Length1 ==>
          if InRect(x', y', startX, x - 1, startY, endY) || (x' == x && startY <= y' < y)
          then Resized(input, output, startX, endX, startY, endY, x', y')
          else output[x', y'] == old(output[x', y'])
      {
        var sourceX := SourceIndex(x, input.Length0, output.Length0);
        var sourceY := SourceIndex(y, input.Length1, output.Length1);
        output[x, y] := input[sourceX, sourceY];
        y := y + 1;
      }
      x := x + 1;
    }
    assert forall x', y' :: InRect(x', y', startX, x - 1, startY, endY) == InRect(x', y', startX, endX, startY, endY);
  }

  /** `ImageResizingTask(input, output, startX, endX, startY, endY).compute()`:
      every output pixel of the rectangle holds its nearest input pixel,
      every other output pixel and the input are untouched. */
  method Compute(input: array2<int>, output: array2<int>, startX: int, endX: int, startY: int, endY: int)
    requires input != output
    requires 0 < input.Length0 && 0 < input.Length1
    requires 0 <= startX <= endX + 1 <= output.Length0 && 0 <= startY <= endY + 1 <= output.Length1
    modifies output
    ensures forall x, y :: 0 <= x < output.Length0 && 0 <= y < output.Length1 ==>
      if InRect(x, y, startX, endX, startY, endY) then Resized(input, output, startX, endX, startY, endY, x, y)
      else output[x, y] == old(output[x, y])
    decreases endX - startX + endY - startY
  {
    if (endX - startX) * (endY - startY) <= THRESHOLD {
      ResizeDirect(input, output, startX, endX, startY, endY);
    } else {
      SplitShrinks(startX, endX, startY, endY);
      var midX := (startX + endX) / 2;
      var midY := (startY + endY) / 2;
      Compute(input, output, startX, midX, startY, midY);
      Compute(input, output, startX, midX, midY + 1, endY);
      Compute(input, output, midX + 1, endX, startY, midY);
      Compute(input, output, midX + 1, endX, midY + 1, endY);
      forall x, y | 0 <= x < output.Length0 && 0 <= y < output.Length1 {
        QuadrantsPartition(startX, endX, startY, endY, x, y);
      }
    }
  }

  /** `main`'s root task covers [0, outputWidth - 1] x [0, outputHeight - 1],
      so every pixel of the output is the nearest input pixel. The input
      image is loaded from a file in the source and is a parameter here. */
  method ResizeImage(input: array2<int>, output: array2<int>)
    requires input != output
    requires 0 < input.Length0 && 0 < input.Length1
    modifies output
    ensures forall x, y :: 0 <= x < output.Length0 && 0 <= y < output.Length1 ==>
      output[x, y] == input[SourceIndex(x, input.Length0, output.Length0), SourceIndex(y, input.Length1, output.Length1)]
  {
    Compute(input, output, 0, output.Length0 - 1, 0, output.Length1 - 1);
  }

  /** `main` resizes to 800 x 600. */
  method MainExample(input: array2<int>) returns (output: array2<int>)
    requires 0 < input.Length0 && 0 < input.Length1
    ensures output.Length0 == 800 && output.Length1 == 600
    ensures forall x, y :: 0 <= x < 800 && 0 <= y < 600 ==>
      output[x, y] == input[SourceIndex(x, input.Length0, 800), SourceIndex(y, input.Length1, 600)]
  {
    output := new int[800, 600];
    ResizeImage(input, output);
  }
}
