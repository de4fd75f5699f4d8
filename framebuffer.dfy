// The frame buffer: width * height pixels of three bytes each, row after
// row, in one heap array.
module Frames {
  import opened Floats

  /** Byte c (0, 1 or 2) of pixel (x, y) in a buffer `width` pixels wide: offset (y * width + x) * 3, plus c. */
  function PixelByte(width: int, x: int, y: int, c: int): int
  {
    (y * width + x) * 3 + c
  }

  /** a * b grows with a for a non-negative b. */
  lemma MulMonotoneNat(a: int, a': int, b: int)
    requires 0 <= a <= a' && 0 <= b
    ensures a * b <= a' * b
  {
    assert (a' - a) * b >= 0;
  }

  /** Every byte of an in-range pixel lies inside the width * height * 3 buffer. */
  lemma PixelByteInBounds(width: int, height: int, x: int, y: int, c: int)
    requires 0 <= x < width && 0 <= y < height && 0 <= c < 3
    ensures 0 <= PixelByte(width, x, y, c) < width * height * 3
  {
    MulMonotoneNat(y + 1, height, width);
    assert y * width + x < (y + 1) * width;
  }

  /** A pixel on a lower row comes before every pixel on a higher row. */
  lemma RowOrder(width: int, x: int, y: int, x': int, y': int)
    requires 0 <= x < width && 0 <= x' < width && 0 <= y && 0 <= y'
    ensures y < y' ==> y * width + x < y' * width + x'
  {
    if y < y' {
      MulMonotoneNat(y + 1, y', width);
    }
  }

  /** Distinct in-range pixels, or distinct channels, occupy distinct bytes: pixels map to disjoint triples. */
  lemma PixelBytesDistinct(width: int, x: int, y: int, c: int, x': int, y': int, c': int)
    requires 0 <= x < width && 0 <= y && 0 <= c < 3
    requires 0 <= x' < width && 0 <= y' && 0 <= c' < 3
    requires PixelByte(width, x, y, c) == PixelByte(width, x', y', c')
    ensures x == x' && y == y' && c == c'
  {
    RowOrder(width, x, y, x', y');
    RowOrder(width, x', y', x, y);
  }

  class FrameBuffer {
    const width: nat
    const height: nat
    const image: array<Byte>

    ghost predicate Valid()
      reads this
    {
      image.Length == width * height * 3
    }

    /** FrameBuffer(width, height): a width * height * 3 byte buffer, cleared to black. */
    constructor(width: nat, height: nat)
      ensures this.width == width && this.height == height && Valid() && fresh(image)
      ensures forall k :: 0 <= k < image.Length ==> image[k] == 0
    {
      this.width := width;
      this.height := height;
      image := new Byte[width * height * 3](k => 0);
    }

    /** getPixelPtr(x, y): the offset of pixel (x, y)'s first byte; nothing is changed. */
    function GetPixelPtr(x: int, y: int): (offset: int)
      reads this
      requires Valid()
      ensures 0 <= x < width && 0 <= y < height ==> 0 <= offset && offset + 2 < image.Length
    {
      if 0 <= x < width && 0 <= y < height then
        PixelByteInBounds(width, height, x, y, 2);
        PixelByte(width, x, y, 0)
      else PixelByte(width, x, y, 0)
    }
  }
}
