/**
 The undistortion loop of the image callback (src/main_test.cpp, `OnImage`).

 For every pixel of a 384 x 384 destination image, the pixel is turned into a
 ray slope, the camera model maps the slope to a coordinate in the distorted
 source image, and the destination pixel takes the source sample nearest to
 that coordinate, or the fill value 128 when the coordinate is off the image.

 The camera model (`LeapRectilinearToPixel`) is a parameter `project`. Pixel
 coordinates are reals, and `roundf` is rounding half away from zero.
 */
module Undistort {
  import opened Wrappers

  newtype byte = b: int | 0 <= b < 256

  /** Destination width and height (TEX_WIDTH, TEX_HEIGHT). */
  const Size: int := 384
  /** Field of view that scales the centred coordinate into a ray slope (MAX_FOV). */
  const MaxFov: real := 8.0
  /** Value written where the projection falls off the source image. */
  const Fill: byte := 128

  /** A coordinate pair, as far as the loop uses `LEAP_VECTOR`. */
  datatype Vector = Vector(x: real, y: real)

  // ---------------------------------------------------------------------------
  // Ray slopes

  /** Pixel coordinate `v` normalised to [0, 1), centred and scaled by the field of view. */
  function RaySlope(v: int): (r: real)
    ensures (r + MaxFov / 2.0) * (Size as real) / MaxFov == v as real
  {
    ((v as real) / (Size as real) - 0.5) * MaxFov
  }

  /** The ray slope of every pixel lies in [-4, 4). */
  lemma RaySlopeRange(v: int)
    requires 0 <= v < Size
    ensures -4.0 <= RaySlope(v) < 4.0
  {
    assert (v as real) / 384.0 < 1.0;
  }

  /** The source coordinate the camera model gives for destination pixel (row, col). */
  function Projected(project: Vector -> Vector, row: int, col: int): Vector
  {
    project(Vector(RaySlope(col), RaySlope(row)))
  }

  // ---------------------------------------------------------------------------
  // Rounding

  /** `roundf`: the nearest integer, halves rounded away from zero. */
  function Round(r: real): (n: int)
    ensures r - 0.5 <= n as real <= r + 0.5
  {
    if r >= 0.0 then (r + 0.5).Floor else -((0.5 - r).Floor)
  }

  /** `Round` is within one half of its argument, and breaks ties away from zero. */
  lemma RoundIsNearest(r: real)
    ensures r >= 0.0 ==> -0.5 < (Round(r) as real) - r <= 0.5
    ensures r < 0.0 ==> -0.5 <= (Round(r) as real) - r < 0.5
  {
  }

  /** Integers round to themselves. */
  lemma RoundOfInteger(n: int)
    ensures Round(n as real) == n
  {
  }

  /**
   A coordinate that passes the unrounded test 0 <= v < 384 rounds into
   [0, 384], and rounds to 384 exactly when it lies in [383.5, 384).
   */
  lemma RoundInsideImage(v: real)
    requires 0.0 <= v < Size as real
    ensures 0 <= Round(v) <= Size
    ensures Round(v) == Size <==> v >= 383.5
  {
  }

  // ---------------------------------------------------------------------------
  // Sampling, as the source is written

  /** The source's bounds test, on the unrounded coordinate. */
  predicate WithinUnrounded(p: Vector)
  {
    0.0 <= p.x < Size as real && 0.0 <= p.y < Size as real
  }

  /** The source index `round(y) * 384 + round(x)`. */
  function SourceIndex(p: Vector): int
  {
    Round(p.y) * Size + Round(p.x)
  }

  /**
   One destination pixel as the source computes it, for a source buffer
   `source`; `None` stands for a read past the end of the buffer, which is
   undefined in C.
   */
  function SampleAsWritten(source: seq<byte>, p: Vector): (r: Option<byte>)
    ensures !WithinUnrounded(p) ==> r == Some(Fill)
    ensures r.None? ==> WithinUnrounded(p) && |source| <= Size * Size + Size
  {
    if WithinUnrounded(p) then
      if 0 <= SourceIndex(p) < |source| then Some(source[SourceIndex(p)]) else None
    else Some(Fill)
  }

  /**
   The unrounded test lets through a y coordinate of 383.5, which rounds to
   row 384: the read lands one row past a 384 x 384 image.
   */
  lemma RowBandReadsPastImage(source: seq<byte>)
    requires |source| == Size * Size
    ensures WithinUnrounded(Vector(0.0, 383.5))
    ensures SourceIndex(Vector(0.0, 383.5)) == Size * Size
    ensures SampleAsWritten(source, Vector(0.0, 383.5)) == None
  {
    assert Round(383.5) == 384;
    assert Round(0.0) == 0;
  }

  /**
   The unrounded test lets through an x coordinate of 383.5, which rounds to
   column 384: for row 10 the read is the first pixel of row 11.
   */
  lemma ColumnBandWrapsToNextRow(source: seq<byte>)
    requires |source| >= Size * Size
    ensures WithinUnrounded(Vector(383.5, 10.0))
    ensures SourceIndex(Vector(383.5, 10.0)) == 11 * Size + 0
    ensures SampleAsWritten(source, Vector(383.5, 10.0)) == Some(source[11 * Size])
  {
    assert Round(383.5) == 384;
    assert Round(10.0) == 10;
  }

  // ---------------------------------------------------------------------------
  // Sampling, corrected

  /** The bounds test the index needs: the unrounded test and both rounded coordinates below 384. */
  predicate Within(p: Vector): (b: bool)
    ensures b ==> WithinUnrounded(p) && 0 <= SourceIndex(p) < Size * Size
  {
    WithinUnrounded(p) && Round(p.x) < Size && Round(p.y) < Size
  }

  /** A coordinate that passes the test reads a sample of a 384 x 384 image, at its rounded row and column. */
  lemma SourceIndexInImage(p: Vector)
    requires Within(p)
    ensures 0 <= Round(p.x) < Size && 0 <= Round(p.y) < Size
    ensures 0 <= SourceIndex(p) < Size * Size
    ensures SourceIndex(p) / Size == Round(p.y) && SourceIndex(p) % Size == Round(p.x)
  {
    RoundInsideImage(p.x);
    RoundInsideImage(p.y);
  }

  /** One destination pixel: the nearest source sample, or the fill value. */
  function Sample(source: seq<byte>, p: Vector): (b: byte)
    requires |source| >= Size * Size
    ensures !Within(p) ==> b == Fill
    ensures Within(p) ==>
              0 <= Round(p.x) < Size && 0 <= Round(p.y) < Size &&
              b == source[Round(p.y) * Size + Round(p.x)]
  {
    if Within(p) then
      SourceIndexInImage(p);
      source[SourceIndex(p)]
    else Fill
  }

  /**
   The corrected test differs from the source's only in the band [383.5, 384)
   of either coordinate: there, and only there, the rounded coordinate is 384.
   */
  lemma WithinDiffersOnlyInBand(p: Vector)
    ensures Within(p) ==> WithinUnrounded(p)
    ensures WithinUnrounded(p) && !Within(p) <==>
              WithinUnrounded(p) && (p.x >= 383.5 || p.y >= 383.5)
  {
    if WithinUnrounded(p) {
      RoundInsideImage(p.x);
      RoundInsideImage(p.y);
    }
  }

  /** The half-pixel band below 384 that the unrounded test admits but that rounds to 384. */
  predicate InRoundingBand(v: real)
  {
    383.5 <= v < Size as real
  }

  /** Away from that band, the source as written computes the corrected pixel. */
  lemma AsWrittenAgreesOffBand(source: seq<byte>, p: Vector)
    requires |source| >= Size * Size
    requires !InRoundingBand(p.x) && !InRoundingBand(p.y)
    ensures SampleAsWritten(source, p) == Some(Sample(source, p))
  {
    WithinDiffersOnlyInBand(p);
    if Within(p) {
      SourceIndexInImage(p);
    }
  }

  // ---------------------------------------------------------------------------
  // The whole image

  /** The destination index of pixel (row, col) is row-major, and pixels and indices correspond one to one. */
  lemma DestIndex(row: int, col: int)
    requires 0 <= row < Size && 0 <= col < Size
    ensures 0 <= row * Size + col < Size * Size
    ensures (row * Size + col) / Size == row && (row * Size + col) % Size == col
  {
  }

  /** The rectified image, in row-major order. */
  function Rectified(source: seq<byte>, project: Vector -> Vector): (r: seq<byte>)
    requires |source| >= Size * Size
    ensures |r| == Size * Size
  {
    seq(Size * Size, i requires 0 <= i < Size * Size =>
      Sample(source, Projected(project, i / Size, i % Size)))
  }

  /** Pixel (row, col) of the rectified image is the sample at that pixel's projection. */
  lemma RectifiedAt(source: seq<byte>, project: Vector -> Vector, row: int, col: int)
    requires |source| >= Size * Size
    requires 0 <= row < Size && 0 <= col < Size
    ensures Rectified(source, project)[row * Size + col] == Sample(source, Projected(project, row, col))
  {
    DestIndex(row, col);
  }

  /**
   A camera model that maps each pixel's ray back onto that very pixel yields
   a copy of the source image: no fill pixels.
   */
  lemma IdentityProjectionCopies(source: seq<byte>, project: Vector -> Vector)
    requires |source| >= Size * Size
    requires forall row, col :: 0 <= row < Size && 0 <= col < Size ==>
               Projected(project, row, col) == Vector(col as real, row as real)
    ensures Rectified(source, project) == source[..Size * Size]
  {
    forall i | 0 <= i < Size * Size
      ensures Rectified(source, project)[i] == source[i]
    {
      var row, col := i / Size, i % Size;
      RoundOfInteger(row);
      RoundOfInteger(col);
      assert Projected(project, row, col) == Vector(col as real, row as real);
      assert Within(Vector(col as real, row as real));
    }
  }

  /** A camera model that always lands off the source image yields an all-fill image. */
  lemma OffImageProjectionFills(source: seq<byte>, project: Vector -> Vector)
    requires |source| >= Size * Size
    requires forall row, col :: 0 <= row < Size && 0 <= col < Size ==>
               !WithinUnrounded(Projected(project, row, col))
    ensures forall i :: 0 <= i < Size * Size ==> Rectified(source, project)[i] == Fill
  {
    forall i | 0 <= i < Size * Size
      ensures Rectified(source, project)[i] == Fill
    {
      assert !WithinUnrounded(Projected(project, i / Size, i % Size));
    }
  }

  /**
   For a camera model that never lands in the rounding band, the image the
   source computes as written is the rectified image, pixel for pixel.
   */
  lemma AsWrittenImageAgreesOffBand(source: seq<byte>, project: Vector -> Vector)
    requires |source| >= Size * Size
    requires forall row, col :: 0 <= row < Size && 0 <= col < Size ==>
               !InRoundingBand(Projected(project, row, col).x) &&
               !InRoundingBand(Projected(project, row, col).y)
    ensures forall row, col :: 0 <= row < Size && 0 <= col < Size ==>
              SampleAsWritten(source, Projected(project, row, col)) ==
              Some(Rectified(source, project)[row * Size + col])
  {
    forall row, col | 0 <= row < Size && 0 <= col < Size
      ensures SampleAsWritten(source, Projected(project, row, col)) ==
              Some(Rectified(source, project)[row * Size + col])
    {
      AsWrittenAgreesOffBand(source, Projected(project, row, col));
      RectifiedAt(source, project, row, col);
    }
  }

  /**
   The nested row/column loop. The source buffer is only read: the method has
   no `modifies` clause. The ghost `written` records the destination index of
   each write in order: every index is written once, in row-major order.
   */
  method Undistort(source: array<byte>, project: Vector -> Vector)
    returns (dest: array<byte>, ghost written: seq<int>)
    requires source.Length >= Size * Size
    ensures fresh(dest)
    ensures dest[..] == Rectified(source[..], project)
    ensures |written| == Size * Size
    ensures forall k :: 0 <= k < |written| ==> written[k] == k
  {
    dest := new byte[Size * Size];
    written := [];
    ghost var image := Rectified(source[..], project);
    var row := 0;
    while row < Size
      invariant 0 <= row <= Size
      invariant |written| == row * Size
      invariant forall k :: 0 <= k < |written| ==> written[k] == k
      invariant dest[..row * Size] == image[..row * Size]
    {
      var col := 0;
      while col < Size
        invariant 0 <= col <= Size
        invariant |written| == row * Size + col
        invariant forall k :: 0 <= k < |written| ==> written[k] == k
        invariant dest[..row * Size + col] == image[..row * Size + col]
      {
        var input := Vector(RaySlope(col), RaySlope(row));
        var pixel := project(input);
        var dindex := row * Size + col;
        var value: byte;
        if Within(pixel) {
          value := source[SourceIndex(pixel)];
        } else {
          value := Fill;
        }
        assert value == image[dindex] by {
          RectifiedAt(source[..], project, row, col);
        }
        dest[dindex] := value;
        assert dest[..dindex + 1] == dest[..dindex] + [value];
        written := written + [dindex];
        col := col + 1;
      }
      row := row + 1;
    }
    assert dest[..] == dest[..Size * Size];
  }
}
