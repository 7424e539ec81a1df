/**
  The image processor's pixel work: the per-pixel filter pass over canvas
  RGBA data (four bytes per pixel, alpha last) and the canvas size chosen
  for a rotation. The weighted sums of grayscale and sepia are floating-point
  arithmetic and are kept abstract as a `Shading`; storing into the canvas
  array clamps to 0..255, which is modelled.
 */
module ImageProcessor {

  datatype ImageFilter = Grayscale | Sepia | Invert

  /** The weighted sums of the grayscale and sepia cases, each of (r, g, b), already
      rounded as the canvas stores them but not yet clamped. */
  datatype Shading = Shading(
    gray: (int, int, int) -> int,
    sepiaRed: (int, int, int) -> int,
    sepiaGreen: (int, int, int) -> int,
    sepiaBlue: (int, int, int) -> int)

  predicate IsByte(x: int) {
    0 <= x <= 255
  }

  predicate IsByteSeq(data: seq<int>) {
    forall k :: 0 <= k < |data| ==> IsByte(data[k])
  }

  /** A store into a `Uint8ClampedArray`. */
  function Clamp(x: int): (r: int)
    ensures IsByte(r)
    ensures IsByte(x) ==> r == x
  {
    if x < 0 then 0 else if x > 255 then 255 else x
  }

  /** The value written to channel `c` (0 red, 1 green, 2 blue) of a pixel with colour (r, g, b). */
  function Channel(filter: ImageFilter, sh: Shading, r: int, g: int, b: int, c: int): (v: int)
    requires 0 <= c < 3
    ensures IsByte(v)
  {
    match filter
    case Grayscale => Clamp(sh.gray(r, g, b))
    case Sepia =>
      Clamp(if c == 0 then sh.sepiaRed(r, g, b) else if c == 1 then sh.sepiaGreen(r, g, b) else sh.sepiaBlue(r, g, b))
    case Invert => Clamp(255 - (if c == 0 then r else if c == 1 then g else b))
  }

  /** The byte at position `k` after the pass: colour channels are rewritten from their
      own pixel's original colour, alpha (every fourth byte) is left alone. */
  function FilteredAt(data: seq<int>, filter: ImageFilter, sh: Shading, k: int): int
    requires |data| % 4 == 0 && 0 <= k < |data|
  {
    var p := k - k % 4;
    if k % 4 == 3 then data[k] else Channel(filter, sh, data[p], data[p + 1], data[p + 2], k % 4)
  }

  /** The whole pass as a value. */
  function Filtered(data: seq<int>, filter: ImageFilter, sh: Shading): (r: seq<int>)
    requires |data| % 4 == 0
    ensures |r| == |data|
    ensures forall k :: 0 <= k < |data| ==> r[k] == FilteredAt(data, filter, sh, k)
  {
    seq(|data|, k requires 0 <= k < |data| => FilteredAt(data, filter, sh, k))
  }

  /** The four bytes of the pixel at i after the pass. */
  lemma PixelFiltered(data: seq<int>, filter: ImageFilter, sh: Shading, i: int)
    requires |data| % 4 == 0 && 0 <= i && i % 4 == 0 && i + 3 < |data|
    ensures FilteredAt(data, filter, sh, i) == Channel(filter, sh, data[i], data[i + 1], data[i + 2], 0)
    ensures FilteredAt(data, filter, sh, i + 1) == Channel(filter, sh, data[i], data[i + 1], data[i + 2], 1)
    ensures FilteredAt(data, filter, sh, i + 2) == Channel(filter, sh, data[i], data[i + 1], data[i + 2], 2)
    ensures FilteredAt(data, filter, sh, i + 3) == data[i + 3]
  {
    assert (i + 1) % 4 == 1 && (i + 2) % 4 == 2 && (i + 3) % 4 == 3;
  }

  /** `applyFilter`'s loop over the pixel data, four bytes at a time. */
  method ApplyFilter(data: seq<int>, filter: ImageFilter, sh: Shading) returns (out: seq<int>)
    requires |data| % 4 == 0
    ensures out == Filtered(data, filter, sh)
    ensures forall k :: 0 <= k < |data| && k % 4 == 3 ==> out[k] == data[k]
  {
    out := data;
    var i := 0;
    while i < |data|
      invariant 0 <= i <= |data| && i % 4 == 0
      invariant |out| == |data|
      invariant forall k :: 0 <= k < i ==> out[k] == FilteredAt(data, filter, sh, k)
      invariant forall k :: i <= k < |data| ==> out[k] == data[k]
    {
      var r, g, b := out[i], out[i + 1], out[i + 2];
      out := out[i := Channel(filter, sh, r, g, b, 0)];
      out := out[i + 1 := Channel(filter, sh, r, g, b, 1)];
      out := out[i + 2 := Channel(filter, sh, r, g, b, 2)];
      PixelFiltered(data, filter, sh, i);
      i := i + 4;
    }
  }

  /** No filter writes the alpha byte. */
  lemma FilterKeepsAlpha(data: seq<int>, filter: ImageFilter, sh: Shading, k: int)
    requires |data| % 4 == 0 && 0 <= k < |data| && k % 4 == 3
    ensures Filtered(data, filter, sh)[k] == data[k]
  {
  }

  /** The pass leaves canvas data as canvas data. */
  lemma FilteredIsBytes(data: seq<int>, filter: ImageFilter, sh: Shading)
    requires |data| % 4 == 0 && IsByteSeq(data)
    ensures IsByteSeq(Filtered(data, filter, sh))
  {
  }

  /** Invert maps every colour byte b to 255 - b. */
  lemma InvertComplements(data: seq<int>, sh: Shading, k: int)
    requires |data| % 4 == 0 && IsByteSeq(data) && 0 <= k < |data| && k % 4 != 3
    ensures Filtered(data, Invert, sh)[k] == 255 - data[k]
  {
    var p := k - k % 4;
    assert k == p + k % 4;
  }

  /** Inverting twice gives back the original data. */
  lemma InvertTwice(data: seq<int>, sh: Shading)
    requires |data| % 4 == 0 && IsByteSeq(data)
    ensures Filtered(Filtered(data, Invert, sh), Invert, sh) == data
  {
    var once := Filtered(data, Invert, sh);
    var twice := Filtered(once, Invert, sh);
    forall k | 0 <= k < |data|
      ensures twice[k] == data[k]
    {
      if k % 4 != 3 {
        InvertComplements(data, sh, k);
        FilteredIsBytes(data, Invert, sh);
        InvertComplements(once, sh, k);
      }
    }
  }

  /** Grayscale writes one common value to the three colour bytes of each pixel. */
  lemma GrayscaleIsUniform(data: seq<int>, sh: Shading, p: int)
    requires |data| % 4 == 0 && 0 <= p && 4 * p + 3 < |data|
    ensures var r := Filtered(data, Grayscale, sh);
      r[4 * p] == r[4 * p + 1] == r[4 * p + 2] == Clamp(sh.gray(data[4 * p], data[4 * p + 1], data[4 * p + 2]))
  {
    assert (4 * p) % 4 == 0 && (4 * p + 1) % 4 == 1 && (4 * p + 2) % 4 == 2;
  }

  datatype RotationAngle = Deg90 | Deg180 | Deg270

  /** The rotation canvas: a quarter turn either way swaps width and height, a half turn keeps them. */
  function CanvasSize(width: int, height: int, angle: RotationAngle): (r: (int, int))
    ensures angle != Deg180 ==> r == (height, width)
    ensures angle == Deg180 ==> r == (width, height)
  {
    match angle
    case Deg90 => (height, width)
    case Deg270 => (height, width)
    case Deg180 => (width, height)
  }

  /** The rotated canvas holds as many pixels as the image, and two quarter turns restore its shape. */
  lemma CanvasSizeTurns(width: int, height: int, a: RotationAngle, b: RotationAngle)
    ensures CanvasSize(width, height, a).0 * CanvasSize(width, height, a).1 == width * height
    ensures a != Deg180 && b != Deg180 ==>
      var first := CanvasSize(width, height, a);
      CanvasSize(first.0, first.1, b) == (width, height)
  {
  }
}
