/** Pixel buffers as the 2D canvas API exposes them: a flat array of RGBA bytes, row after
    row, four bytes per pixel.  The rest of the model reads them through `ImageOf`, which turns
    the flat layout into rows of pixels, so that no specification needs the byte arithmetic. */
module Raster {

  /** A channel value of a `Uint8ClampedArray`. */
  newtype byte = b: int | 0 <= b < 256

  /** One pixel of an RGBA image. */
  datatype Rgba = Rgba(r: byte, g: byte, b: byte, a: byte)

  /** The colour part of a pixel, as the inpainter samples it. */
  datatype Color = Color(r: byte, g: byte, b: byte)

  /** An image as rows of pixels: `img[y][x]` is the pixel in column x of row y. */
  type Img = seq<seq<Rgba>>

  /** `img` has `h` rows of `w` pixels each. */
  predicate WellFormed(img: Img, w: nat, h: nat) {
    |img| == h && forall y :: 0 <= y < h ==> |img[y]| == w
  }

  predicate InImage(w: int, h: int, x: int, y: int) {
    0 <= x < w && 0 <= y < h
  }

  /** Offset of the red byte of pixel (x, y) in a buffer whose rows are `w` pixels wide:
      the `(y * width + x) * 4` index of the canvas image data. */
  function Base(w: nat, x: int, y: int): int {
    (y * w + x) * 4
  }

  lemma MulMonotone(a: int, b: int, c: nat)
    requires a <= b
    ensures a * c <= b * c
  {
  }

  lemma BaseInBounds(w: nat, h: nat, x: int, y: int)
    requires InImage(w, h, x, y)
    ensures 0 <= Base(w, x, y) && Base(w, x, y) + 4 <= w * h * 4
  {
    MulMonotone(y + 1, h, w);
    assert y * w + x < (y + 1) * w;
  }

  /** Two different pixels of one image occupy disjoint groups of four bytes. */
  lemma BaseDisjoint(w: nat, h: nat, x1: int, y1: int, x2: int, y2: int)
    requires InImage(w, h, x1, y1) && InImage(w, h, x2, y2)
    requires x1 != x2 || y1 != y2
    ensures Base(w, x1, y1) + 4 <= Base(w, x2, y2) || Base(w, x2, y2) + 4 <= Base(w, x1, y1)
  {
    if y1 < y2 {
      MulMonotone(y1 + 1, y2, w);
      assert y1 * w + x1 < (y1 + 1) * w;
    } else if y2 < y1 {
      MulMonotone(y2 + 1, y1, w);
      assert y2 * w + x2 < (y2 + 1) * w;
    }
  }

  /** The four bytes of pixel (x, y). */
  function PixelAt(s: seq<byte>, w: nat, x: int, y: int): Rgba
    requires 0 <= Base(w, x, y) && Base(w, x, y) + 4 <= |s|
  {
    var i := Base(w, x, y);
    Rgba(s[i], s[i + 1], s[i + 2], s[i + 3])
  }

  /** Row y of a buffer of `w` by `h` pixels. */
  function RowOf(s: seq<byte>, w: nat, h: nat, y: int): (row: seq<Rgba>)
    requires |s| == w * h * 4 && 0 <= y < h
    ensures |row| == w
  {
    seq(w, x requires 0 <= x < w =>
      BaseInBounds(w, h, x, y);
      PixelAt(s, w, x, y))
  }

  /** The first n rows of a buffer of `w` by `h` pixels. */
  function RowsOf(s: seq<byte>, w: nat, h: nat, n: nat): (rows: Img)
    requires |s| == w * h * 4 && n <= h
    ensures WellFormed(rows, w, n)
  {
    if n == 0 then [] else RowsOf(s, w, h, n - 1) + [RowOf(s, w, h, n - 1)]
  }

  /** The image a byte buffer of `w` by `h` pixels holds. */
  function ImageOf(s: seq<byte>, w: nat, h: nat): (img: Img)
    requires |s| == w * h * 4
    ensures WellFormed(img, w, h)
  {
    RowsOf(s, w, h, h)
  }

  lemma {:induction false} RowsOfAt(s: seq<byte>, w: nat, h: nat, n: nat, x: int, y: int)
    requires |s| == w * h * 4 && n <= h && InImage(w, n, x, y)
    ensures 0 <= Base(w, x, y) && Base(w, x, y) + 4 <= |s|
    ensures RowsOf(s, w, h, n)[y][x] == PixelAt(s, w, x, y)
  {
    BaseInBounds(w, h, x, y);
    if y < n - 1 {
      RowsOfAt(s, w, h, n - 1, x, y);
    }
  }

  /** Pixel (x, y) of the image is the four bytes at `(y * w + x) * 4`. */
  lemma ImageOfAt(s: seq<byte>, w: nat, h: nat, x: int, y: int)
    requires |s| == w * h * 4 && InImage(w, h, x, y)
    ensures 0 <= Base(w, x, y) && Base(w, x, y) + 4 <= |s|
    ensures ImageOf(s, w, h)[y][x] == PixelAt(s, w, x, y)
  {
    RowsOfAt(s, w, h, h, x, y);
  }

  /** `img` with pixel (x, y) replaced by `p`. */
  function SetPixel(img: Img, x: nat, y: nat, p: Rgba): Img
    requires y < |img| && x < |img[y]|
  {
    img[y := img[y][x := p]]
  }

  /** Reads the four bytes of pixel (x, y) of the buffer `a`. */
  function ReadPixel(a: array<byte>, w: nat, h: nat, x: int, y: int): (p: Rgba)
    reads a
    requires a.Length == w * h * 4 && InImage(w, h, x, y)
    ensures p == ImageOf(a[..], w, h)[y][x]
  {
    ImageOfAt(a[..], w, h, x, y);
    var i := Base(w, x, y);
    Rgba(a[i], a[i + 1], a[i + 2], a[i + 3])
  }

  /** Writes the four bytes of pixel (x, y) of the buffer `a`, as the canvas code does with
      `data[index] = …; data[index + 1] = …; …`. */
  method WritePixel(a: array<byte>, w: nat, h: nat, x: int, y: int, p: Rgba)
    requires a.Length == w * h * 4 && InImage(w, h, x, y)
    modifies a
    ensures ImageOf(a[..], w, h) == SetPixel(ImageOf(old(a[..]), w, h), x, y, p)
  {
    ghost var before := a[..];
    BaseInBounds(w, h, x, y);
    var i := Base(w, x, y);
    a[i] := p.r;
    a[i + 1] := p.g;
    a[i + 2] := p.b;
    a[i + 3] := p.a;
    ghost var img, img0 := ImageOf(a[..], w, h), ImageOf(before, w, h);
    ghost var want := SetPixel(img0, x, y, p);
    forall y' | 0 <= y' < h
      ensures img[y'] == want[y']
    {
      forall x' | 0 <= x' < w
        ensures img[y'][x'] == want[y'][x']
      {
        ImageOfAt(a[..], w, h, x', y');
        ImageOfAt(before, w, h, x', y');
        if x' != x || y' != y {
          BaseDisjoint(w, h, x, y, x', y');
        }
      }
    }
  }
}
