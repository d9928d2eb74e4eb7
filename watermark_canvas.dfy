/** The canvas side of the watermark tool: an image held as a flat RGBA byte array, which
    the detector reads and the inpainter overwrites region by region.  Every method is proved
    against the functions of module WatermarkSpec, applied to the image the array holds. */
module WatermarkCanvas {
  import opened Raster
  import opened WatermarkSpec
  import opened WatermarkDetect

  /** A 2D canvas with an image drawn on it; `data` is its `getImageData(0, 0, w, h).data`. */
  class Canvas {
    const width: nat
    const height: nat
    const data: array<byte>

    predicate Valid() {
      data.Length == width * height * 4
    }

    /** The image the canvas holds, as rows of pixels. */
    ghost function Image(): Img
      reads data
      requires Valid()
    {
      ImageOf(data[..], width, height)
    }

    /** A canvas of `w` by `h` pixels with `pixels` drawn on it. */
    constructor (w: nat, h: nat, pixels: seq<byte>)
      requires |pixels| == w * h * 4
      ensures Valid() && fresh(data) && data[..] == pixels
      ensures width == w && height == h
    {
      width, height := w, h;
      data := new byte[w * h * 4](i requires 0 <= i < w * h * 4 => pixels[i]);
    }

    /** `getImageData(x, y, 1, 1)`: one pixel of the canvas. */
    function GetPixel(x: int, y: int): (p: Rgba)
      reads data
      requires Valid() && InImage(width, height, x, y)
      ensures p == Image()[y][x]
    {
      ReadPixel(data, width, height, x, y)
    }

    /** `getSurroundingColors(x, y, radius)`: the colours of the in-image pixels of the square
        of the given radius around (x, y), row by row. */
    method GetSurroundingColors(x: int, y: int, radius: nat) returns (colors: seq<Color>)
      requires Valid()
      ensures colors == Surrounding(Image(), width, height, x, y, radius)
    {
      ghost var img := Image();
      colors := [];
      var dy := -(radius as int);
      while dy <= radius
        invariant -(radius as int) <= dy <= radius + 1
        invariant colors == WindowColors(img, width, height, x, y, radius, dy + radius)
      {
        var dx := -(radius as int);
        while dx <= radius
          invariant -(radius as int) <= dx <= radius + 1
          invariant colors == WindowColors(img, width, height, x, y, radius, dy + radius) +
                              RowColors(img, width, height, x, y + dy, radius, dx + radius)
        {
          var px := x + dx;
          var py := y + dy;
          if px >= 0 && px < width && py >= 0 && py < height {
            var pixel := GetPixel(px, py);
            colors := colors + [Color(pixel.r, pixel.g, pixel.b)];
          }
          dx := dx + 1;
        }
        dy := dy + 1;
      }
    }

    /** `getImageData(region)`: a fresh buffer holding a copy of the region's pixels. */
    method GetImageData(region: Region) returns (patch: array<byte>)
      requires Valid() && RegionInBounds(region, width, height)
      ensures fresh(patch) && patch.Length == region.width * region.height * 4
      ensures forall y, x :: 0 <= y < region.height && 0 <= x < region.width ==>
        ImageOf(patch[..], region.width, region.height)[y][x] == Image()[region.y + y][region.x + x]
    {
      var rw, rh := region.width, region.height;
      patch := new byte[rw * rh * 4];
      for y := 0 to rh
        invariant forall y', x' :: 0 <= y' < y && 0 <= x' < rw ==>
          ImageOf(patch[..], rw, rh)[y'][x'] == Image()[region.y + y'][region.x + x']
      {
        CopyRow(region, patch, y);
      }
    }

    /** Copies row y of the region into row y of `patch`, leaving its other rows as they were. */
    method CopyRow(region: Region, patch: array<byte>, y: nat)
      requires Valid() && RegionInBounds(region, width, height) && y < region.height
      requires patch.Length == region.width * region.height * 4 && patch != data
      modifies patch
      ensures forall x' :: 0 <= x' < region.width ==>
        ImageOf(patch[..], region.width, region.height)[y][x'] == Image()[region.y + y][region.x + x']
      ensures forall y', x' :: 0 <= y' < region.height && y' != y && 0 <= x' < region.width ==>
        ImageOf(patch[..], region.width, region.height)[y'][x'] == ImageOf(old(patch[..]), region.width, region.height)[y'][x']
    {
      var rw, rh := region.width, region.height;
      for x := 0 to rw
        invariant forall y', x' :: 0 <= y' < rh && 0 <= x' < rw ==>
          ImageOf(patch[..], rw, rh)[y'][x'] ==
            if y' == y && x' < x then Image()[region.y + y'][region.x + x']
            else ImageOf(old(patch[..]), rw, rh)[y'][x']
      {
        var p := GetPixel(region.x + x, region.y + y);
        WritePixel(patch, rw, rh, x, y, p);
      }
    }

    /** `putImageData(patch, region.x, region.y)`: copies the patch onto the region. */
    method PutImageData(patch: array<byte>, region: Region)
      requires Valid() && RegionInBounds(region, width, height) && patch != data
      requires patch.Length == region.width * region.height * 4
      modifies data
      ensures forall y, x :: 0 <= y < height && 0 <= x < width ==>
        Image()[y][x] == if InRect(region, x, y)
                         then ImageOf(patch[..], region.width, region.height)[y - region.y][x - region.x]
                         else old(Image())[y][x]
    {
      var rw, rh := region.width, region.height;
      ghost var patchImg := ImageOf(patch[..], rw, rh);
      for y := 0 to rh
        invariant forall y', x' :: 0 <= y' < height && 0 <= x' < width ==>
          Image()[y'][x'] == if InRect(region, x', y') && y' < region.y + y
                             then patchImg[y' - region.y][x' - region.x]
                             else old(Image())[y'][x']
      {
        for x := 0 to rw
          invariant forall y', x' :: 0 <= y' < height && 0 <= x' < width ==>
            Image()[y'][x'] == if InRect(region, x', y') &&
                                  (y' < region.y + y || (y' == region.y + y && x' < region.x + x))
                               then patchImg[y' - region.y][x' - region.x]
                               else old(Image())[y'][x']
        {
          var p := ReadPixel(patch, rw, rh, x, y);
          WritePixel(data, width, height, region.x + x, region.y + y, p);
        }
      }
    }

    /** `removeWatermarkFromRegion`: every pixel of the region takes the rounded average of its
        radius-5 neighbourhood on the canvas, fully opaque.  Neighbourhoods are read from the
        canvas while the new values go to a separate copy, which is written back at the end. */
    method RemoveWatermarkFromRegion(region: Region)
      requires Valid() && RegionInBounds(region, width, height)
      modifies data
      ensures Image() == Inpaint(old(Image()), width, height, region)
    {
      ghost var img := Image();
      var patch := GetImageData(region);
      var rw, rh := region.width, region.height;
      for y := 0 to rh
        invariant data[..] == old(data[..])
        invariant forall y', x' :: 0 <= y' < rh && 0 <= x' < rw ==>
          ImageOf(patch[..], rw, rh)[y'][x'] ==
            if y' < y then FilledPixel(img, width, height, region.x + x', region.y + y')
            else img[region.y + y'][region.x + x']
      {
        for x := 0 to rw
          invariant data[..] == old(data[..])
          invariant forall y', x' :: 0 <= y' < rh && 0 <= x' < rw ==>
            ImageOf(patch[..], rw, rh)[y'][x'] ==
              if y' < y || (y' == y && x' < x) then FilledPixel(img, width, height, region.x + x', region.y + y')
              else img[region.y + y'][region.x + x']
        {
          var surroundingColors := GetSurroundingColors(region.x + x, region.y + y, Radius);
          if |surroundingColors| > 0 {
            var avgColor := AverageColors(surroundingColors);
            WritePixel(patch, rw, rh, x, y, Rgba(avgColor.r, avgColor.g, avgColor.b, 255));
          }
        }
      }
      PutImageData(patch, region);
      ghost var want := Inpaint(img, width, height, region);
      forall y | 0 <= y < height
        ensures Image()[y] == want[y]
      {
      }
    }

    /** `removeWatermarks`: the regions in list order, each on the result of the previous
        ones; an empty list leaves every byte as it was. */
    method RemoveWatermarks(regions: seq<Region>)
      requires Valid()
      requires forall i :: 0 <= i < |regions| ==> RegionInBounds(regions[i], width, height)
      modifies data
      ensures Image() == RemoveAll(old(Image()), width, height, regions)
      ensures regions == [] ==> data[..] == old(data[..])
    {
      for i := 0 to |regions|
        invariant Image() == RemoveAll(old(Image()), width, height, regions[..i])
        invariant i == 0 ==> data[..] == old(data[..])
      {
        RemoveWatermarkFromRegion(regions[i]);
        assert regions[..i + 1][..i] == regions[..i];
      }
      assert regions[..|regions|] == regions;
    }

    /** `processImage`: detect on the drawn image, then remove what was found. */
    method ProcessImage() returns (regions: seq<Region>)
      requires Valid() && LargeEnough(width, height)
      modifies data
      ensures regions == Detect(old(Image()), width, height)
      ensures Image() == RemoveAll(old(Image()), width, height, regions)
    {
      regions := DetectWatermarks(data[..], width, height);
      forall i | 0 <= i < |regions|
        ensures RegionInBounds(regions[i], width, height)
      {
        assert regions[i] in regions;
      }
      RemoveWatermarks(regions);
    }
  }
}
