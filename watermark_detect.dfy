/** The detection half of the watermark tool as it runs on a pixel snapshot: `analyzeRegion`
    reads the `Uint8ClampedArray` that `getImageData` returned, which nothing else writes, so
    the snapshot is a value here.  Each method is proved against module WatermarkSpec. */
module WatermarkDetect {
  import opened Raster
  import opened WatermarkSpec

  /** The three tests `analyzeRegion` applies to pixel (x, y): it reads the four bytes at
      `(y * imgWidth + x) * 4` and, away from the last column and row, the red byte of the
      right and of the lower neighbour. */
  method ClassifyPixel(data: seq<byte>, imgWidth: nat, imgHeight: nat, x: int, y: int)
    returns (transparent: bool, grey: bool, textLike: bool)
    requires |data| == imgWidth * imgHeight * 4 && InImage(imgWidth, imgHeight, x, y)
    ensures transparent == IsTransparent(ImageOf(data, imgWidth, imgHeight)[y][x])
    ensures grey == IsGrey(ImageOf(data, imgWidth, imgHeight)[y][x])
    ensures textLike == IsTextLike(ImageOf(data, imgWidth, imgHeight), imgWidth, imgHeight, x, y)
  {
    BaseInBounds(imgWidth, imgHeight, x, y);
    var index := Base(imgWidth, x, y);
    var r, g, b, a := data[index], data[index + 1], data[index + 2], data[index + 3];
    ImageOfAt(data, imgWidth, imgHeight, x, y);
    transparent := a < 255;
    grey := Abs(r as int - g as int) < 10 && Abs(g as int - b as int) < 10 && Abs(r as int - b as int) < 10;
    textLike := false;
    if x < imgWidth - 1 && y < imgHeight - 1 {
      BaseInBounds(imgWidth, imgHeight, x + 1, y);
      BaseInBounds(imgWidth, imgHeight, x, y + 1);
      var nextIndex := Base(imgWidth, x + 1, y);
      var belowIndex := Base(imgWidth, x, y + 1);
      ImageOfAt(data, imgWidth, imgHeight, x + 1, y);
      ImageOfAt(data, imgWidth, imgHeight, x, y + 1);
      var edgeStrength := Abs(r as int - data[nextIndex] as int) + Abs(r as int - data[belowIndex] as int);
      textLike := edgeStrength > 100;
    }
  }

  /** The pixels of row y in columns [xStart, xEnd), counted as the inner loop of
      `analyzeRegion` does. */
  method ScanRow(data: seq<byte>, imgWidth: nat, imgHeight: nat, y: int, xStart: int, xEnd: int)
    returns (st: Stats)
    requires |data| == imgWidth * imgHeight * 4
    requires 0 <= y < imgHeight && 0 <= xStart <= xEnd <= imgWidth
    ensures st == RowStats(ImageOf(data, imgWidth, imgHeight), imgWidth, imgHeight, y, xStart, xEnd - xStart)
  {
    ghost var img := ImageOf(data, imgWidth, imgHeight);
    var totalPixels, transparentPixels, greyPixels, textLikePixels := 0, 0, 0, 0;
    var x := xStart;
    while x < xEnd
      invariant xStart <= x <= xEnd
      invariant Stats(totalPixels, transparentPixels, greyPixels, textLikePixels) ==
                RowStats(img, imgWidth, imgHeight, y, xStart, x - xStart)
    {
      var transparent, grey, textLike := ClassifyPixel(data, imgWidth, imgHeight, x, y);
      totalPixels := totalPixels + 1;
      if transparent {
        transparentPixels := transparentPixels + 1;
      }
      if grey {
        greyPixels := greyPixels + 1;
      }
      if textLike {
        textLikePixels := textLikePixels + 1;
      }
      RowStatsStep(img, imgWidth, imgHeight, y, xStart, x - xStart);
      x := x + 1;
    }
    st := Stats(totalPixels, transparentPixels, greyPixels, textLikePixels);
  }

  /** The two loops of `analyzeRegion`: the rows of the probe clipped to the image, each
      scanned over the clipped columns, their statistics added up. */
  method ScanRect(data: seq<byte>, imgWidth: nat, imgHeight: nat, region: Rect) returns (stats: Stats)
    requires |data| == imgWidth * imgHeight * 4 && ProbeFits(region, imgWidth, imgHeight)
    ensures stats == RegionStats(ImageOf(data, imgWidth, imgHeight), imgWidth, imgHeight, region)
  {
    ghost var img := ImageOf(data, imgWidth, imgHeight);
    stats := Stats(0, 0, 0, 0);
    var yEnd := Min(region.y + region.height, imgHeight);
    var xEnd := Min(region.x + region.width, imgWidth);
    var y := region.y;
    while y < yEnd
      invariant region.y <= y <= yEnd
      invariant stats == RectStats(img, imgWidth, imgHeight, region.x, xEnd - region.x, region.y, y - region.y)
    {
      var row := ScanRow(data, imgWidth, imgHeight, y, region.x, xEnd);
      RectStatsStep(img, imgWidth, imgHeight, region.x, xEnd - region.x, region.y, y - region.y);
      stats := Plus(stats, row);
      y := y + 1;
    }
  }

  /** The scoring step of `analyzeRegion`: the three ratios weighted 0.3, 0.4 and 0.3, the
      corner bonus, and the cap at 1. */
  method Score(stats: Stats, region: Rect, imgWidth: nat, imgHeight: nat) returns (confidence: real)
    requires stats.total > 0
    ensures confidence == Confidence(stats, region, imgWidth, imgHeight)
  {
    WeightedRatios(stats);
    var n := stats.total as real;
    var transparencyRatio := stats.transparent as real / n;
    var grayRatio := stats.grey as real / n;
    var textRatio := stats.textLike as real / n;
    confidence := 0.0;
    confidence := confidence + transparencyRatio * 0.3;
    confidence := confidence + grayRatio * 0.4;
    confidence := confidence + textRatio * 0.3;
    if CornerBonus(region, imgWidth, imgHeight) {
      confidence := confidence + 0.2;
    }
    confidence := if confidence < 1.0 then confidence else 1.0;
  }

  /** `analyzeRegion`: the statistics of the probe clipped to the image, row by row, then its
      score.  The returned rectangle is the probe itself, not its clipped part. */
  method AnalyzeRegion(data: seq<byte>, imgWidth: nat, imgHeight: nat, region: Rect) returns (r: Region)
    requires |data| == imgWidth * imgHeight * 4 && ProbeFits(region, imgWidth, imgHeight)
    ensures r == Analyze(ImageOf(data, imgWidth, imgHeight), imgWidth, imgHeight, region)
    ensures RectOf(r) == region && 0.0 <= r.confidence <= 1.0
  {
    ghost var img := ImageOf(data, imgWidth, imgHeight);
    var stats := ScanRect(data, imgWidth, imgHeight, region);
    RegionStatsBounds(img, imgWidth, imgHeight, region);
    var confidence := Score(stats, region, imgWidth, imgHeight);
    r := Region(region.x, region.y, region.width, region.height, confidence);
    AnalyzeProperties(img, imgWidth, imgHeight, region);
  }

  /** `detectWatermarks`: scores the four corner probes of the drawn image in order and keeps
      those whose confidence exceeds 0.7. */
  method DetectWatermarks(data: seq<byte>, imgWidth: nat, imgHeight: nat) returns (regions: seq<Region>)
    requires |data| == imgWidth * imgHeight * 4 && LargeEnough(imgWidth, imgHeight)
    ensures regions == Detect(ImageOf(data, imgWidth, imgHeight), imgWidth, imgHeight)
    ensures |regions| <= 4
    ensures forall r :: r in regions ==> r.width == 80 && r.height == 60 && r.confidence > 0.7 &&
                                         ScoredProbe(r, imgWidth, imgHeight)
  {
    ghost var img := ImageOf(data, imgWidth, imgHeight);
    ghost var scored := Scored(img, imgWidth, imgHeight);
    var commonPositions := Probes(imgWidth, imgHeight);
    regions := [];
    for i := 0 to 4
      invariant regions == KeepConfident(scored[..i])
    {
      var region := AnalyzeRegion(data, imgWidth, imgHeight, commonPositions[i]);
      ScoredAt(img, imgWidth, imgHeight, i);
      KeepConfidentSnoc(scored, i);
      if region.confidence > 0.7 {
        regions := regions + [region];
      }
    }
    assert scored[..4] == scored;
    DetectProperties(img, imgWidth, imgHeight);
  }
}
