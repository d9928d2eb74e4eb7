/** What the watermark tool computes, stated on images as rows of pixels: the statistics and
    confidence score of a probe rectangle, the four-corner detector, the neighbourhood sampled
    for a pixel, the rounded colour average, and the region fill.  The canvas methods in
    module WatermarkCanvas are proved against these functions. */
module WatermarkSpec {
  import opened Raster

  /** A rectangle to probe, as the detector writes it down (not clipped to the image). */
  datatype Rect = Rect(x: int, y: int, width: int, height: int)

  /** A detected watermark region: a rectangle and its confidence score. */
  datatype Region = Region(x: int, y: int, width: int, height: int, confidence: real)

  function RectOf(r: Region): Rect {
    Rect(r.x, r.y, r.width, r.height)
  }

  function Abs(v: int): nat {
    if v < 0 then -v else v
  }

  function Min(a: int, b: int): int {
    if a < b then a else b
  }

  // ---------------------------------------------------------------------------------------
  // Pixel classification

  predicate Near(a: int, b: int) {
    -10 < a - b < 10
  }

  /** |d1| + |d2| > 100, written without absolute values. */
  predicate StrongEdge(d1: int, d2: int) {
    d1 + d2 > 100 || d1 - d2 > 100 || d2 - d1 > 100 || -d1 - d2 > 100
  }

  /** Alpha below full opacity. */
  predicate IsTransparent(p: Rgba) {
    p.a < 255
  }

  /** The three colour channels lie pairwise within 10 of each other. */
  predicate IsGrey(p: Rgba) {
    Near(p.r as int, p.g as int) && Near(p.g as int, p.b as int) && Near(p.r as int, p.b as int)
  }

  /** High contrast of the red channel against the right and lower neighbours.  The test is
      skipped in the last column and the last row of the image (not of the probe). */
  predicate IsTextLike(img: Img, w: nat, h: nat, x: int, y: int)
    requires WellFormed(img, w, h) && InImage(w, h, x, y)
  {
    x < w - 1 && y < h - 1 &&
    StrongEdge(img[y][x].r as int - img[y][x + 1].r as int, img[y][x].r as int - img[y + 1][x].r as int)
  }

  // ---------------------------------------------------------------------------------------
  // Region statistics and confidence

  /** The pixel statistics the analysis accumulates: the four counters of `analyzeRegion`. */
  datatype Stats = Stats(total: int, transparent: int, grey: int, textLike: int)

  function Plus(a: Stats, b: Stats): Stats {
    Stats(a.total + b.total, a.transparent + b.transparent, a.grey + b.grey, a.textLike + b.textLike)
  }

  function Indicator(b: bool): int {
    if b then 1 else 0
  }

  /** What pixel (x, y) adds to the statistics. */
  function PixelStats(img: Img, w: nat, h: nat, x: int, y: int): Stats
    requires WellFormed(img, w, h) && InImage(w, h, x, y)
  {
    Stats(1, Indicator(IsTransparent(img[y][x])), Indicator(IsGrey(img[y][x])),
          Indicator(IsTextLike(img, w, h, x, y)))
  }

  /** The statistics of the n pixels of row y from column x0 on. */
  function RowStats(img: Img, w: nat, h: nat, y: int, x0: int, n: nat): Stats
    requires WellFormed(img, w, h) && 0 <= y < h && 0 <= x0 && x0 + n <= w
  {
    if n == 0 then Stats(0, 0, 0, 0)
    else Plus(RowStats(img, w, h, y, x0, n - 1), PixelStats(img, w, h, x0 + n - 1, y))
  }

  /** The statistics of the m rows from row y0 on, each of n pixels from column x0 on. */
  function RectStats(img: Img, w: nat, h: nat, x0: int, n: nat, y0: int, m: nat): Stats
    requires WellFormed(img, w, h) && 0 <= x0 && x0 + n <= w && 0 <= y0 && y0 + m <= h
  {
    if m == 0 then Stats(0, 0, 0, 0)
    else Plus(RectStats(img, w, h, x0, n, y0, m - 1), RowStats(img, w, h, y0 + m - 1, x0, n))
  }

  /** One more pixel at the end of a row segment. */
  lemma RowStatsStep(img: Img, w: nat, h: nat, y: int, x0: int, n: nat)
    requires WellFormed(img, w, h) && 0 <= y < h && 0 <= x0 && x0 + n < w
    ensures RowStats(img, w, h, y, x0, n + 1) == Plus(RowStats(img, w, h, y, x0, n), PixelStats(img, w, h, x0 + n, y))
  {
  }

  /** One more row at the bottom of a rectangle. */
  lemma RectStatsStep(img: Img, w: nat, h: nat, x0: int, n: nat, y0: int, m: nat)
    requires WellFormed(img, w, h) && 0 <= x0 && x0 + n <= w && 0 <= y0 && y0 + m < h
    ensures RectStats(img, w, h, x0, n, y0, m + 1) ==
            Plus(RectStats(img, w, h, x0, n, y0, m), RowStats(img, w, h, y0 + m, x0, n))
  {
  }

  /** Each feature count lies between zero and the number of pixels. */
  predicate Bounded(st: Stats) {
    0 <= st.transparent <= st.total && 0 <= st.grey <= st.total && 0 <= st.textLike <= st.total
  }

  /** A row segment counts each of its pixels once. */
  lemma {:induction false} RowStatsBounds(img: Img, w: nat, h: nat, y: int, x0: int, n: nat)
    requires WellFormed(img, w, h) && 0 <= y < h && 0 <= x0 && x0 + n <= w
    ensures RowStats(img, w, h, y, x0, n).total == n
    ensures Bounded(RowStats(img, w, h, y, x0, n))
  {
    if n > 0 {
      RowStatsBounds(img, w, h, y, x0, n - 1);
    }
  }

  /** A rectangle counts each of its pixels once. */
  lemma {:induction false} RectStatsBounds(img: Img, w: nat, h: nat, x0: int, n: nat, y0: int, m: nat)
    requires WellFormed(img, w, h) && 0 <= x0 && x0 + n <= w && 0 <= y0 && y0 + m <= h
    ensures RectStats(img, w, h, x0, n, y0, m).total == n * m
    ensures Bounded(RectStats(img, w, h, x0, n, y0, m))
  {
    if m > 0 {
      RectStatsBounds(img, w, h, x0, n, y0, m - 1);
      RowStatsBounds(img, w, h, y0 + m - 1, x0, n);
      assert n * m == n * (m - 1) + n;
    }
  }

  /** The probe starts inside the image and is not empty, so its clipped part holds a pixel. */
  predicate ProbeFits(probe: Rect, w: nat, h: nat) {
    0 <= probe.x < w && 0 <= probe.y < h && probe.width > 0 && probe.height > 0
  }

  /** The number of columns of the probe inside the image: up to min(x + width, w). */
  function ClippedWidth(probe: Rect, w: nat): (n: nat)
    requires 0 <= probe.x < w && probe.width > 0
    ensures 1 <= n <= probe.width && probe.x + n <= w
  {
    Min(probe.x + probe.width, w) - probe.x
  }

  /** The number of rows of the probe inside the image: up to min(y + height, h). */
  function ClippedHeight(probe: Rect, h: nat): (m: nat)
    requires 0 <= probe.y < h && probe.height > 0
    ensures 1 <= m <= probe.height && probe.y + m <= h
  {
    Min(probe.y + probe.height, h) - probe.y
  }

  /** The statistics of the probe clipped to the image. */
  function RegionStats(img: Img, w: nat, h: nat, probe: Rect): Stats
    requires WellFormed(img, w, h) && ProbeFits(probe, w, h)
  {
    RectStats(img, w, h, probe.x, ClippedWidth(probe, w), probe.y, ClippedHeight(probe, h))
  }

  /** Every pixel of the clipped probe is counted once in `total`, so it is positive, and each
      feature count is at most `total`. */
  lemma RegionStatsBounds(img: Img, w: nat, h: nat, probe: Rect)
    requires WellFormed(img, w, h) && ProbeFits(probe, w, h)
    ensures RegionStats(img, w, h, probe).total == ClippedWidth(probe, w) * ClippedHeight(probe, h) > 0
    ensures Bounded(RegionStats(img, w, h, probe))
  {
    var n, m := ClippedWidth(probe, w), ClippedHeight(probe, h);
    RectStatsBounds(img, w, h, probe.x, n, probe.y, m);
    MulMonotone(1, n, m);
  }

  /** The corner bonus: the probe reaches past 80% of the width and of the height, or starts
      within the left 20% and reaches past 80% of the height. */
  predicate CornerBonus(probe: Rect, w: nat, h: nat) {
    ((probe.x + probe.width) as real > w as real * 0.8 && (probe.y + probe.height) as real > h as real * 0.8) ||
    (probe.x as real < w as real * 0.2 && (probe.y + probe.height) as real > h as real * 0.8)
  }

  /** The weighted feature count, in tenths: 3 per transparent, 4 per grey and 3 per
      text-like pixel. */
  function WeightedCount(st: Stats): int {
    3 * st.transparent + 4 * st.grey + 3 * st.textLike
  }

  /** 0.3 of the transparent ratio, 0.4 of the grey ratio and 0.3 of the text-like ratio,
      that is the weighted count over ten times the total, plus 0.2 in a corner, capped at 1. */
  function Confidence(st: Stats, probe: Rect, w: nat, h: nat): real
    requires st.total > 0
  {
    var c := WeightedCount(st) as real / (10 * st.total) as real + (if CornerBonus(probe, w, h) then 0.2 else 0.0);
    if c < 1.0 then c else 1.0
  }

  /** The sum of the three weighted ratios, as `analyzeRegion` accumulates it, is the weighted
      count over ten times the total. */
  lemma WeightedRatios(st: Stats)
    requires st.total > 0
    ensures 0.0 + st.transparent as real / st.total as real * 0.3 + st.grey as real / st.total as real * 0.4 +
            st.textLike as real / st.total as real * 0.3 == WeightedCount(st) as real / (10 * st.total) as real
  {
    var n := st.total as real;
    calc {
      st.transparent as real / n * 0.3 + st.grey as real / n * 0.4 + st.textLike as real / n * 0.3;
      (3 * st.transparent + 4 * st.grey + 3 * st.textLike) as real / n / 10.0;
      WeightedCount(st) as real / (10.0 * n);
    }
  }

  /** With counts that do not exceed the total, the score lies in [0, 1]. */
  lemma ConfidenceInUnitInterval(st: Stats, probe: Rect, w: nat, h: nat)
    requires st.total > 0 && Bounded(st)
    ensures 0.0 <= Confidence(st, probe, w, h) <= 1.0
  {
    var q := WeightedCount(st) as real / (10 * st.total) as real;
    assert q * (10 * st.total) as real == WeightedCount(st) as real;
    assert 0.0 <= q;
  }

  /** More transparent, grey or text-like pixels never lower the score. */
  lemma ConfidenceMonotone(st1: Stats, st2: Stats, probe: Rect, w: nat, h: nat)
    requires st1.total == st2.total > 0
    requires st1.transparent <= st2.transparent && st1.grey <= st2.grey && st1.textLike <= st2.textLike
    ensures Confidence(st1, probe, w, h) <= Confidence(st2, probe, w, h)
  {
    var d := (10 * st1.total) as real;
    var q1, q2 := WeightedCount(st1) as real / d, WeightedCount(st2) as real / d;
    assert q1 * d == WeightedCount(st1) as real && q2 * d == WeightedCount(st2) as real;
    assert q1 <= q2;
  }

  /** The result of analysing one probe: its own rectangle, unclipped, and the score of the
      pixels it covers inside the image. */
  function Analyze(img: Img, w: nat, h: nat, probe: Rect): (r: Region)
    requires WellFormed(img, w, h) && ProbeFits(probe, w, h)
  {
    RegionStatsBounds(img, w, h, probe);
    var st := RegionStats(img, w, h, probe);
    Region(probe.x, probe.y, probe.width, probe.height, Confidence(st, probe, w, h))
  }

  lemma AnalyzeProperties(img: Img, w: nat, h: nat, probe: Rect)
    requires WellFormed(img, w, h) && ProbeFits(probe, w, h)
    ensures RectOf(Analyze(img, w, h, probe)) == probe
    ensures 0.0 <= Analyze(img, w, h, probe).confidence <= 1.0
  {
    RegionStatsBounds(img, w, h, probe);
    ConfidenceInUnitInterval(RegionStats(img, w, h, probe), probe, w, h);
  }

  // ---------------------------------------------------------------------------------------
  // Detection

  const ProbeWidth := 80
  const ProbeHeight := 60

  /** Images at least as large as one probe. */
  predicate LargeEnough(w: nat, h: nat) {
    w >= ProbeWidth && h >= ProbeHeight
  }

  /** The four probes, in scan order: bottom-right, bottom-left, top-right, top-left. */
  function Probes(w: nat, h: nat): seq<Rect> {
    [Rect(w - ProbeWidth, h - ProbeHeight, ProbeWidth, ProbeHeight),
     Rect(0, h - ProbeHeight, ProbeWidth, ProbeHeight),
     Rect(w - ProbeWidth, 0, ProbeWidth, ProbeHeight),
     Rect(0, 0, ProbeWidth, ProbeHeight)]
  }

  /** The regions of `rs` whose confidence exceeds 0.7, in their order. */
  function KeepConfident(rs: seq<Region>): seq<Region> {
    if rs == [] then []
    else KeepConfident(rs[..|rs| - 1]) + (if rs[|rs| - 1].confidence > 0.7 then [rs[|rs| - 1]] else [])
  }

  lemma {:induction false} KeepConfidentProperties(rs: seq<Region>)
    ensures |KeepConfident(rs)| <= |rs|
    ensures forall r :: r in KeepConfident(rs) <==> r in rs && r.confidence > 0.7
  {
    if rs != [] {
      var init := rs[..|rs| - 1];
      KeepConfidentProperties(init);
      assert rs == init + [rs[|rs| - 1]];
    }
  }

  /** Filtering one more region appends it exactly when it is confident. */
  lemma KeepConfidentSnoc(rs: seq<Region>, i: nat)
    requires i < |rs|
    ensures KeepConfident(rs[..i + 1]) ==
            KeepConfident(rs[..i]) + (if rs[i].confidence > 0.7 then [rs[i]] else [])
  {
    assert rs[..i + 1][..i] == rs[..i];
  }

  /** The analysis of each probe, in probe order. */
  function Scored(img: Img, w: nat, h: nat): (rs: seq<Region>)
    requires WellFormed(img, w, h) && LargeEnough(w, h)
  {
    seq(4, i requires 0 <= i < 4 => Analyze(img, w, h, Probes(w, h)[i]))
  }

  /** What `detectWatermarks` returns. */
  function Detect(img: Img, w: nat, h: nat): seq<Region>
    requires WellFormed(img, w, h) && LargeEnough(w, h)
  {
    KeepConfident(Scored(img, w, h))
  }

  /** A region lies inside the image. */
  predicate RegionInBounds(reg: Region, w: nat, h: nat) {
    0 <= reg.x && 0 <= reg.y && 0 <= reg.width && 0 <= reg.height &&
    reg.x + reg.width <= w && reg.y + reg.height <= h
  }

  /** The i-th scored region is the analysis of the i-th probe: an 80x60 rectangle inside the
      image, scored at most 1. */
  lemma ScoredAt(img: Img, w: nat, h: nat, i: int)
    requires WellFormed(img, w, h) && LargeEnough(w, h) && 0 <= i < 4
    ensures Scored(img, w, h)[i] == Analyze(img, w, h, Probes(w, h)[i])
    ensures RectOf(Scored(img, w, h)[i]) == Probes(w, h)[i]
    ensures Scored(img, w, h)[i].confidence <= 1.0
    ensures RegionInBounds(Scored(img, w, h)[i], w, h)
    ensures Scored(img, w, h)[i].width == 80 && Scored(img, w, h)[i].height == 60
  {
    AnalyzeProperties(img, w, h, Probes(w, h)[i]);
  }

  /** Regions kept from a list of in-bounds 80x60 probes scored within [0, 1]. */
  predicate ScoredProbe(r: Region, w: nat, h: nat) {
    RectOf(r) in Probes(w, h) && r.confidence <= 1.0 && RegionInBounds(r, w, h)
  }

  lemma ScoredShape(img: Img, w: nat, h: nat, r: Region)
    requires WellFormed(img, w, h) && LargeEnough(w, h) && r in Scored(img, w, h)
    ensures r.width == 80 && r.height == 60 && ScoredProbe(r, w, h)
  {
    var i :| 0 <= i < 4 && Scored(img, w, h)[i] == r;
    ScoredAt(img, w, h, i);
  }

  /** At most four regions, each kept exactly when its confidence exceeds 0.7, each one of the
      80x60 probes, inside the image and scored within [0, 1]. */
  lemma DetectProperties(img: Img, w: nat, h: nat)
    requires WellFormed(img, w, h) && LargeEnough(w, h)
    ensures |Detect(img, w, h)| <= 4
    ensures forall i :: 0 <= i < 4 ==>
      (Scored(img, w, h)[i] in Detect(img, w, h) <==> Scored(img, w, h)[i].confidence > 0.7)
    ensures forall r :: r in Detect(img, w, h) ==>
      r.width == 80 && r.height == 60 && r.confidence > 0.7 && ScoredProbe(r, w, h)
  {
    var rs := Scored(img, w, h);
    KeepConfidentProperties(rs);
    forall r | r in Detect(img, w, h)
      ensures r.width == 80 && r.height == 60 && ScoredProbe(r, w, h)
    {
      ScoredShape(img, w, h, r);
    }
  }

  /** On an image of at least 80x60 the two bottom probes always earn the corner bonus and
      the two top probes earn it exactly when the image is less than 75 pixels high. */
  lemma ProbeCornerBonus(w: nat, h: nat)
    requires LargeEnough(w, h)
    ensures CornerBonus(Probes(w, h)[0], w, h) && CornerBonus(Probes(w, h)[1], w, h)
    ensures CornerBonus(Probes(w, h)[2], w, h) <==> h < 75
    ensures CornerBonus(Probes(w, h)[3], w, h) <==> h < 75
  {
  }

  // ---------------------------------------------------------------------------------------
  // Neighbourhood sampling

  function ColorOf(p: Rgba): Color {
    Color(p.r, p.g, p.b)
  }

  /** Colours of the in-image pixels (cx + dx, py) for dx = -r, …, -r + n - 1, in that order. */
  function RowColors(img: Img, w: nat, h: nat, cx: int, py: int, r: nat, n: nat): seq<Color>
    requires WellFormed(img, w, h)
  {
    if n == 0 then []
    else
      var px := cx - r + n - 1;
      RowColors(img, w, h, cx, py, r, n - 1) + (if InImage(w, h, px, py) then [ColorOf(img[py][px])] else [])
  }

  /** The rows dy = -r, …, -r + m - 1 of the window around (cx, cy), each sampled for
      dx = -r, …, r. */
  function WindowColors(img: Img, w: nat, h: nat, cx: int, cy: int, r: nat, m: nat): seq<Color>
    requires WellFormed(img, w, h)
  {
    if m == 0 then []
    else WindowColors(img, w, h, cx, cy, r, m - 1) + RowColors(img, w, h, cx, cy - r + m - 1, r, 2 * r + 1)
  }

  /** What `getSurroundingColors(x, y, r)` returns: the in-image pixels of the (2r+1)x(2r+1)
      square around (x, y), row by row. */
  function Surrounding(img: Img, w: nat, h: nat, x: int, y: int, r: nat): seq<Color>
    requires WellFormed(img, w, h)
  {
    WindowColors(img, w, h, x, y, r, 2 * r + 1)
  }

  /** (px, py) is an in-image pixel of the square of radius r around (x, y). */
  predicate InWindow(w: nat, h: nat, x: int, y: int, r: nat, px: int, py: int) {
    InImage(w, h, px, py) && x - r <= px <= x + r && y - r <= py <= y + r
  }

  lemma {:induction false} RowColorsProperties(img: Img, w: nat, h: nat, cx: int, py: int, r: nat, n: nat)
    requires WellFormed(img, w, h)
    ensures |RowColors(img, w, h, cx, py, r, n)| <= n
    ensures forall c :: c in RowColors(img, w, h, cx, py, r, n) ==>
      exists px :: cx - r <= px < cx - r + n && InImage(w, h, px, py) && c == ColorOf(img[py][px])
  {
    if n > 0 {
      RowColorsProperties(img, w, h, cx, py, r, n - 1);
    }
  }

  /** Every in-image pixel of the first n columns of the row is sampled. */
  lemma {:induction false} RowColorsComplete(img: Img, w: nat, h: nat, cx: int, py: int, r: nat, n: nat, px: int)
    requires WellFormed(img, w, h) && cx - r <= px < cx - r + n && InImage(w, h, px, py)
    ensures ColorOf(img[py][px]) in RowColors(img, w, h, cx, py, r, n)
  {
    if px < cx - r + n - 1 {
      RowColorsComplete(img, w, h, cx, py, r, n - 1, px);
    }
  }

  lemma {:induction false} WindowColorsSize(img: Img, w: nat, h: nat, cx: int, cy: int, r: nat, m: nat)
    requires WellFormed(img, w, h)
    ensures |WindowColors(img, w, h, cx, cy, r, m)| <= m * (2 * r + 1)
  {
    if m > 0 {
      WindowColorsSize(img, w, h, cx, cy, r, m - 1);
      RowColorsProperties(img, w, h, cx, cy - r + m - 1, r, 2 * r + 1);
      assert (m - 1) * (2 * r + 1) + (2 * r + 1) == m * (2 * r + 1);
    }
  }

  lemma {:induction false} WindowColorsSound(img: Img, w: nat, h: nat, cx: int, cy: int, r: nat, m: nat)
    requires WellFormed(img, w, h) && m <= 2 * r + 1
    ensures forall c :: c in WindowColors(img, w, h, cx, cy, r, m) ==>
      exists px, py :: cy - r <= py < cy - r + m && InWindow(w, h, cx, cy, r, px, py) && c == ColorOf(img[py][px])
  {
    if m > 0 {
      var py := cy - r + m - 1;
      WindowColorsSound(img, w, h, cx, cy, r, m - 1);
      RowColorsProperties(img, w, h, cx, py, r, 2 * r + 1);
      forall c | c in WindowColors(img, w, h, cx, cy, r, m)
        ensures exists px, py :: cy - r <= py < cy - r + m && InWindow(w, h, cx, cy, r, px, py) && c == ColorOf(img[py][px])
      {
        if c !in WindowColors(img, w, h, cx, cy, r, m - 1) {
          assert c in RowColors(img, w, h, cx, py, r, 2 * r + 1);
          var px :| cx - r <= px < cx - r + (2 * r + 1) && InImage(w, h, px, py) && c == ColorOf(img[py][px]);
          assert InWindow(w, h, cx, cy, r, px, py);
        }
      }
    }
  }

  /** Every in-image pixel of the first m rows of the window is sampled. */
  lemma {:induction false} WindowColorsComplete(img: Img, w: nat, h: nat, cx: int, cy: int, r: nat, m: nat,
                                                px: int, py: int)
    requires WellFormed(img, w, h) && m <= 2 * r + 1
    requires cy - r <= py < cy - r + m && InWindow(w, h, cx, cy, r, px, py)
    ensures ColorOf(img[py][px]) in WindowColors(img, w, h, cx, cy, r, m)
  {
    var row := cy - r + m - 1;
    var before, last := WindowColors(img, w, h, cx, cy, r, m - 1), RowColors(img, w, h, cx, row, r, 2 * r + 1);
    assert WindowColors(img, w, h, cx, cy, r, m) == before + last;
    if py < row {
      WindowColorsComplete(img, w, h, cx, cy, r, m - 1, px, py);
      assert ColorOf(img[py][px]) in before;
    } else {
      RowColorsComplete(img, w, h, cx, row, r, 2 * r + 1, px);
      assert ColorOf(img[py][px]) in last;
    }
  }

  /** The sample holds exactly the in-image pixels of the window (as colours), at most
      (2r+1)^2 of them, and at least the centre when the centre is in the image. */
  lemma SurroundingProperties(img: Img, w: nat, h: nat, x: int, y: int, r: nat)
    requires WellFormed(img, w, h)
    ensures |Surrounding(img, w, h, x, y, r)| <= (2 * r + 1) * (2 * r + 1)
    ensures forall c :: c in Surrounding(img, w, h, x, y, r) ==>
      exists px, py :: InWindow(w, h, x, y, r, px, py) && c == ColorOf(img[py][px])
    ensures forall px, py :: InWindow(w, h, x, y, r, px, py) ==>
      ColorOf(img[py][px]) in Surrounding(img, w, h, x, y, r)
    ensures InImage(w, h, x, y) ==> 1 <= |Surrounding(img, w, h, x, y, r)|
  {
    WindowColorsSize(img, w, h, x, y, r, 2 * r + 1);
    WindowColorsSound(img, w, h, x, y, r, 2 * r + 1);
    forall px, py | InWindow(w, h, x, y, r, px, py)
      ensures ColorOf(img[py][px]) in Surrounding(img, w, h, x, y, r)
    {
      WindowColorsComplete(img, w, h, x, y, r, 2 * r + 1, px, py);
    }
    if InImage(w, h, x, y) {
      assert InWindow(w, h, x, y, r, x, y);
    }
  }

  /** How many of the integers lo, …, lo + n - 1 lie in 0, …, size - 1. */
  function Span(lo: int, n: nat, size: nat): (k: nat)
    ensures k <= n
  {
    var a := if lo < 0 then 0 else lo;
    var b := if lo + n < size then lo + n else size;
    if a < b then b - a else 0
  }

  /** The positions `RowColors` samples, in the same order. */
  function RowPositions(w: nat, h: nat, cx: int, py: int, r: nat, n: nat): seq<(int, int)> {
    if n == 0 then []
    else
      var px := cx - r + n - 1;
      RowPositions(w, h, cx, py, r, n - 1) + (if InImage(w, h, px, py) then [(px, py)] else [])
  }

  /** The positions `WindowColors` samples, in the same order. */
  function WindowPositions(w: nat, h: nat, cx: int, cy: int, r: nat, m: nat): seq<(int, int)> {
    if m == 0 then []
    else WindowPositions(w, h, cx, cy, r, m - 1) + RowPositions(w, h, cx, cy - r + m - 1, r, 2 * r + 1)
  }

  /** p comes before q in raster order: an earlier row, or the same row and further left. */
  predicate Before(p: (int, int), q: (int, int)) {
    p.1 < q.1 || (p.1 == q.1 && p.0 < q.0)
  }

  /** The positions are strictly increasing in raster order, so no position occurs twice. */
  predicate RasterOrdered(ps: seq<(int, int)>) {
    forall k, l :: 0 <= k < l < |ps| ==> Before(ps[k], ps[l])
  }

  /** Colour k of `cs` is the colour of the in-image pixel at position k of `ps`. */
  predicate SampledAt(img: Img, w: nat, h: nat, cs: seq<Color>, ps: seq<(int, int)>)
    requires WellFormed(img, w, h)
  {
    && |cs| == |ps|
    && forall k :: 0 <= k < |ps| ==>
         InImage(w, h, ps[k].0, ps[k].1) && cs[k] == ColorOf(img[ps[k].1][ps[k].0])
  }

  lemma SampledAtAppend(img: Img, w: nat, h: nat, cs: seq<Color>, ps: seq<(int, int)>, ds: seq<Color>, qs: seq<(int, int)>)
    requires WellFormed(img, w, h) && SampledAt(img, w, h, cs, ps) && SampledAt(img, w, h, ds, qs)
    ensures SampledAt(img, w, h, cs + ds, ps + qs)
  {
    forall k | |ps| <= k < |ps| + |qs|
      ensures (cs + ds)[k] == ds[k - |ps|] && (ps + qs)[k] == qs[k - |ps|]
    {
    }
  }

  lemma RasterOrderedAppend(ps: seq<(int, int)>, qs: seq<(int, int)>)
    requires RasterOrdered(ps) && RasterOrdered(qs)
    requires forall k, l :: 0 <= k < |ps| && 0 <= l < |qs| ==> Before(ps[k], qs[l])
    ensures RasterOrdered(ps + qs)
  {
    forall k, l | 0 <= k < l < |ps + qs|
      ensures Before((ps + qs)[k], (ps + qs)[l])
    {
      if l < |ps| {
      } else if k < |ps| {
        assert (ps + qs)[l] == qs[l - |ps|];
      } else {
        assert (ps + qs)[k] == qs[k - |ps|] && (ps + qs)[l] == qs[l - |ps|];
      }
    }
  }

  /** One more integer at the top of the range adds one to the span when it lies in range. */
  lemma SpanSnoc(lo: int, n: nat, size: nat)
    requires n > 0
    ensures Span(lo, n, size) == Span(lo, n - 1, size) + (if 0 <= lo + n - 1 < size then 1 else 0)
  {
  }

  /** Row positions carry the row's colours. */
  lemma {:induction false} RowSampled(img: Img, w: nat, h: nat, cx: int, py: int, r: nat, n: nat)
    requires WellFormed(img, w, h)
    ensures SampledAt(img, w, h, RowColors(img, w, h, cx, py, r, n), RowPositions(w, h, cx, py, r, n))
  {
    if n > 0 {
      var px := cx - r + n - 1;
      RowSampled(img, w, h, cx, py, r, n - 1);
      SampledAtAppend(img, w, h, RowColors(img, w, h, cx, py, r, n - 1), RowPositions(w, h, cx, py, r, n - 1),
                      if InImage(w, h, px, py) then [ColorOf(img[py][px])] else [],
                      if InImage(w, h, px, py) then [(px, py)] else []);
    }
  }

  /** Row positions lie in row py, within the first n columns, left to right. */
  lemma {:induction false} RowShape(w: nat, h: nat, cx: int, py: int, r: nat, n: nat)
    ensures var ps := RowPositions(w, h, cx, py, r, n);
            && RasterOrdered(ps)
            && forall k :: 0 <= k < |ps| ==> ps[k].1 == py && cx - r <= ps[k].0 < cx - r + n
  {
    if n > 0 {
      var px := cx - r + n - 1;
      RowShape(w, h, cx, py, r, n - 1);
      RasterOrderedAppend(RowPositions(w, h, cx, py, r, n - 1), if InImage(w, h, px, py) then [(px, py)] else []);
    }
  }

  /** Every in-image pixel among the first n columns of row py is a row position. */
  lemma {:induction false} RowComplete(w: nat, h: nat, cx: int, py: int, r: nat, n: nat, px: int)
    requires cx - r <= px < cx - r + n && InImage(w, h, px, py)
    ensures (px, py) in RowPositions(w, h, cx, py, r, n)
  {
    var ps := RowPositions(w, h, cx, py, r, n - 1);
    if px < cx - r + n - 1 {
      RowComplete(w, h, cx, py, r, n - 1, px);
      assert (px, py) in ps;
    } else {
      assert RowPositions(w, h, cx, py, r, n) == ps + [(px, py)];
    }
  }

  /** A row has as many positions as it has in-image columns, or none outside the image. */
  lemma {:induction false} RowCount(w: nat, h: nat, cx: int, py: int, r: nat, n: nat)
    ensures |RowPositions(w, h, cx, py, r, n)| == if 0 <= py < h then Span(cx - r, n, w) else 0
  {
    if n > 0 {
      RowCount(w, h, cx, py, r, n - 1);
      SpanSnoc(cx - r, n, w);
    }
  }

  /** Window positions carry the window's colours. */
  lemma {:induction false} WindowSampled(img: Img, w: nat, h: nat, cx: int, cy: int, r: nat, m: nat)
    requires WellFormed(img, w, h)
    ensures SampledAt(img, w, h, WindowColors(img, w, h, cx, cy, r, m), WindowPositions(w, h, cx, cy, r, m))
  {
    if m > 0 {
      var row := cy - r + m - 1;
      WindowSampled(img, w, h, cx, cy, r, m - 1);
      RowSampled(img, w, h, cx, row, r, 2 * r + 1);
      SampledAtAppend(img, w, h, WindowColors(img, w, h, cx, cy, r, m - 1), WindowPositions(w, h, cx, cy, r, m - 1),
                      RowColors(img, w, h, cx, row, r, 2 * r + 1), RowPositions(w, h, cx, row, r, 2 * r + 1));
    }
  }

  /** Window positions lie in the first m rows of the window, in raster order. */
  lemma {:induction false} WindowShape(w: nat, h: nat, cx: int, cy: int, r: nat, m: nat)
    ensures var ps := WindowPositions(w, h, cx, cy, r, m);
            && RasterOrdered(ps)
            && forall k :: 0 <= k < |ps| ==> cy - r <= ps[k].1 < cy - r + m && cx - r <= ps[k].0 <= cx + r
  {
    if m > 0 {
      var row := cy - r + m - 1;
      var ps, qs := WindowPositions(w, h, cx, cy, r, m - 1), RowPositions(w, h, cx, row, r, 2 * r + 1);
      WindowShape(w, h, cx, cy, r, m - 1);
      RowShape(w, h, cx, row, r, 2 * r + 1);
      RasterOrderedAppend(ps, qs);
      assert WindowPositions(w, h, cx, cy, r, m) == ps + qs;
    }
  }

  /** Every in-image pixel of the first m rows of the window is a window position. */
  lemma {:induction false} WindowComplete(w: nat, h: nat, cx: int, cy: int, r: nat, m: nat, px: int, py: int)
    requires cy - r <= py < cy - r + m && cx - r <= px <= cx + r && InImage(w, h, px, py)
    ensures (px, py) in WindowPositions(w, h, cx, cy, r, m)
  {
    var row := cy - r + m - 1;
    var ps, qs := WindowPositions(w, h, cx, cy, r, m - 1), RowPositions(w, h, cx, row, r, 2 * r + 1);
    assert WindowPositions(w, h, cx, cy, r, m) == ps + qs;
    if py < row {
      WindowComplete(w, h, cx, cy, r, m - 1, px, py);
      assert (px, py) in ps;
    } else {
      RowComplete(w, h, cx, row, r, 2 * r + 1, px);
      assert (px, py) in qs;
    }
  }

  /** The first m rows of the window have (in-image rows) × (in-image columns) positions. */
  lemma {:induction false} WindowCount(w: nat, h: nat, cx: int, cy: int, r: nat, m: nat)
    ensures |WindowPositions(w, h, cx, cy, r, m)| == Span(cy - r, m, h) * Span(cx - r, 2 * r + 1, w)
  {
    if m > 0 {
      var row := cy - r + m - 1;
      var rows, cols := Span(cy - r, m - 1, h), Span(cx - r, 2 * r + 1, w);
      WindowCount(w, h, cx, cy, r, m - 1);
      RowCount(w, h, cx, row, r, 2 * r + 1);
      SpanSnoc(cy - r, m, h);
      assert |WindowPositions(w, h, cx, cy, r, m)| == rows * cols + |RowPositions(w, h, cx, row, r, 2 * r + 1)|;
      if 0 <= row < h {
        MulSucc(rows, cols);
      }
    }
  }

  /** The sample position by position: colour k is that of the k-th in-image pixel of the
      window in raster order, no pixel is sampled twice, every in-image pixel of the window is
      sampled, and the sample holds (in-image rows) × (in-image columns) colours, the count
      `averageColors` divides by. */
  lemma SurroundingPositions(img: Img, w: nat, h: nat, x: int, y: int, r: nat)
    requires WellFormed(img, w, h)
    ensures var ps := WindowPositions(w, h, x, y, r, 2 * r + 1);
            && SampledAt(img, w, h, Surrounding(img, w, h, x, y, r), ps)
            && (forall k, l :: 0 <= k < l < |ps| ==> ps[k] != ps[l])
            && (forall k :: 0 <= k < |ps| ==> InWindow(w, h, x, y, r, ps[k].0, ps[k].1))
            && (forall px, py :: InWindow(w, h, x, y, r, px, py) ==> (px, py) in ps)
    ensures |Surrounding(img, w, h, x, y, r)| == Span(y - r, 2 * r + 1, h) * Span(x - r, 2 * r + 1, w)
  {
    var ps := WindowPositions(w, h, x, y, r, 2 * r + 1);
    WindowSampled(img, w, h, x, y, r, 2 * r + 1);
    WindowShape(w, h, x, y, r, 2 * r + 1);
    WindowCount(w, h, x, y, r, 2 * r + 1);
    forall px, py | InWindow(w, h, x, y, r, px, py)
      ensures (px, py) in ps
    {
      WindowComplete(w, h, x, y, r, 2 * r + 1, px, py);
    }
  }

  // ---------------------------------------------------------------------------------------
  // Colour averaging

  /** Channel k of a colour: 0 red, 1 green, 2 blue. */
  function Channel(c: Color, k: nat): int {
    if k == 0 then c.r as int else if k == 1 then c.g as int else c.b as int
  }

  function Sum(cs: seq<Color>, k: nat): int {
    if cs == [] then 0 else Channel(cs[0], k) + Sum(cs[1..], k)
  }

  /** q is `Math.round(sum / n)`: the nearest integer to the mean, halves rounded up. */
  predicate RoundsMean(q: int, sum: int, n: nat) {
    2 * n * q - n <= 2 * sum < 2 * n * q + n
  }

  function RoundedMean(sum: int, n: nat): (q: int)
    requires n > 0
    ensures RoundsMean(q, sum, n)
  {
    (2 * sum + n) / (2 * n)
  }

  lemma RoundedMeanBetween(sum: int, n: nat, lo: int, hi: int)
    requires n > 0 && n * lo <= sum <= n * hi
    ensures lo <= RoundedMean(sum, n) <= hi
  {
    var q := RoundedMean(sum, n);
    if q < lo {
      MulMonotone(q + 1, lo, 2 * n);
    }
    if q > hi {
      MulMonotone(hi + 1, q, 2 * n);
    }
  }

  lemma MulSucc(n: nat, a: int)
    ensures (n + 1) * a == n * a + a
  {
  }

  lemma {:induction false} SumBetween(cs: seq<Color>, k: nat, lo: int, hi: int)
    requires forall i :: 0 <= i < |cs| ==> lo <= Channel(cs[i], k) <= hi
    ensures |cs| * lo <= Sum(cs, k) <= |cs| * hi
  {
    if cs != [] {
      var tail, n := cs[1..], |cs| - 1;
      forall i | 0 <= i < n
        ensures lo <= Channel(tail[i], k) <= hi
      {
        assert tail[i] == cs[i + 1];
      }
      SumBetween(tail, k, lo, hi);
      assert Sum(cs, k) == Channel(cs[0], k) + Sum(tail, k);
      MulSucc(n, lo);
      MulSucc(n, hi);
    }
  }

  /** `averageColors`: per channel, the rounded mean of the samples. */
  function AverageColors(cs: seq<Color>): (avg: Color)
    requires |cs| > 0
    ensures forall k :: 0 <= k < 3 ==> RoundsMean(Channel(avg, k), Sum(cs, k), |cs|)
  {
    SumBetween(cs, 0, 0, 255);
    SumBetween(cs, 1, 0, 255);
    SumBetween(cs, 2, 0, 255);
    RoundedMeanBetween(Sum(cs, 0), |cs|, 0, 255);
    RoundedMeanBetween(Sum(cs, 1), |cs|, 0, 255);
    RoundedMeanBetween(Sum(cs, 2), |cs|, 0, 255);
    Color(RoundedMean(Sum(cs, 0), |cs|) as byte,
          RoundedMean(Sum(cs, 1), |cs|) as byte,
          RoundedMean(Sum(cs, 2), |cs|) as byte)
  }

  /** Each channel of the average lies between the smallest and the largest sample. */
  lemma AverageWithin(cs: seq<Color>, k: nat, lo: int, hi: int)
    requires |cs| > 0 && k < 3
    requires forall i :: 0 <= i < |cs| ==> lo <= Channel(cs[i], k) <= hi
    ensures lo <= Channel(AverageColors(cs), k) <= hi
  {
    SumBetween(cs, k, lo, hi);
    var q := Channel(AverageColors(cs), k);
    assert RoundsMean(q, Sum(cs, k), |cs|);
    assert RoundedMean(Sum(cs, k), |cs|) == q by {
      RoundsMeanUnique(q, RoundedMean(Sum(cs, k), |cs|), Sum(cs, k), |cs|);
    }
    RoundedMeanBetween(Sum(cs, k), |cs|, lo, hi);
  }

  lemma RoundsMeanUnique(q1: int, q2: int, sum: int, n: nat)
    requires n > 0 && RoundsMean(q1, sum, n) && RoundsMean(q2, sum, n)
    ensures q1 == q2
  {
    if q1 < q2 {
      MulMonotone(q1 + 1, q2, 2 * n);
    } else if q2 < q1 {
      MulMonotone(q2 + 1, q1, 2 * n);
    }
  }

  /** Averaging copies of one colour gives that colour back. */
  lemma AverageOfUniform(cs: seq<Color>, c: Color)
    requires |cs| > 0 && forall i :: 0 <= i < |cs| ==> cs[i] == c
    ensures AverageColors(cs) == c
  {
    AverageWithin(cs, 0, c.r as int, c.r as int);
    AverageWithin(cs, 1, c.g as int, c.g as int);
    AverageWithin(cs, 2, c.b as int, c.b as int);
  }

  // ---------------------------------------------------------------------------------------
  // Filling regions

  const Radius: nat := 5

  predicate InRect(reg: Region, x: int, y: int) {
    reg.x <= x < reg.x + reg.width && reg.y <= y < reg.y + reg.height
  }

  /** The new value of a pixel of a region: the rounded average of its radius-5 neighbourhood
      in `img`, fully opaque; a pixel with no neighbourhood would keep its value. */
  function FilledPixel(img: Img, w: nat, h: nat, x: int, y: int): Rgba
    requires WellFormed(img, w, h) && InImage(w, h, x, y)
  {
    var cs := Surrounding(img, w, h, x, y, Radius);
    if |cs| > 0 then
      var c := AverageColors(cs);
      Rgba(c.r, c.g, c.b, 255)
    else img[y][x]
  }

  /** `removeWatermarkFromRegion`: every neighbourhood is read from the image as it was before
      this region was written, so the fill is a function of the old image. */
  function Inpaint(img: Img, w: nat, h: nat, reg: Region): (out: Img)
    requires WellFormed(img, w, h)
    ensures WellFormed(out, w, h)
  {
    seq(h, y requires 0 <= y < h =>
      seq(w, x requires 0 <= x < w =>
        if InRect(reg, x, y) then FilledPixel(img, w, h, x, y) else img[y][x]))
  }

  /** `removeWatermarks`: the regions in list order, each filled on the result of the ones
      before it. */
  function RemoveAll(img: Img, w: nat, h: nat, regs: seq<Region>): (out: Img)
    requires WellFormed(img, w, h)
    ensures WellFormed(out, w, h)
  {
    if regs == [] then img
    else Inpaint(RemoveAll(img, w, h, regs[..|regs| - 1]), w, h, regs[|regs| - 1])
  }

  /** In the image every filled pixel is opaque and takes the average of its neighbourhood:
      the empty-neighbourhood branch is never taken. */
  lemma FilledPixelIsAverage(img: Img, w: nat, h: nat, x: int, y: int)
    requires WellFormed(img, w, h) && InImage(w, h, x, y)
    ensures |Surrounding(img, w, h, x, y, Radius)| >= 1
    ensures var c := AverageColors(Surrounding(img, w, h, x, y, Radius));
      FilledPixel(img, w, h, x, y) == Rgba(c.r, c.g, c.b, 255)
  {
    SurroundingProperties(img, w, h, x, y, Radius);
  }

  /** Filling a region of an image that is one opaque colour throughout changes nothing. */
  lemma InpaintUniform(img: Img, w: nat, h: nat, reg: Region, p: Rgba)
    requires WellFormed(img, w, h) && p.a == 255
    requires forall y, x :: 0 <= y < h && 0 <= x < w ==> img[y][x] == p
    ensures Inpaint(img, w, h, reg) == img
  {
    var out := Inpaint(img, w, h, reg);
    forall y | 0 <= y < h
      ensures out[y] == img[y]
    {
      forall x | 0 <= x < w
        ensures out[y][x] == img[y][x]
      {
        var cs := Surrounding(img, w, h, x, y, Radius);
        SurroundingProperties(img, w, h, x, y, Radius);
        forall i | 0 <= i < |cs|
          ensures cs[i] == ColorOf(p)
        {
          assert cs[i] in cs;
        }
        AverageOfUniform(cs, ColorOf(p));
      }
    }
  }

  /** A uniform opaque image survives any list of regions unchanged. */
  lemma {:induction false} RemoveAllUniform(img: Img, w: nat, h: nat, regs: seq<Region>, p: Rgba)
    requires WellFormed(img, w, h) && p.a == 255
    requires forall y, x :: 0 <= y < h && 0 <= x < w ==> img[y][x] == p
    ensures RemoveAll(img, w, h, regs) == img
  {
    if regs != [] {
      RemoveAllUniform(img, w, h, regs[..|regs| - 1], p);
      InpaintUniform(img, w, h, regs[|regs| - 1], p);
    }
  }

  /** A pixel that lies in none of the regions keeps its value. */
  lemma {:induction false} RemoveAllOutside(img: Img, w: nat, h: nat, regs: seq<Region>, x: int, y: int)
    requires WellFormed(img, w, h) && InImage(w, h, x, y)
    requires forall i :: 0 <= i < |regs| ==> !InRect(regs[i], x, y)
    ensures RemoveAll(img, w, h, regs)[y][x] == img[y][x]
  {
    if regs != [] {
      RemoveAllOutside(img, w, h, regs[..|regs| - 1], x, y);
    }
  }
}
