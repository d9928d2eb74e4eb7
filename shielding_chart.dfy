/** The integer side of the interactive shielding chart: the band configurations with their
    measured shielding curves, the dB ticks of the vertical axis, the responsive chart size,
    the unit of a frequency label and the peak shielding figure. */
module ShieldingChart {

  /** One measured point: shielding `db` at frequency `freq` in hertz. */
  datatype Point = Point(freq: int, db: int)

  /** A highlighted frequency band of the chart, in hertz. */
  datatype Band = Band(min: int, max: int, color: string)

  /** One entry of `frequencyBands`: the axis ranges, the curve and its highlighted bands. */
  datatype Config = Config(minFreq: int, maxFreq: int, minDb: int, maxDb: int, data: seq<Point>, bands: seq<Band>)

  // ---------------------------------------------------------------------------------------
  // The band tables

  function FullTestData(): seq<Point> {
    [Point(10000, 115), Point(20000, 110), Point(50000, 105), Point(100000, 100),
     Point(200000, 95), Point(500000, 88), Point(1000000, 82), Point(2000000, 75),
     Point(5000000, 68), Point(10000000, 62), Point(20000000, 55), Point(50000000, 48),
     Point(100000000, 42), Point(200000000, 38), Point(500000000, 35), Point(1000000000, 32),
     Point(2000000000, 28), Point(5000000000, 25), Point(10000000000, 22), Point(20000000000, 19),
     Point(40000000000, 17)]
  }

  function BandData2G(): seq<Point> {
    [Point(100000000, 52), Point(176000000, 50), Point(310000000, 48), Point(547000000, 37),
     Point(800000000, 47), Point(850000000, 47), Point(900000000, 45), Point(965000000, 43),
     Point(1700000000, 42), Point(1800000000, 40), Point(1900000000, 38), Point(3000000000, 35)]
  }

  function BandData3G(): seq<Point> {
    [Point(100000000, 52), Point(176000000, 49), Point(310000000, 46), Point(547000000, 37),
     Point(850000000, 47), Point(965000000, 46), Point(1700000000, 49), Point(1900000000, 42),
     Point(2100000000, 35), Point(3000000000, 35)]
  }

  function BandData4G(): seq<Point> {
    [Point(100000000, 52), Point(200000000, 49), Point(400000000, 46), Point(700000000, 52),
     Point(800000000, 49), Point(900000000, 45), Point(1500000000, 43), Point(1700000000, 49),
     Point(1800000000, 45), Point(2100000000, 41), Point(2600000000, 37), Point(3000000000, 32),
     Point(6000000000, 30)]
  }

  function BandData5G(): seq<Point> {
    [Point(100000000, 52), Point(270000000, 47), Point(740000000, 42), Point(800000000, 40),
     Point(900000000, 38), Point(1000000000, 36), Point(1500000000, 34), Point(2000000000, 50),
     Point(3500000000, 32), Point(5400000000, 29), Point(15000000000, 26), Point(24000000000, 19),
     Point(28000000000, 17), Point(40000000000, 16)]
  }

  function FullTest(): Config {
    Config(10000, 40000000000, 0, 120, FullTestData(),
      [Band(800000000, 1900000000, "rgba(255, 182, 193, 0.6)"),
       Band(1900000000, 2100000000, "rgba(173, 216, 230, 0.6)"),
       Band(700000000, 2600000000, "rgba(255, 255, 224, 0.6)"),
       Band(24000000000, 28000000000, "rgba(221, 160, 221, 0.6)"),
       Band(37000000000, 40000000000, "rgba(255, 200, 150, 0.6)")])
  }

  function Config2G(): Config {
    Config(100000000, 3000000000, 30, 60, BandData2G(),
      [Band(850000000, 965000000, "rgba(255, 182, 193, 0.8)"),
       Band(1700000000, 1900000000, "rgba(173, 216, 230, 0.8)")])
  }

  function Config3G(): Config {
    Config(100000000, 3000000000, 30, 60, BandData3G(),
      [Band(850000000, 965000000, "rgba(173, 216, 230, 0.8)"),
       Band(1700000000, 2100000000, "rgba(173, 216, 230, 0.8)")])
  }

  function Config4G(): Config {
    Config(100000000, 6000000000, 30, 60, BandData4G(),
      [Band(700000000, 900000000, "rgba(173, 216, 230, 0.8)"),
       Band(1500000000, 1800000000, "rgba(200, 255, 200, 0.8)"),
       Band(2100000000, 2600000000, "rgba(255, 255, 224, 0.8)"),
       Band(3000000000, 6000000000, "rgba(255, 200, 255, 0.8)")])
  }

  function Config5G(): Config {
    Config(100000000, 40000000000, 15, 60, BandData5G(),
      [Band(2000000000, 3500000000, "rgba(173, 216, 230, 0.8)"),
       Band(24000000000, 28000000000, "rgba(221, 160, 221, 0.8)"),
       Band(37000000000, 40000000000, "rgba(255, 200, 150, 0.8)")])
  }

  /** `frequencyBands`, in key order: the order of the band buttons. */
  function FrequencyBands(): seq<(string, Config)> {
    [("Full Test", FullTest()), ("2G", Config2G()), ("3G", Config3G()), ("4G", Config4G()), ("5G", Config5G())]
  }

  /** The configuration shown for a selected band name; the selection only ever holds one of
      the button names, and starts at "Full Test". */
  function Lookup(bands: seq<(string, Config)>, name: string): (c: Config)
    requires exists i :: 0 <= i < |bands| && bands[i].0 == name
    ensures exists i :: 0 <= i < |bands| && bands[i].0 == name && bands[i].1 == c
  {
    if bands[0].0 == name then bands[0].1
    else
      assert forall i :: 1 <= i < |bands| ==> bands[i] == bands[1..][i - 1];
      Lookup(bands[1..], name)
  }

  /** The curve's frequencies strictly increase. */
  predicate IncreasingFreq(data: seq<Point>) {
    forall i :: 0 <= i < |data| - 1 ==> data[i].freq < data[i + 1].freq
  }

  /** "Exact axis ranges": a non-empty curve drawn left to right, every point inside the axis
      box, every highlighted band a proper interval inside the frequency axis. */
  predicate WellFormedConfig(c: Config) {
    && c.minFreq < c.maxFreq && c.minDb < c.maxDb
    && c.data != []
    && IncreasingFreq(c.data)
    && (forall i :: 0 <= i < |c.data| ==>
          c.minFreq <= c.data[i].freq <= c.maxFreq && c.minDb <= c.data[i].db <= c.maxDb)
    && (forall i :: 0 <= i < |c.bands| ==>
          c.minFreq <= c.bands[i].min < c.bands[i].max <= c.maxFreq)
  }

  /** Along a curve drawn left to right, any point lies left of every later one. */
  lemma {:induction false} IncreasingFreqOrdered(data: seq<Point>, i: nat, j: nat)
    requires IncreasingFreq(data) && i < j < |data|
    ensures data[i].freq < data[j].freq
    decreases j - i
  {
    if i + 1 < j {
      IncreasingFreqOrdered(data, i + 1, j);
    }
  }

  /** The full-test curve is drawn left to right. */
  lemma FullTestDataIncreasing()
    ensures IncreasingFreq(FullTestData())
  {
    var d := FullTestData();
    assert forall i :: 0 <= i < |d| - 1 ==> d[i].freq < d[i + 1].freq;
  }

  /** The full-test configuration meets its axis ranges. */
  lemma FullTestWellFormed()
    ensures WellFormedConfig(FullTest())
  {
    var c := FullTest();
    FullTestDataIncreasing();
    assert forall i :: 0 <= i < |c.data| ==>
      c.minFreq <= c.data[i].freq <= c.maxFreq && c.minDb <= c.data[i].db <= c.maxDb;
  }

  /** The 2G curve is drawn left to right. */
  lemma BandData2GIncreasing()
    ensures IncreasingFreq(BandData2G())
  {
    var d := BandData2G();
    assert forall i :: 0 <= i < |d| - 1 ==> d[i].freq < d[i + 1].freq;
  }

  /** The 2G configuration meets its axis ranges. */
  lemma Config2GWellFormed()
    ensures WellFormedConfig(Config2G())
  {
    var c := Config2G();
    BandData2GIncreasing();
    assert forall i :: 0 <= i < |c.data| ==>
      c.minFreq <= c.data[i].freq <= c.maxFreq && c.minDb <= c.data[i].db <= c.maxDb;
  }

  /** The 3G curve is drawn left to right. */
  lemma BandData3GIncreasing()
    ensures IncreasingFreq(BandData3G())
  {
    var d := BandData3G();
    assert forall i :: 0 <= i < |d| - 1 ==> d[i].freq < d[i + 1].freq;
  }

  /** The 3G configuration meets its axis ranges. */
  lemma Config3GWellFormed()
    ensures WellFormedConfig(Config3G())
  {
    var c := Config3G();
    BandData3GIncreasing();
    assert forall i :: 0 <= i < |c.data| ==>
      c.minFreq <= c.data[i].freq <= c.maxFreq && c.minDb <= c.data[i].db <= c.maxDb;
  }

  /** The 4G curve is drawn left to right. */
  lemma BandData4GIncreasing()
    ensures IncreasingFreq(BandData4G())
  {
    var d := BandData4G();
    assert forall i :: 0 <= i < |d| - 1 ==> d[i].freq < d[i + 1].freq;
  }

  /** The 4G configuration meets its axis ranges. */
  lemma Config4GWellFormed()
    ensures WellFormedConfig(Config4G())
  {
    var c := Config4G();
    BandData4GIncreasing();
    assert forall i :: 0 <= i < |c.data| ==>
      c.minFreq <= c.data[i].freq <= c.maxFreq && c.minDb <= c.data[i].db <= c.maxDb;
  }

  /** The 5G curve is drawn left to right. */
  lemma BandData5GIncreasing()
    ensures IncreasingFreq(BandData5G())
  {
    var d := BandData5G();
    assert forall i :: 0 <= i < |d| - 1 ==> d[i].freq < d[i + 1].freq;
  }

  /** The 5G configuration meets its axis ranges. */
  lemma Config5GWellFormed()
    ensures WellFormedConfig(Config5G())
  {
    var c := Config5G();
    BandData5GIncreasing();
    assert forall i :: 0 <= i < |c.data| ==>
      c.minFreq <= c.data[i].freq <= c.maxFreq && c.minDb <= c.data[i].db <= c.maxDb;
  }

  /** Every configuration meets the axis ranges it declares, and the names are distinct. */
  lemma FrequencyBandsWellFormed()
    ensures forall i :: 0 <= i < |FrequencyBands()| ==> WellFormedConfig(FrequencyBands()[i].1)
    ensures forall i, j :: 0 <= i < j < |FrequencyBands()| ==> FrequencyBands()[i].0 != FrequencyBands()[j].0
  {
    var fb := FrequencyBands();
    forall i | 0 <= i < |fb|
      ensures WellFormedConfig(fb[i].1)
    {
      if i == 0 {
        FullTestWellFormed();
      } else if i == 1 {
        Config2GWellFormed();
      } else if i == 2 {
        Config3GWellFormed();
      } else if i == 3 {
        Config4GWellFormed();
      } else {
        Config5GWellFormed();
      }
    }
  }

  // ---------------------------------------------------------------------------------------
  // dB ticks

  /** 10 dB between ticks on a range of at most 30 dB, 20 dB otherwise. */
  function DbStep(minDb: int, maxDb: int): (step: int)
    ensures step == 10 || step == 20
    ensures step == 10 <==> maxDb - minDb <= 30
  {
    if maxDb - minDb <= 30 then 10 else 20
  }

  /** The values `from`, `from + step`, … that do not exceed `maxDb`. */
  function TicksFrom(from: int, maxDb: int, step: int): seq<int>
    requires step > 0
    decreases maxDb - from
  {
    if from > maxDb then [] else [from] + TicksFrom(from + step, maxDb, step)
  }

  /** The ticks of the dB axis. */
  function DbTicks(minDb: int, maxDb: int): seq<int> {
    TicksFrom(minDb, maxDb, DbStep(minDb, maxDb))
  }

  /** The run from `from` climbs by `step` from `from`, and its last value is the largest
      one not above `maxDb`; it is empty exactly when `from` is already above `maxDb`. */
  lemma {:induction false} TicksFromShape(from: int, maxDb: int, step: int)
    requires step > 0
    ensures var t := TicksFrom(from, maxDb, step);
      && (t == [] <==> from > maxDb)
      && (t != [] ==> t[|t| - 1] <= maxDb < t[|t| - 1] + step)
      && forall i :: 0 <= i < |t| ==> t[i] == from + i * step
    decreases maxDb - from
  {
    if from <= maxDb {
      TicksFromShape(from + step, maxDb, step);
      var t, rest := TicksFrom(from, maxDb, step), TicksFrom(from + step, maxDb, step);
      assert t == [from] + rest;
      forall i | 1 <= i < |t|
        ensures t[i] == from + i * step
      {
        assert t[i] == rest[i - 1] == from + step + (i - 1) * step;
        assert (i - 1) * step + step == i * step;
      }
    }
  }

  /** The ticks start at the bottom of the axis, climb by exactly one step, never pass the
      top, and the last one is within a step of the top. */
  lemma DbTicksProperties(minDb: int, maxDb: int)
    ensures var ticks, step := DbTicks(minDb, maxDb), DbStep(minDb, maxDb);
      && (ticks == [] <==> minDb > maxDb)
      && (ticks != [] ==> ticks[0] == minDb && ticks[|ticks| - 1] > maxDb - step)
      && (forall i :: 0 <= i < |ticks| ==> ticks[i] <= maxDb)
      && (forall i :: 0 <= i < |ticks| - 1 ==> ticks[i + 1] == ticks[i] + step)
  {
    var step := DbStep(minDb, maxDb);
    TicksFromShape(minDb, maxDb, step);
    var ticks := DbTicks(minDb, maxDb);
    forall i | 0 <= i < |ticks|
      ensures ticks[i] <= maxDb
    {
      var n := |ticks|;
      assert ticks[n - 1] == minDb + (n - 1) * step;
      assert i * step <= (n - 1) * step;
    }
    forall i | 0 <= i < |ticks| - 1
      ensures ticks[i + 1] == ticks[i] + step
    {
      assert (i + 1) * step == i * step + step;
    }
  }

  /** `generateDbTicks`: a loop pushing `minDb`, `minDb + step`, … while at most `maxDb`. */
  method GenerateDbTicks(minDb: int, maxDb: int) returns (ticks: seq<int>)
    ensures ticks == DbTicks(minDb, maxDb)
  {
    var range := maxDb - minDb;
    var step := if range <= 30 then 10 else 20;
    ticks := [];
    var db := minDb;
    while db <= maxDb
      invariant ticks + TicksFrom(db, maxDb, step) == DbTicks(minDb, maxDb)
      decreases maxDb - db
    {
      ticks := ticks + [db];
      db := db + step;
    }
  }

  /** The tick lists of the configured bands. */
  lemma BandTicks()
    ensures DbTicks(FullTest().minDb, FullTest().maxDb) == [0, 20, 40, 60, 80, 100, 120]
    ensures DbTicks(Config2G().minDb, Config2G().maxDb) == [30, 40, 50, 60]
    ensures DbTicks(Config3G().minDb, Config3G().maxDb) == [30, 40, 50, 60]
    ensures DbTicks(Config4G().minDb, Config4G().maxDb) == [30, 40, 50, 60]
    ensures DbTicks(Config5G().minDb, Config5G().maxDb) == [15, 35, 55]
  {
    assert TicksFrom(140, 120, 20) == [];
    assert TicksFrom(70, 60, 10) == [];
    assert TicksFrom(75, 60, 20) == [];
  }

  // ---------------------------------------------------------------------------------------
  // Chart size

  datatype Padding = Padding(top: int, right: int, bottom: int, left: int)

  datatype Dimensions = Dimensions(width: int, height: int, padding: Padding)

  function Min(a: int, b: int): int {
    if a < b then a else b
  }

  /** `getResponsiveDimensions`: phone, tablet and desktop layouts by window width. */
  function ResponsiveDimensions(windowWidth: int): (d: Dimensions)
    ensures windowWidth < 768 ==> d.width <= 360 && d.height == 280
    ensures 768 <= windowWidth < 1024 ==> d.width <= 700 && d.height == 320
    ensures 1024 <= windowWidth ==> d.width == 900 && d.height == 350
  {
    if windowWidth < 768 then
      Dimensions(Min(windowWidth - 32, 360), 280, Padding(30, 15, 60, 50))
    else if windowWidth < 1024 then
      Dimensions(Min(windowWidth - 64, 700), 320, Padding(35, 30, 70, 65))
    else
      Dimensions(900, 350, Padding(40, 40, 80, 80))
  }

  /** The phone chart leaves 16 pixels each side until it reaches 360 wide; the tablet branch
      is only taken from 768 pixels on, so its `Math.min` always picks 700; the chart never
      grows with the window past 900. */
  lemma ResponsiveWidths(windowWidth: int)
    ensures windowWidth < 768 ==>
      ResponsiveDimensions(windowWidth).width == if windowWidth <= 392 then windowWidth - 32 else 360
    ensures 768 <= windowWidth < 1024 ==> ResponsiveDimensions(windowWidth).width == 700
    ensures ResponsiveDimensions(windowWidth).width <= 900
  {
  }

  /** The chart width never decreases as the window widens. */
  lemma ResponsiveWidthMonotone(w1: int, w2: int)
    requires w1 <= w2
    ensures ResponsiveDimensions(w1).width <= ResponsiveDimensions(w2).width
  {
  }

  /** Every layout leaves a plot area of positive size inside the padding once the window is
      wide enough for the phone chart to hold it. */
  lemma PlotAreaPositive(windowWidth: int)
    requires windowWidth > 97
    ensures var d := ResponsiveDimensions(windowWidth);
      d.width - d.padding.left - d.padding.right > 0 && d.height - d.padding.top - d.padding.bottom > 0
  {
  }

  // ---------------------------------------------------------------------------------------
  // Frequency labels

  datatype Unit = GHz | MHz | kHz | Hz

  /** A label: the frequency scaled to its unit (before `toFixed`) and the unit. */
  datatype FreqLabel = FreqLabel(value: real, unit: Unit)

  function Scale(u: Unit): real {
    match u
    case GHz => 1000000000.0
    case MHz => 1000000.0
    case kHz => 1000.0
    case Hz => 1.0
  }

  /** `getFreqLabel`: the largest unit of which the frequency is at least one. */
  function GetFreqLabel(freq: real): (l: FreqLabel)
    ensures l.unit == GHz <==> freq >= 1000000000.0
    ensures l.unit == MHz <==> 1000000.0 <= freq < 1000000000.0
    ensures l.unit == kHz <==> 1000.0 <= freq < 1000000.0
    ensures l.unit == Hz <==> freq < 1000.0
    ensures l.value * Scale(l.unit) == freq
  {
    if freq >= 1000000000.0 then FreqLabel(freq / 1000000000.0, GHz)
    else if freq >= 1000000.0 then FreqLabel(freq / 1000000.0, MHz)
    else if freq >= 1000.0 then FreqLabel(freq / 1000.0, kHz)
    else FreqLabel(freq, Hz)
  }

  /** Whatever the unit, a frequency of at least 1 Hz shows a number in [1, 1000). */
  lemma LabelValueRange(freq: real)
    requires 1.0 <= freq < 1000000000.0
    ensures 1.0 <= GetFreqLabel(freq).value < 1000.0
  {
  }

  // ---------------------------------------------------------------------------------------
  // Peak shielding

  /** `Math.max(...data.map(d => d.db))` on a non-empty curve. */
  function PeakDb(data: seq<Point>): (peak: int)
    requires data != []
    ensures exists i :: 0 <= i < |data| && data[i].db == peak
    ensures forall i :: 0 <= i < |data| ==> data[i].db <= peak
  {
    if |data| == 1 then data[0].db
    else
      var rest := PeakDb(data[1..]);
      assert forall i :: 1 <= i < |data| ==> data[i] == data[1..][i - 1];
      if data[0].db >= rest then data[0].db else rest
  }

  /** The peak is the one value of the curve that no point exceeds. */
  lemma PeakIs(data: seq<Point>, v: int)
    requires exists i :: 0 <= i < |data| && data[i].db == v
    requires forall i :: 0 <= i < |data| ==> data[i].db <= v
    ensures PeakDb(data) == v
  {
    var i :| 0 <= i < |data| && data[i].db == v;
    var j :| 0 <= j < |data| && data[j].db == PeakDb(data);
    assert data[j].db <= v && data[i].db <= PeakDb(data);
  }

  /** The peak of the full-test curve. */
  lemma FullTestDataPeak()
    ensures PeakDb(FullTestData()) == 115
  {
    var d := FullTestData();
    assert d[0].db == 115 && forall i :: 0 <= i < |d| ==> d[i].db <= 115;
    PeakIs(d, 115);
  }

  /** The peak of the 2G curve. */
  lemma BandData2GPeak()
    ensures PeakDb(BandData2G()) == 52
  {
    var d := BandData2G();
    assert d[0].db == 52 && forall i :: 0 <= i < |d| ==> d[i].db <= 52;
    PeakIs(d, 52);
  }

  /** The peak of the 3G curve. */
  lemma BandData3GPeak()
    ensures PeakDb(BandData3G()) == 52
  {
    var d := BandData3G();
    assert d[0].db == 52 && forall i :: 0 <= i < |d| ==> d[i].db <= 52;
    PeakIs(d, 52);
  }

  /** The peak of the 4G curve. */
  lemma BandData4GPeak()
    ensures PeakDb(BandData4G()) == 52
  {
    var d := BandData4G();
    assert d[0].db == 52 && forall i :: 0 <= i < |d| ==> d[i].db <= 52;
    PeakIs(d, 52);
  }

  /** The peak of the 5G curve. */
  lemma BandData5GPeak()
    ensures PeakDb(BandData5G()) == 52
  {
    var d := BandData5G();
    assert d[0].db == 52 && forall i :: 0 <= i < |d| ==> d[i].db <= 52;
    PeakIs(d, 52);
  }

  /** The peak of each configured curve: 115 dB on the full test, 52 dB on every band. */
  lemma BandPeaks()
    ensures PeakDb(FullTestData()) == 115
    ensures PeakDb(BandData2G()) == 52 && PeakDb(BandData3G()) == 52
    ensures PeakDb(BandData4G()) == 52 && PeakDb(BandData5G()) == 52
  {
    FullTestDataPeak();
    BandData2GPeak();
    BandData3GPeak();
    BandData4GPeak();
    BandData5GPeak();
  }

  /** On every configured band the peak figure lies on the chart's dB axis. */
  lemma PeakOnAxis(i: int)
    requires 0 <= i < |FrequencyBands()|
    ensures var c := FrequencyBands()[i].1;
      c.data != [] && c.minDb <= PeakDb(c.data) <= c.maxDb
  {
    FrequencyBandsWellFormed();
    var c := FrequencyBands()[i].1;
    assert WellFormedConfig(c);
    var j :| 0 <= j < |c.data| && c.data[j].db == PeakDb(c.data);
  }
}
