# ArmorRF storefront: the modellable core in Dafny

The repository is a storefront for an EMF-shielding garment: marketing pages, a checkout, a
support chat with an admin dashboard, an interactive shielding chart, and a client-side
watermark-removal tool. This project models the four places where the code computes
something rather than wiring components together.

- **Watermark tool** (`raster.dfy`, `watermark_spec.dfy`, `watermark_detect.dfy`,
  `watermark_canvas.dfy`). The image is a flat RGBA byte buffer, four bytes per pixel, row
  after row. `Raster.ImageOf` reads it as rows of pixels. `WatermarkSpec` states what the
  tool computes on such images:
  - pixel classification;
  - the statistics of a probe and its confidence, in exact rationals;
  - the four-corner detector;
  - the radius-5 neighbourhood;
  - the rounded colour average;
  - the fill of one region and of a list of regions.

  `WatermarkDetect` has the loops of `analyzeRegion` and `detectWatermarks`, proved equal to
  those functions. They run on the pixel snapshot that `getImageData` returns, which nothing
  writes. `WatermarkCanvas.Canvas` holds the canvas buffer as an `array`. Its methods
  (`getSurroundingColors`, `removeWatermarkFromRegion`, `removeWatermarks`) update the buffer
  in place, and each is proved to leave the image the specification functions describe.
- **Admin dashboard** (`admin_chat.dfy`):
  - the `reduce` that groups chat messages by session into a dictionary;
  - the session list ordered by latest activity;
  - the per-session unread count, customer flag and last message;
  - the message view sorted in place by time;
  - the guard of the reply handler;
  - the order-status figures.
- **Shielding chart** (`shielding_chart.dfy`):
  - the five band configurations and their well-formedness;
  - the dB tick loop;
  - the responsive chart size;
  - the unit of a frequency label;
  - the peak figure.
- **Navigation** (`navigation.dfy`): the active-link test.

Three details of the code shape the model:

- The fill does not depend on raster order. `removeWatermarkFromRegion` reads every
  neighbourhood from the canvas (`ctx`), but writes into a separate `getImageData` copy.
  That copy is put back once, after the whole region is done. So every pixel of a region
  takes the average of the image as it was before that region. Only later regions see
  earlier ones (`WatermarkSpec.Inpaint`, `WatermarkSpec.RemoveAll`).
- The rectangle `analyzeRegion` returns is the probe as given. It is never clipped to the
  image; only the counting loops are bounded by the image.
- The edge test looks at the red channel only. It is skipped in the last column and row of
  the image, not of the probe.

## Model

| member | source | states |
|---|---|---|
| Raster.ReadPixel | armorrfweb/client/src/components/watermark-removal.tsx:73-77 | the four bytes at `(y*w+x)*4` are pixel (x, y) of the image the buffer holds |
| Raster.WritePixel | armorrfweb/client/src/components/watermark-removal.tsx:160-170 | writing four bytes at `(y*w+x)*4` changes pixel (x, y) of the image and no other pixel |
| WatermarkSpec.RegionStatsBounds | armorrfweb/client/src/components/watermark-removal.tsx:71-98 | `totalPixels` is the area of [x, min(x+w,W)) × [y, min(y+h,H)), positive; each feature count is between 0 and `totalPixels` |
| WatermarkSpec.WeightedRatios | armorrfweb/client/src/components/watermark-removal.tsx:101-110 | 0.3·t/N + 0.4·g/N + 0.3·e/N, accumulated as the code does, is the weighted count over 10N |
| WatermarkSpec.ConfidenceInUnitInterval | armorrfweb/client/src/components/watermark-removal.tsx:101-123 | with counts at most N > 0 the capped score lies in [0, 1] |
| WatermarkSpec.ConfidenceMonotone | armorrfweb/client/src/components/watermark-removal.tsx:101-116 | more transparent, grey or edge-like pixels never lower the score |
| WatermarkSpec.AnalyzeProperties | armorrfweb/client/src/components/watermark-removal.tsx:118-123 | the analysed region carries the probe's own x, y, width and height, unclipped, and a score in [0, 1] |
| WatermarkSpec.ProbeCornerBonus | armorrfweb/client/src/components/watermark-removal.tsx:113-116 | on images of at least 80×60 both bottom probes get the 0.2 bonus; the top probes get it exactly when H < 75 |
| WatermarkSpec.KeepConfidentProperties | armorrfweb/client/src/components/watermark-removal.tsx:50-55 | the filter keeps a region iff its confidence is above 0.7, and never adds regions |
| WatermarkSpec.ScoredAt | armorrfweb/client/src/components/watermark-removal.tsx:43-48 | probe i is, in order, the 80×60 rectangle at (W-80,H-60), (0,H-60), (W-80,0), (0,0), inside the image, scored at most 1 |
| WatermarkSpec.DetectProperties | armorrfweb/client/src/components/watermark-removal.tsx:43-57 | at most four regions; each probe is returned iff its score exceeds 0.7; every returned region is an in-image 80×60 probe |
| WatermarkSpec.SurroundingProperties | armorrfweb/client/src/components/watermark-removal.tsx:178-195 | every sampled colour is that of an in-image pixel of the (2r+1)² window and every such pixel's colour is sampled; at most (2r+1)² samples, at least one when the centre is in the image |
| WatermarkSpec.SurroundingPositions | armorrfweb/client/src/components/watermark-removal.tsx:178-195 | sample k is the colour of the k-th in-image pixel of the window in row-then-column order; no pixel is sampled twice, every in-image pixel of the window is sampled, and the sample has exactly (in-image rows) × (in-image columns) colours, the divisor of the average |
| WatermarkSpec.RoundedMean | armorrfweb/client/src/components/watermark-removal.tsx:205-207 | `(2·sum+n) div 2n` is `Math.round(sum/n)`: the nearest integer to the mean, halves up |
| WatermarkSpec.AverageColors | armorrfweb/client/src/components/watermark-removal.tsx:197-209 | each channel of the result is the rounded mean of that channel's sum over the samples, and lies in 0..255 |
| WatermarkSpec.AverageWithin | armorrfweb/client/src/components/watermark-removal.tsx:204-208 | each averaged channel lies between the smallest and the largest sampled value |
| WatermarkSpec.AverageOfUniform | armorrfweb/client/src/components/watermark-removal.tsx:197-209 | averaging copies of one colour returns that colour |
| WatermarkSpec.FilledPixelIsAverage | armorrfweb/client/src/components/watermark-removal.tsx:163-171 | an in-image pixel always has a non-empty neighbourhood, so it takes the average with alpha 255 |
| WatermarkSpec.InpaintUniform | armorrfweb/client/src/components/watermark-removal.tsx:153-176 | filling any region of a uniform opaque image leaves it unchanged |
| WatermarkSpec.RemoveAllUniform | armorrfweb/client/src/components/watermark-removal.tsx:139-141 | a uniform opaque image survives any list of regions |
| WatermarkSpec.RemoveAllOutside | armorrfweb/client/src/components/watermark-removal.tsx:139-141 | a pixel in none of the regions keeps its value |
| WatermarkDetect.ClassifyPixel | armorrfweb/client/src/components/watermark-removal.tsx:73-96 | transparent iff a < 255; grey iff the three channel differences are below 10; edge-like iff x < W-1, y < H-1 and the red differences to the right and lower pixels sum above 100 |
| WatermarkDetect.ScanRow | armorrfweb/client/src/components/watermark-removal.tsx:72-97 | the inner loop's four counters are the statistics of the row segment |
| WatermarkDetect.ScanRect | armorrfweb/client/src/components/watermark-removal.tsx:71-98 | the two loops count the probe clipped to the image |
| WatermarkDetect.Score | armorrfweb/client/src/components/watermark-removal.tsx:100-123 | the accumulated score equals `Confidence` of the counts |
| WatermarkDetect.AnalyzeRegion | armorrfweb/client/src/components/watermark-removal.tsx:60-125 | returns the probe unclipped with the confidence of its in-image pixels, in [0, 1] |
| WatermarkDetect.DetectWatermarks | armorrfweb/client/src/components/watermark-removal.tsx:29-58 | returns `Detect` of the image: at most four in-image 80×60 probes, each with confidence above 0.7, in probe order |
| WatermarkCanvas.Canvas.constructor | armorrfweb/client/src/components/watermark-removal.tsx:134-136 | a canvas of the image's size holding its pixels |
| WatermarkCanvas.Canvas.GetPixel | armorrfweb/client/src/components/watermark-removal.tsx:188-189 | a one-pixel `getImageData` reads pixel (x, y) of the canvas |
| WatermarkCanvas.Canvas.GetSurroundingColors | armorrfweb/client/src/components/watermark-removal.tsx:178-195 | the loop returns `Surrounding`: the in-image window pixels in dy-then-dx order |
| WatermarkCanvas.Canvas.GetImageData | armorrfweb/client/src/components/watermark-removal.tsx:154-155 | a fresh buffer holding a copy of the region's pixels |
| WatermarkCanvas.Canvas.PutImageData | armorrfweb/client/src/components/watermark-removal.tsx:175 | the region takes the copy's pixels; every other pixel is unchanged |
| WatermarkCanvas.Canvas.RemoveWatermarkFromRegion | armorrfweb/client/src/components/watermark-removal.tsx:153-176 | the new image is `Inpaint` of the old one: region pixels become the opaque rounded average of the pre-region image, others unchanged |
| WatermarkCanvas.Canvas.RemoveWatermarks | armorrfweb/client/src/components/watermark-removal.tsx:127-141 | regions are applied in list order, each on the previous result; an empty list leaves every byte as it was |
| WatermarkCanvas.Canvas.ProcessImage | armorrfweb/client/src/components/watermark-removal.tsx:222-230 | detection runs on the drawn image, then removal of exactly the detected regions |
| AdminChat.GroupBySession | LuxuryDigitalDesign/client/src/pages/admin-fixed.tsx:93-99 | the reduce's dictionary maps each session id of the messages, and only those, to that session's messages in server order |
| AdminChat.GroupStep | LuxuryDigitalDesign/client/src/pages/admin-fixed.tsx:94-97 | creating the array on a session's first message and pushing onto it keeps the dictionary the grouping of the messages seen |
| AdminChat.OfSessionMembers | LuxuryDigitalDesign/client/src/pages/admin-fixed.tsx:93-99 | a message is in the group of session k iff it is one of the messages and its session id is k |
| AdminChat.InOwnGroup | LuxuryDigitalDesign/client/src/pages/admin-fixed.tsx:97 | every message sits in the group keyed by its own session id |
| AdminChat.GroupKeepsOrder | LuxuryDigitalDesign/client/src/pages/admin-fixed.tsx:97 | two messages of one session keep their relative order inside the group |
| AdminChat.GroupsNonEmpty | LuxuryDigitalDesign/client/src/pages/admin-fixed.tsx:94-97 | every group of the dictionary holds at least one message |
| AdminChat.GroupSumTotal | LuxuryDigitalDesign/client/src/pages/admin-fixed.tsx:93-99 | for any message predicate, the per-group counts summed over all sessions equal the count over all messages |
| AdminChat.GroupSizesSum | LuxuryDigitalDesign/client/src/pages/admin-fixed.tsx:93-99 | the group sizes add up to `allMessages.length` |
| AdminChat.SessionIdsDistinct | LuxuryDigitalDesign/client/src/pages/admin-fixed.tsx:94-96 | each session id becomes a key once |
| AdminChat.SessionIdsMembers | LuxuryDigitalDesign/client/src/pages/admin-fixed.tsx:94-96 | the keys are exactly the session ids of the messages |
| AdminChat.ActiveSessions | LuxuryDigitalDesign/client/src/pages/admin-fixed.tsx:199 | "Active Sessions" equals the number of distinct session ids among the messages |
| AdminChat.UnreadCount | LuxuryDigitalDesign/client/src/pages/admin-fixed.tsx:215 | the count is at most the group size, and zero iff every message is read |
| AdminChat.UnreadBadgesSum | LuxuryDigitalDesign/client/src/pages/admin-fixed.tsx:231-235 | the unread badges of all sessions add up to the number of unread messages |
| AdminChat.HasCustomerMessages | LuxuryDigitalDesign/client/src/pages/admin-fixed.tsx:216 | true iff some message of the group has sender type "customer" |
| AdminChat.LastMessage | LuxuryDigitalDesign/client/src/pages/admin-fixed.tsx:214 | the shown message is a message of the group |
| AdminChat.LastOfSession | LuxuryDigitalDesign/client/src/pages/admin-fixed.tsx:214 | the shown message of session k is the message at the largest index of the server's list whose session id is k |
| AdminChat.LatestIsMax | LuxuryDigitalDesign/client/src/pages/admin-fixed.tsx:103-104 | a session's latest time is the time of one of its messages and no message is later |
| AdminChat.LastNoLaterThanLatest | LuxuryDigitalDesign/client/src/pages/admin-fixed.tsx:214 | the last message in server order is never later than the latest one |
| AdminChat.LastMessageNotLatest | LuxuryDigitalDesign/client/src/pages/admin-fixed.tsx:214 | a two-message session where the last message shown is older than the session's latest |
| AdminChat.Entries | LuxuryDigitalDesign/client/src/pages/admin-fixed.tsx:102 | `Object.entries` pairs each key, in key order, with its group |
| AdminChat.InsertByRecency | LuxuryDigitalDesign/client/src/pages/admin-fixed.tsx:102-106 | inserting a session into a recency-ordered list keeps it ordered and adds exactly that session |
| AdminChat.SortByRecency | LuxuryDigitalDesign/client/src/pages/admin-fixed.tsx:102-106 | the result is a permutation of the sessions with non-increasing latest times |
| AdminChat.SortedSessions | LuxuryDigitalDesign/client/src/pages/admin-fixed.tsx:102-106 | the session list is a permutation of the dictionary's entries, most recent first, each with its own session's messages |
| AdminChat.SelectedMessages | LuxuryDigitalDesign/client/src/pages/admin-fixed.tsx:108 | no selection (null or "") gives no messages; otherwise the selected group when the id is a key of the dictionary, and no messages when it is not |
| AdminChat.SelectedIsSession | LuxuryDigitalDesign/client/src/pages/admin-fixed.tsx:108 | the selected messages are exactly the selected session's messages in server order |
| AdminChat.SortByTime | LuxuryDigitalDesign/client/src/pages/admin-fixed.tsx:264-265 | the in-place sort leaves a permutation of the array in non-decreasing `createdAt` order |
| AdminChat.Sink | LuxuryDigitalDesign/client/src/pages/admin-fixed.tsx:265 | the prefix up to and including i ends sorted and holds the same elements as before; every element after i is unchanged |
| AdminChat.Swap | LuxuryDigitalDesign/client/src/pages/admin-fixed.tsx:265 | exchanges two elements and nothing else |
| AdminChat.MessageView | LuxuryDigitalDesign/client/src/pages/admin-fixed.tsx:264-266 | the view shows a permutation of the selected group, oldest first |
| AdminChat.StripEmpty | LuxuryDigitalDesign/client/src/pages/admin-fixed.tsx:74 | `trim()` is empty iff the reply is all white space |
| AdminChat.StripIdempotent | LuxuryDigitalDesign/client/src/pages/admin-fixed.tsx:78 | trimming the trimmed reply changes nothing |
| AdminChat.Strip | LuxuryDigitalDesign/client/src/pages/admin-fixed.tsx:78 | the trimmed text is a slice of the input with only white space cut off both ends, and neither end is white space |
| AdminChat.SendReply | LuxuryDigitalDesign/client/src/pages/admin-fixed.tsx:73-83 | nothing is sent iff the reply is blank or no session is selected; otherwise {selected session, trimmed reply, "admin"} |
| AdminChat.StatusCount | LuxuryDigitalDesign/client/src/pages/admin-fixed.tsx:361-373 | the count of orders with a given status ("Pending Orders", "Shipped Orders") is at most the number of orders, and zero iff no order has exactly that status |
| AdminChat.PendingAndShipped | LuxuryDigitalDesign/client/src/pages/admin-fixed.tsx:361-373 | pending plus shipped never exceeds the number of orders |
| ShieldingChart.Lookup | LuxuryDigitalDesign/client/src/components/interactive-shielding-chart.tsx:174 | the shown configuration is the one stored under the selected band name |
| ShieldingChart.FrequencyBandsWellFormed | LuxuryDigitalDesign/client/src/components/interactive-shielding-chart.tsx:91-154 | every band configuration has a non-empty curve with strictly increasing frequencies inside its axis box, every highlighted band a proper interval within its frequency axis; the names are distinct |
| ShieldingChart.FullTestWellFormed | LuxuryDigitalDesign/client/src/components/interactive-shielding-chart.tsx:93-106 | the full-test configuration meets its axis ranges |
| ShieldingChart.Config2GWellFormed | LuxuryDigitalDesign/client/src/components/interactive-shielding-chart.tsx:107-117 | the 2G configuration meets its axis ranges |
| ShieldingChart.Config3GWellFormed | LuxuryDigitalDesign/client/src/components/interactive-shielding-chart.tsx:118-128 | the 3G configuration meets its axis ranges |
| ShieldingChart.Config4GWellFormed | LuxuryDigitalDesign/client/src/components/interactive-shielding-chart.tsx:129-141 | the 4G configuration meets its axis ranges |
| ShieldingChart.Config5GWellFormed | LuxuryDigitalDesign/client/src/components/interactive-shielding-chart.tsx:142-153 | the 5G configuration meets its axis ranges |
| ShieldingChart.FullTestDataIncreasing | LuxuryDigitalDesign/client/src/components/interactive-shielding-chart.tsx:6-28 | the full-test frequencies strictly increase |
| ShieldingChart.BandData2GIncreasing | LuxuryDigitalDesign/client/src/components/interactive-shielding-chart.tsx:30-43 | the 2G frequencies strictly increase |
| ShieldingChart.BandData3GIncreasing | LuxuryDigitalDesign/client/src/components/interactive-shielding-chart.tsx:45-56 | the 3G frequencies strictly increase |
| ShieldingChart.BandData4GIncreasing | LuxuryDigitalDesign/client/src/components/interactive-shielding-chart.tsx:58-72 | the 4G frequencies strictly increase |
| ShieldingChart.BandData5GIncreasing | LuxuryDigitalDesign/client/src/components/interactive-shielding-chart.tsx:74-89 | the 5G frequencies strictly increase |
| ShieldingChart.DbStep | LuxuryDigitalDesign/client/src/components/interactive-shielding-chart.tsx:258-259 | the step is 10 iff maxDb − minDb ≤ 30, else 20 |
| ShieldingChart.TicksFromShape | LuxuryDigitalDesign/client/src/components/interactive-shielding-chart.tsx:262-264 | tick i is from + i·step; the last tick is ≤ maxDb and more than maxDb − step; none iff from > maxDb |
| ShieldingChart.DbTicksProperties | LuxuryDigitalDesign/client/src/components/interactive-shielding-chart.tsx:257-266 | ticks start at minDb, rise by exactly the step, never pass maxDb, and the last is within a step of maxDb |
| ShieldingChart.GenerateDbTicks | LuxuryDigitalDesign/client/src/components/interactive-shielding-chart.tsx:257-266 | the loop returns `DbTicks(minDb, maxDb)` |
| ShieldingChart.BandTicks | LuxuryDigitalDesign/client/src/components/interactive-shielding-chart.tsx:93-147 | the tick lists: Full Test 0, 20, …, 120; 2G, 3G and 4G 30, 40, 50, 60; 5G 15, 35, 55 |
| ShieldingChart.ResponsiveDimensions | LuxuryDigitalDesign/client/src/components/interactive-shielding-chart.tsx:178-201 | below 768 at most 360 wide and 280 high; below 1024 at most 700 wide and 320 high; otherwise 900×350 |
| ShieldingChart.ResponsiveWidths | LuxuryDigitalDesign/client/src/components/interactive-shielding-chart.tsx:182-193 | the phone width is w − 32 up to 392 and 360 above; the tablet width is always exactly 700; no width exceeds 900 |
| ShieldingChart.ResponsiveWidthMonotone | LuxuryDigitalDesign/client/src/components/interactive-shielding-chart.tsx:178-201 | a wider window never gives a narrower chart |
| ShieldingChart.PlotAreaPositive | LuxuryDigitalDesign/client/src/components/interactive-shielding-chart.tsx:203-205 | above 97 pixels of window every layout leaves a plot area of positive width and height |
| ShieldingChart.GetFreqLabel | LuxuryDigitalDesign/client/src/components/interactive-shielding-chart.tsx:235-240 | GHz iff freq ≥ 10⁹, MHz iff 10⁶ ≤ freq < 10⁹, kHz iff 10³ ≤ freq < 10⁶, else Hz; the number shown times the unit is the frequency |
| ShieldingChart.LabelValueRange | LuxuryDigitalDesign/client/src/components/interactive-shielding-chart.tsx:235-238 | from 1 Hz to below 1 GHz the number shown lies in [1, 1000) |
| ShieldingChart.PeakDb | LuxuryDigitalDesign/client/src/components/interactive-shielding-chart.tsx:279 | the peak is the dB of some point and no point exceeds it |
| ShieldingChart.BandPeaks | LuxuryDigitalDesign/client/src/components/interactive-shielding-chart.tsx:279 | the peak figure is 115 dB on the full test and 52 dB on every band |
| ShieldingChart.FullTestDataPeak | LuxuryDigitalDesign/client/src/components/interactive-shielding-chart.tsx:7 | the full-test peak is 115 dB |
| ShieldingChart.BandData2GPeak | LuxuryDigitalDesign/client/src/components/interactive-shielding-chart.tsx:31 | the 2G peak is 52 dB |
| ShieldingChart.BandData3GPeak | LuxuryDigitalDesign/client/src/components/interactive-shielding-chart.tsx:46 | the 3G peak is 52 dB |
| ShieldingChart.BandData4GPeak | LuxuryDigitalDesign/client/src/components/interactive-shielding-chart.tsx:59 | the 4G peak is 52 dB |
| ShieldingChart.BandData5GPeak | LuxuryDigitalDesign/client/src/components/interactive-shielding-chart.tsx:75 | the 5G peak is 52 dB |
| ShieldingChart.PeakOnAxis | LuxuryDigitalDesign/client/src/components/interactive-shielding-chart.tsx:460 | on every band the peak figure lies within the dB axis |
| Navigation.StartsWith | LuxuryDigitalDesign/client/src/components/navigation.tsx:35 | true iff the location is at least as long as the href and agrees with it on every position of the href |
| Navigation.StartsWithIsPrefix | LuxuryDigitalDesign/client/src/components/navigation.tsx:35 | `startsWith` is the prefix relation |
| Navigation.IsActive | LuxuryDigitalDesign/client/src/components/navigation.tsx:31-36 | "/" is active iff the location is exactly "/"; any other href iff it is a prefix of the location |
| Navigation.ActiveOnOwnPage | LuxuryDigitalDesign/client/src/components/navigation.tsx:31-36 | every href is active at its own location |
| Navigation.TextualMatching | LuxuryDigitalDesign/client/src/components/navigation.tsx:31-36 | "/about" is active at "/aboutus" and at "/about/x", where "/" is not |
| Navigation.AtMostOneActive | LuxuryDigitalDesign/client/src/components/navigation.tsx:25-36 | of the three menu entries at most one is active at any location |

## Left out

- Canvas and DOM plumbing: creating the canvas, `drawImage`, `toBlob`, object URLs, the
  download link, progress timers, overlays. The drawn image is the constructor's byte buffer.
- Images smaller than 80×60: the detector then probes at negative coordinates, reads
  `undefined` or wraps into the previous row. `WatermarkDetect.DetectWatermarks` and
  `WatermarkCanvas.Canvas.ProcessImage` require W ≥ 80 and H ≥ 60.
- WatermarkCanvas.Canvas.RemoveWatermarks: requires every region to lie inside the image.
  The canvas API would clip an out-of-image `getImageData`/`putImageData` and read
  transparent black; that is not modelled.
- Floating point: the confidence is computed in exact rationals, so a score within rounding
  distance of 0.7 may be kept or dropped differently from the browser.
- Float chart work: the log scales, `generateAxisTicks` (`Math.pow`), SVG paths and `toFixed`
  label text. `ShieldingChart.GetFreqLabel` returns the unit and the exact scaled number.
- ShieldingChart.PeakDb: requires a non-empty curve. Every configured curve is non-empty;
  `Math.max()` of nothing would be `-Infinity`.
- Window resize events: the window width is a parameter of
  `ShieldingChart.ResponsiveDimensions`.
- Network, database and real-time code: react-query fetches and mutations, the WebSocket
  effect, the customer chat widget, the server storage layer. `AdminChat.SendReply` returns
  the message the mutation would post.
- AdminChat.SortByRecency: the dashboard uses `Array.prototype.sort` with a comparator. The
  model is a permutation in non-increasing order of latest time. The order among sessions
  with equal latest times is not claimed to match the browser's sort.
- AdminChat.MessageView: `Array.prototype.sort` sorts the session's array in place. That
  array is shared with the dictionary, which is rebuilt on every render. The model sorts a
  copy, so it does not capture that aliasing. It also does not claim stability.
- AdminChat.GroupBySession, AdminChat.SelectedMessages: the dashboard's dictionary is a
  plain object literal, which inherits `Object.prototype`. A session id such as
  "constructor", "toString" or "__proto__" already reads as a truthy inherited value there.
  No array is created for it, and the following `push` throws, which stops the render. The
  selection would also return the inherited function instead of an array. The model's `map`
  has no inherited keys, so it groups such ids like any other; it does not capture that
  failure.
- `Object.entries` key order is modelled as insertion order. JavaScript lists integer-like
  keys first, in numeric order.
- Timestamps: `createdAt` is an integer number of milliseconds (`new Date(…).getTime()`).
  Date parsing is not modelled.
- Money arithmetic, payment calls, deployment and start scripts, local storage and
  presentation-only pages are not part of this model. So is the unrouted older dashboard
  `LuxuryDigitalDesign/client/src/pages/admin.tsx`.
