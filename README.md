# Yellow River timeline: a Dafny model of the drawing arithmetic

The page draws Chinese history along the Yellow River. It takes a river path
from an SVG file, a list of dynasties (name, start year, end year, colour) and
a list of events (name, year, free-text type). It paints each dynasty as a
coloured stretch of the river and puts a circle marker at each event's year.
A legend filters the markers by type. The repository holds three snapshots of
the same rendering code:

- `src/js/visualization.js` is the latest. It guards a degenerate year domain,
  maps years onto 0.9999 of the path length and adds dynasty name labels.
- `src/js/script.js` and `src/js/visualization_v3.0.js` are earlier. They use
  the bare `[minYear, maxYear]` domain and map it onto the whole path length.

This project models the deterministic logic inside the D3 attribute callbacks
and event handlers of all three snapshots, and proves what each promises:

- `reals.dfy` (module `Reals`): `Math.min` and `Math.max` on lengths.
- `text.dfy` (module `Text`): JavaScript's `String.prototype.includes` as
  `Contains`, proved equal to "occurs at some index". Also the decimal digits
  of a whole number, with a parse-back round trip.
- `timeline.dfy` (module `Timeline`): the `Dynasty` and `Event` records and
  the year domain (`MinStart`, `MaxEnd`). It holds the linear year→arc-length
  scale (`YearScale`), built per snapshot by `LatestScale` (guarded) and
  `EarlierScale` (unguarded). Then come the dynasty dash pattern, the label
  anchor, the year filter for events and the off-screen guard for markers.
- `palette.dfy` (module `Palette`): the ordered substring table that colours
  markers and swatches. The source writes it twice, as the inline `fill`
  callback and as `getEventTypeColor`. Both copies are modelled, and both are
  proved equal to one reference table (`FirstMatch` over `CategoryRules`).
- `tooltip.dfy` (module `Tooltip`): the tooltip year text (`公元前` = BCE,
  `年` = year), with a parser that reads it back and a round-trip proof.
- `viewport.dfy` (module `Viewport`): fitting the path's bounding box into
  the container.
- `legend.dfy` (module `Legend`): the legend entries (`全部` = "all", then
  the distinct types in first-seen order) and the swatch colour. The class
  `LegendView` holds the interactive state: each entry's `active` flag, each
  marker's display flag and radius. Its `Click` method updates them with two
  loops, as the click handler does.

Lengths, sizes and the bounding box are `real`. Years are `int`. The path
length and the bounding box are inputs, because the browser measures them.

Points of the code that the model keeps as written:

- The colour table is written twice: once inline in the markers' `fill`
  callback and once as `getEventTypeColor`. The model proves the two copies
  equal.
- The click filter matches by substring. A marker is shown when its type
  contains the clicked entry's text, so clicking `战争` also shows a marker of
  type `战争/政治`.
- Year 0 counts as BCE: it prints as `公元前0年`.
- The latest snapshot maps maxYear to 0.9999·L, not to L.
- The latest snapshot's guard uses minYear + 1 as the upper end of the domain
  whenever maxYear is not greater than minYear. That covers a single-point
  domain and also maxYear < minYear.

One edge case of the code is modelled as written. An event whose type is
literally `全部` gets a black marker, but its legend entry shows a light-gray
swatch. Clicking that entry shows every marker. `Legend.MarkerHasMatchingSwatch`
therefore excludes that type.

## Model

| member | source | states |
|---|---|---|
| `Text.Contains` | src/js/visualization.js:169 | `s.includes(sub)` holds exactly when `sub` occurs at some index of `s`, and only if it is no longer than `s` |
| `Text.Decimal` | src/js/visualization.js:80 | the digits JavaScript prints for a whole non-negative number: non-empty, all decimal digits, no leading zero except for 0 itself |
| `Text.ParseDecimalOfDecimal` | src/js/script.js:115 | reading the printed digits of `n` back gives `n`, so the printing loses nothing |
| `Timeline.MinStart` | src/js/visualization.js:39 | `d3.min` over the starts: a lower bound of every dynasty's start that some dynasty attains |
| `Timeline.MaxEnd` | src/js/visualization.js:40 | `d3.max` over the ends: an upper bound of every dynasty's end that some dynasty attains |
| `Timeline.LatestScale` | src/js/visualization.js:39-50 | the guarded domain has validMaxYear > validMinYear = minYear; validMaxYear is maxYear when that exceeds minYear and minYear + 1 otherwise; the range end is 0.9999·L; every dynasty starts at or after the domain's low end and ends at or before its high end |
| `Timeline.EarlierScale` | src/js/script.js:80-86 | the unguarded scale has domain [minYear, maxYear] and range [0, L]; every dynasty starts at or after minYear and ends at or before maxYear |
| `Timeline.YearScale.At` | src/js/visualization.js:47-50 | `timeScale(y)` is linear interpolation: t(y) is to the range end as y − lo is to hi − lo |
| `Timeline.ScaleEndpoints` | src/js/visualization.js:47-50 | the scale maps the domain's low end to 0 and its high end to the range end |
| `Timeline.ScaleMonotone` | src/js/visualization.js:47-50 | over an increasing domain and a non-negative range, a later year never maps to a smaller length |
| `Timeline.ScaleWithinRange` | src/js/visualization.js:47-50 | every year of the domain maps into [0, range end] |
| `Timeline.ScaleOutsideRange` | src/js/script.js:84-86 | for a positive range, every year outside the domain maps below 0 or beyond the range end |
| `Timeline.LatestScaleInPath` | src/js/visualization.js:41-50 | t(validMinYear) = 0 and t(validMaxYear) = 0.9999·L, and every year of the guarded domain maps into [0, L] when L ≥ 0 |
| `Timeline.EarlierScaleEndpoints` | src/js/visualization_v3.0.js:35-41 | the unguarded scale maps minYear to 0 and maxYear to exactly L, and every year in between into [0, L] |
| `Timeline.DashPattern` | src/js/visualization.js:65-74 | the dash is never negative; dash + gap = L; offset = −t(start); when t(start) ≤ t(end) the dash is t(end) − t(start), otherwise it is 0 |
| `Reals.Max` | src/js/visualization.js:69 | `Math.max(a, b)` is one of its arguments and at least both |
| `Reals.Min` | src/js/visualization.js:210-213 | `Math.min(a, b)` is one of its arguments and at most both |
| `Timeline.StrokeWithinPath` | src/js/visualization.js:65-74 | for a dynasty inside the domain bounds, the gap is never negative and the dash starts at or after the path's beginning, and on the path when the start year is at most the domain's high end; for a well-ordered dynasty the visible dash ends exactly at t(end), at most L |
| `Timeline.LatestStrokeWithinPath` | src/js/visualization.js:66-73 | in the latest snapshot, every dynasty's gap is ≥ 0, its offset is −t(start) with t(start) ≥ 0, and a well-ordered dynasty's dash ends on the path |
| `Timeline.EarlierStrokeWithinPath` | src/js/script.js:101-109 | the same for the earlier snapshots' unguarded scale, given minYear < maxYear |
| `Timeline.LabelAnchor` | src/js/visualization.js:100-107 | the label length always lies in [0, L]; it is the midpoint (t(start) + t(end))/2 whenever that midpoint is on the path, 0 when the midpoint lies before the path and L when it lies beyond it |
| `Timeline.LatestLabelOnSegment` | src/js/visualization.js:102-107 | for every well-ordered dynasty the clamp never applies: the label sits at the midpoint, between t(start) and t(end) |
| `Timeline.RenderedEvents` | src/js/visualization.js:163 | the filtered events are all drawn from the input and all lie in the inclusive domain; the filter never grows the list |
| `Timeline.RenderedEventsCount` | src/js/visualization.js:163 | each in-domain event appears as many times as in the input, and no out-of-domain event appears |
| `Timeline.RenderedEventsAppend` | src/js/script.js:131 | the filter keeps the input order: filtering a concatenation concatenates the filtered parts |
| `Timeline.MarkerPlacement` | src/js/visualization.js:175-191 | a marker goes on the path at t(year) exactly when 0 ≤ t(year) ≤ L, and otherwise to the off-screen `translate(-100, -100)` |
| `Timeline.RenderedEventsOnPath` | src/js/visualization_v3.0.js:87-104 | when the range end lies in [0, L], every rendered event is placed on the path |
| `Timeline.LatestMarkersOnPath` | src/js/visualization.js:163-180 | in the latest snapshot every rendered event lies in [validMinYear, validMaxYear] and is placed on the path: the off-screen branch is never taken |
| `Timeline.EarlierGuardMatchesFilter` | src/js/script.js:131-148 | in the earlier snapshots, with L > 0, the off-screen guard accepts an event exactly when its year lies in [minYear, maxYear] |
| `Palette.FirstMatchWins` | src/js/visualization.js:230-236 | in an ordered substring table, the first rule whose token the type contains decides the colour, whatever later rules say |
| `Palette.FirstMatchFallback` | src/js/visualization.js:235 | when the type contains none of the tokens, the default colour is used |
| `Palette.EventTypeColor` | src/js/visualization.js:230-236 | `getEventTypeColor` never yields the light gray reserved for the 全部 swatch |
| `Palette.MarkerFill` | src/js/visualization.js:168-174 | the inline marker `fill` callback equals `getEventTypeColor` of the event's type |
| `Palette.EventTypeColorFollowsTable` | src/js/visualization_v3.0.js:152-158 | `getEventTypeColor` equals the reference table: 科技→purple, else 战争→red, else 人物→green, else 政治→blue, else black; the first token present wins, so a type with both 科技 and 战争 is purple |
| `Palette.MarkerFollowsTable` | src/js/script.js:136-142 | the marker fill also equals the reference table, for every event |
| `Tooltip.FormatYear` | src/js/script.js:115-116 | the year text ends in 年, and it starts with 公元前 exactly when the year is ≤ 0 |
| `Tooltip.EventYearText` | src/js/script.js:161 | the event tooltip's inline year text equals the dynasty tooltip's rule |
| `Tooltip.ParseFormatRoundTrip` | src/js/visualization_v3.0.js:70-71 | reading a formatted year back gives the year: positive years as their digits, the rest as 公元前 and the magnitude |
| `Tooltip.FormatYearInjective` | src/js/visualization.js:80-81 | different years never share a tooltip text |
| `Viewport.FitToViewport` | src/js/visualization.js:207-221 | the transform is set exactly when the box's width and height are both > 0; then s = 0.9·min(W/bw, H/bh); bw·s ≤ 0.9·W and bh·s ≤ 0.9·H, with equality on the tighter axis; the left and right margins are equal, and so are the top and bottom margins |
| `Viewport.ScaledExtent` | src/js/script.js:174-177 | on one axis the scaled extent is at most 90% of the container, and exactly 90% when that axis sets the ratio |
| `Legend.Distinct` | src/js/visualization_v3.0.js:146 | `Array.from(new Set(types))` holds the same elements as the input, each exactly once, ordered by first occurrence |
| `Legend.Kinds` | src/js/visualization.js:224 | `eventsData.map(d => d.type)`: one type per event, the i-th being the i-th event's type |
| `Legend.LegendData` | src/js/visualization.js:224-225 | the legend is 全部 followed by the types of all events (rendered or not): every event's type appears, nothing else appears, each appears once, in first-seen order |
| `Legend.SwatchColor` | src/js/visualization.js:257-261 | a swatch is light gray exactly for the 全部 entry; any other entry gets `getEventTypeColor` of its text |
| `Legend.MarkerHasMatchingSwatch` | src/js/visualization_v3.0.js:179-183 | every rendered marker's type (other than the literal 全部) has a legend entry whose swatch colour equals the marker's fill |
| `Legend.ExactlyOneActive` | src/js/visualization.js:244-246 | after a click, exactly one legend entry is active: the clicked one |
| `Legend.Visible` | src/js/visualization.js:248-254 | the `display` callback shows a marker exactly when the clicked entry is 全部 or its text occurs at some index of the marker's type; a shown marker's type is then at least as long as the entry |
| `Legend.ClickSelects` | src/js/script.js:212-218 | after a click on an entry, a marker is shown exactly when the entry is 全部 or the marker's type contains the entry's text: clicking 全部 shows every marker, every marker of exactly the clicked type is shown, a type that merely contains the text (战争/政治 under 战争) is shown too, and every other marker is hidden |
| `Legend.LegendView.constructor` | src/js/visualization.js:263 | right after rendering, the legend holds all events' types, the markers are the rendered events at radius 5, all markers are displayed, and only the first entry (全部) is active |
| `Legend.LegendView.Click` | src/js/visualization.js:244-255 | a click leaves only the clicked entry active (count 1), sets each marker's display to "全部 selected, or the type contains the entry", and leaves the radii unchanged |
| `Legend.LegendView.MouseOver` | src/js/script.js:158-159 | hovering a marker sets its radius to 8, whatever it was, and changes nothing else |
| `Legend.LegendView.MouseOut` | src/js/visualization_v3.0.js:122-123 | leaving a marker sets its radius back to 5, whatever it was, and changes nothing else |

## Left out

- Resource loading is not modelled, because it is network I/O. This covers `src/js/main.js`, the `Promise.all` over `d3.xml`/`d3.json` in `src/js/script.js:20-50, 230-238`, its shape checks and the inline error messages.
- A missing `#yellow_river` element (the early return) is not modelled either. The model starts once the path exists.
- `getTotalLength`, `getPointAtLength` and `getBBox` are browser geometry with no visible implementation. The path length L and the bounding box are inputs. A marker or label is modelled as the arc length it asks for, not as the point the browser returns.
- The `try`/`catch` around `getPointAtLength` is not modelled, since that call is not modelled. Neither is the latest snapshot's fallback for a missing path node (`src/js/visualization.js:181-191`).
- D3 selections, data joins and transitions are not modelled, and neither are `d3.min`/`d3.max` on an empty list. `MinStart`, `MaxEnd` and both scales require at least one dynasty.
- `Timeline.EarlierScale`: requires minYear ≠ maxYear. With a single-point domain, d3's `scaleLinear` maps every year to the middle of the range. That is D3-internal behaviour and is not modelled.
- Floating point is not modelled. Lengths and sizes are exact reals, so IEEE-754 rounding is not captured. Neither is the text JavaScript prints for the numbers in the `stroke-dasharray`, `stroke-dashoffset` and `transform` strings.
- `Text.Decimal`: models the printing of whole years only. JavaScript's exponent notation for numbers of 10^21 or more does not apply to years.
- `Text.Contains`: compares Unicode code points, while JavaScript compares UTF-16 code units. The two differ only for characters outside the Basic Multilingual Plane. None of the category tokens is such a character.
- The tooltip's HTML (name, `朝`, `<br>`, `类型:`) is not modelled. Neither are its position from the mouse event, opacity transitions and CSS styles. Only the year text is modelled.
- The commented-out alternating label offsets (`src/js/visualization.js:121-158`) are not modelled, because they are dead code.
- `Legend.LegendView` keeps the interactive state as sequences of flags. DOM nodes, the `active` CSS class and the `display` style are reduced to booleans.
