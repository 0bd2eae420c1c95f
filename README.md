# naviguard-react: route editing and NAVTEX coordinates, in Dafny

This project models three parts of the naviguard-react web application and proves properties about them.

- **Route editing in the App component** (`src/App.js`). The state is an ordered list of waypoints, one cruising speed, a cached total distance and the index of the waypoint added last. Five handlers change the list: add, remove, update, insert and clear. Each of them recomputes the total with `calculateTotalDistance`, which adds the leg distances from left to right. The speed input has its own acceptance rule. `estimatedTime` is a guarded division. `handleAnalyze` refuses routes of fewer than two waypoints. The model is the class `App.RouteEditor`. Its invariant `Valid` says that the cached total is the length of the current route and that the speed is never negative. Every handler keeps that invariant.
- **Map-side editing in MapView** (`src/components/MapView.js`). This covers the midpoint of a leg and the "+" markers that insert it, the polyline positions, and the `draggingIndex` drag-mode state that the move, cancel, drag-end and delete handlers change. The model is the class `MapView.MapView`, which holds a reference to the App state it edits.
- **The NAVTEX coordinate parser** (`src/utils/navtexUtils.js`):
  - `parseNavtexCoord` with its inner `parsePart`, which reads "degrees minutes direction" text such as `42 20.70 K` into signed decimal degrees;
  - `announcementToPoints`, which keeps, in order, the points of an announcement that parse.

The JavaScript built-ins this code relies on are defined to agree with JavaScript on the inputs these handlers see; the exceptions (`Infinity` in `parseFloat`, characters outside ASCII and the long s in `toUpperCase`) are listed under "Left out":
- `Array.prototype.filter` by index, `splice(start, 0, x)` with its clamping of negative and oversized starts, and the index assignment `a[index] = x` (`JsArray`);
- `String.prototype.trim`, `split(/\s+/)` and `toUpperCase` (`JsString`);
- `parseFloat` over exact reals (`JsNumber`).

The leg distance `calculateDistance` (the Haversine formula) is a parameter `dist` of the route state and is never looked into. Lemmas that need it to be non-negative or to obey the triangle inequality take that as a hypothesis.

Files:
- `wrappers.dfy`: `Option`.
- `js_array.dfy`, `js_string.dfy`, `js_number.dfy`: the built-ins.
- `route_distance.dfy`: waypoints, the route length and `calculateTotalDistance`.
- `app.dfy`: the App state and its handlers.
- `map_view.dfy`: the MapView rules.
- `navtex.dfy`: the NAVTEX parser.

## Model

| member | source | states |
|---|---|---|
| RouteDistance.CalculateTotalDistance | src/App.js:28-42 | The loop's total is 0 for fewer than two points. Otherwise it is the sum of `dist(points[i], points[i+1])` over every leg, added from first to last. |
| RouteDistance.PathLengthNonNegative | src/App.js:28-42 | With leg distances that are never negative, a route's total is never negative. |
| RouteDistance.PathLengthAppend | src/App.js:51-59 | Appending a waypoint adds exactly the one leg from the old last waypoint to the new one. |
| RouteDistance.PathLengthConcat | src/App.js:28-42 | The length of two routes joined end to start is both lengths plus the joining leg. |
| RouteDistance.PathLengthFront | src/App.js:28-42 | A route's length is its first leg plus the length of the rest. |
| RouteDistance.PathLengthSplit | src/App.js:28-42 | A route's length is the length up to waypoint `i` plus the length from waypoint `i`. |
| RouteDistance.RemoveLength | src/App.js:77-83 | Removing an interior waypoint replaces its two legs by the leg joining its neighbours. Removing the first or the last waypoint drops one leg. |
| RouteDistance.InsertLength | src/App.js:105-118 | Inserting inside the route replaces the leg the new waypoint falls on by the two legs through it. |
| RouteDistance.UpdateLength | src/App.js:89-99 | Moving an interior waypoint changes only the two legs that touch it. |
| RouteDistance.RemoveNeverLengthens | src/App.js:77-83 | Under the triangle inequality, removing a waypoint never makes the route longer. |
| RouteDistance.InsertNeverShortens | src/App.js:105-118 | Under the triangle inequality, inserting a waypoint inside the route never makes it shorter. |
| JsArray.WithoutIndex | src/App.js:78 | The filter keeps every element except the one at `index`, in order. An index out of range keeps the whole array. |
| JsArray.NegativeCountsFromEnd | src/App.js:107 | A negative start no further back than the array's length inserts at the same place as the non-negative start `len + start`, which lies inside the array. |
| JsArray.AssignAt | src/App.js:90-94 | `a[index] = x` on a copy: the element at an index in range becomes `x` and the length stays; the index `len` appends `x`; a negative index leaves the elements as they were. Every other element keeps its place. |
| JsArray.SpliceInsert | src/App.js:106-110 | The result is one element longer and holds the new element at the splice position. Earlier elements keep their places and later ones move up by one. |
| JsArray.RemoveUndoesInsert | src/App.js:78 | Filtering out the position just spliced into gives the original array back. |
| JsArray.InsertUndoesRemove | src/App.js:107 | Splicing a removed element back at its position gives the original array back. |
| App.TravelTime | src/App.js:141 | With a positive speed, the time multiplied by the speed is the distance. With a speed of 0 or less, the time is 0. It is never negative for a non-negative distance. |
| App.SpeedAfterInput | src/App.js:131-138 | Starting from a non-negative speed, the new speed is non-negative. A changed speed is either the number the text parses to, or 0 for empty text. |
| App.SpeedInputRules | src/App.js:131-138 | Three rules: a number that is not negative is taken; empty text sets 0; any other text (a negative number, or text that is not a number) keeps the current speed. |
| App.SpeedFromNumeral | src/App.js:132-134 | Typing the decimal numeral of a whole number of knots sets exactly that speed. |
| App.RouteEditor.constructor | src/App.js:8-11 | The initial state: no waypoints, speed 12, total 0, no last-added index. It satisfies the invariant. |
| App.RouteEditor.EstimatedTime | src/App.js:141 | `estimatedTime`: the total over the speed when the speed is positive, else 0. |
| App.RouteEditor.WaypointAdd | src/App.js:45-60 | Appends the waypoint and keeps every earlier one. Sets the last-added index to the old length. Keeps the invariant, so the total grows by exactly the new leg. |
| App.RouteEditor.WaypointRemove | src/App.js:77-83 | The list becomes the filtered list: one shorter for an index in range, unchanged otherwise. Keeps the invariant, so an interior removal changes the total by its two legs and the new joining leg. |
| App.RouteEditor.WaypointUpdate | src/App.js:89-99 | The list becomes the assigned copy: the waypoint at an index in range is replaced, the index `len` appends, and a negative index leaves the list and the total as they were. Keeps the invariant, so moving an interior waypoint changes only its two legs and appending adds one leg. |
| App.RouteEditor.WaypointInsert | src/App.js:105-118 | The list becomes the spliced list: for an index in `0..len`, the old prefix, the new waypoint, then the old suffix. Sets the last-added index to `index`. Keeps the invariant. |
| App.RouteEditor.ClearAll | src/App.js:124-127 | Empties the list and sets the total to 0, which keeps the invariant. The speed and the last-added index stay. |
| App.RouteEditor.SpeedChange | src/App.js:131-138 | The speed becomes `SpeedAfterInput` of the typed text. The route and its total stay. The speed remains non-negative. |
| App.RouteEditor.Analyze | src/App.js:144-156 | No payload exactly when there are fewer than two waypoints. Otherwise the payload holds exactly the waypoints, speed, total and estimated time. |
| App.EstimatesNonNegative | src/App.js:141 | With non-negative leg distances, the cached total and the estimated time are never negative. |
| MapView.Midpoint | src/components/MapView.js:59-64 | The midpoint is as far from one end as from the other in each coordinate, and lies between the two ends. |
| MapView.RoutePositions | src/components/MapView.js:56 | One `[lat, lng]` pair per waypoint, in the same order. |
| MapView.PolylineWithMarkers | src/components/MapView.js:215-228 | The route line is drawn exactly when at least one "+" marker is, that is when there are at least two positions. |
| MapView.InsertMarkers | src/components/MapView.js:228-236 | One "+" marker per leg, at indices `0..len-2`, and none for fewer than two waypoints. Each marker lies between the ends of its leg. |
| MapView.MarkersAreInsertable | src/components/MapView.js:228-236 | Every "+" marker's index meets what `handleInsertWaypoint` needs (`afterIndex + 1 < len`). |
| MapView.MapView.constructor | src/components/MapView.js:52 | Drag mode starts off. |
| MapView.MapView.DraggableMarkers | src/components/MapView.js:143-148 | A marker is draggable exactly when its index is `draggingIndex`, so at most one is draggable. |
| MapView.MapView.InsertWaypoint | src/components/MapView.js:67-70 | Asks App to insert, at `afterIndex + 1`, the midpoint of the leg from `afterIndex`. The list grows by one. The new waypoint sits between its former neighbours and becomes the last added. |
| MapView.MapView.MoveClick | src/components/MapView.js:73-80 | Drag mode moves to `index`, and exactly that marker (if it exists) is draggable. |
| MapView.MapView.CancelMove | src/components/MapView.js:83-90 | Drag mode ends, and no marker is draggable. |
| MapView.MapView.DragEnd | src/components/MapView.js:93-97 | Forwards the update of waypoint `index` to App, then ends drag mode. |
| MapView.MapView.DeleteClick | src/components/MapView.js:100-114 | Ends drag mode only when the deleted index is the one in drag mode, and always forwards the removal. After deleting an earlier waypoint, the waypoint that was in drag mode sits one position earlier. |
| JsString.SpaceEnd | src/utils/navtexUtils.js:10-11 | The scan stops at the end of the string or at a character that is not whitespace, never before `i`. |
| JsString.SpaceEndSkipsSpace | src/utils/navtexUtils.js:10-11 | Every character the scan passes over is whitespace, so the stop is the first non-whitespace position at or after `i`. |
| JsString.TrimStartSpaceEnd | src/utils/navtexUtils.js:8 | Trimming the start of a suffix keeps what follows its leading run of whitespace. |
| JsString.TrimIgnoresPadding | src/utils/navtexUtils.js:8 | Whitespace added around a string does not change what `trim` returns. |
| JsString.TrimShape | src/utils/navtexUtils.js:8 | `trim` keeps a middle part of the string between two runs of whitespace, and that part starts and ends with a character that is not whitespace. |
| JsString.TrimJoin | src/utils/navtexUtils.js:8 | Words joined by runs of whitespace have nothing for `trim` to remove. |
| JsString.SplitJoin | src/utils/navtexUtils.js:8 | Splitting on `/\s+/` words joined by runs of whitespace of any length gives the words back: each run is one separator and no empty piece appears. |
| JsString.SplitRunExample | src/utils/navtexUtils.js:8 | `"42\t 20.70  K"` splits into the three pieces `42`, `20.70` and `K`. |
| JsString.SplitPartsNoSpace | src/utils/navtexUtils.js:8 | No piece of a split holds whitespace. |
| JsString.ToUpperChars | src/utils/navtexUtils.js:13 | For the modelled mapping (ASCII letters and the long s), upper-casing keeps the length and maps each character on its own. |
| JsString.UpperIsLetter | src/utils/navtexUtils.js:13 | Upper-casing gives a one-letter string exactly for the one-character strings whose character maps to that letter. |
| JsString.UpperCharInverse | src/utils/navtexUtils.js:13 | In the modelled mapping, an upper-case ASCII letter comes from itself or its lower-case form, and `S` also comes from the long s (U+017F). |
| JsNumber.DigitEndSkipsDigits | src/utils/navtexUtils.js:10-11 | Every character the digit scan passes over is a decimal digit. |
| JsNumber.ParseFloatNaN | src/utils/navtexUtils.js:10-12 | The modelled `parseFloat` gives NaN exactly when, after leading whitespace and one sign, neither a digit nor a dot followed by a digit comes next. |
| JsNumber.ParseDigitsThenStop | src/utils/navtexUtils.js:10 | Digits followed by anything that cannot continue a number parse to the value of the digits. |
| JsNumber.ParseDecimalThenStop | src/utils/navtexUtils.js:11 | `whole.fraction` followed by anything that cannot continue a number parses to `whole + fraction / 10^len(fraction)`. |
| JsNumber.ParseFloatNegative | src/utils/navtexUtils.js:10 | A minus sign in front negates the number read, and NaN stays NaN. |
| JsNumber.ScanShift | src/utils/navtexUtils.js:10 | A number is read the same wherever in the string it starts. |
| JsNumber.NatRoundTrip | src/App.js:132 | Parsing the decimal numeral of a natural number gives the number back. |
| Navtex.DirectionOfToken | src/utils/navtexUtils.js:13-19 | The third token negates the value exactly when it is one letter that upper-cases to G or S (latitude) or to B or W (longitude). K, N, D, E, a longer word or no token leave the value positive. |
| Navtex.ParsePart | src/utils/navtexUtils.js:6-21 | `null` for a non-string or empty value, and for fewer than two tokens. A value exists exactly when the text is a non-empty string with at least two tokens whose first two parse as numbers. |
| Navtex.ParsePartOfWords | src/utils/navtexUtils.js:8-20 | Words padded with whitespace and separated by runs of whitespace parse to the first word in degrees plus the second over 60. The value is negated exactly by a south or west third word. Words after the third are ignored, and a negative degree gets no special handling. |
| Navtex.ParsePartOfTokens | src/utils/navtexUtils.js:8-20 | The same value, stated for any text whose tokens are known. |
| Navtex.SignedDegrees | src/utils/navtexUtils.js:13-20 | `(deg + min / 60) * sign` is the value, or its negation for a south or west direction token. |
| Navtex.TokensOfWords | src/utils/navtexUtils.js:8 | Trimming and splitting words padded with whitespace, with a run of whitespace of any length between each two, gives the words. |
| Navtex.ParsePartIgnoresPadding | src/utils/navtexUtils.js:8 | Whitespace before or after a part does not change its result. |
| Navtex.ParsePartNotANumber | src/utils/navtexUtils.js:10-12 | When the first or second word is not a number, the part is `null`. |
| Navtex.ParsePartOneWord | src/utils/navtexUtils.js:9 | A single word is `null`. |
| Navtex.ParseNavtexCoord | src/utils/navtexUtils.js:22-25 | `null` exactly when either part is `null`. Otherwise the latitude and longitude are the two parts. |
| Navtex.Collected | src/utils/navtexUtils.js:31-35 | There are never more points than array elements. |
| Navtex.PointsOf | src/utils/navtexUtils.js:33-34 | One element gives at most one point. |
| Navtex.CollectPoints | src/utils/navtexUtils.js:31-36 | The loop returns the collected points of an array with no null element, and the TypeError otherwise. |
| Navtex.AnnouncementToPoints | src/utils/navtexUtils.js:29-37 | `[]` for a value that is not an array. For an array, the parsed points in order, skipping failures. A null element throws. |
| Navtex.CollectedAppend | src/utils/navtexUtils.js:32-35 | Collecting over two arrays in turn gives the first array's points followed by the second's, so the order is kept. |
| Navtex.CollectedFromEntries | src/utils/navtexUtils.js:32-35 | Every output point is what the parser gives for some element of the array. |
| Navtex.CollectedAllAccepted | src/utils/navtexUtils.js:32-35 | When every element parses, the output has one point per element, at the element's own index. |
| Navtex.CollectedNoneAccepted | src/utils/navtexUtils.js:32-35 | When no element parses, the output is empty. |

## Left out

- The Haversine formula `calculateDistance` (src/App.js:14-25) is not modelled. It is the parameter `dist`, because it is trigonometry over floating point. Its non-negativity and the triangle inequality are hypotheses of the lemmas that need them.
- Floating point is not modelled. Coordinates, distances, `min / 60`, midpoints and `parseFloat` results are exact reals, so rounding is not captured.
- JsNumber.ParseFloatNaN: the modelled `parseFloat` does not read `Infinity` or `-Infinity`, which JavaScript parses to infinite numbers; for those texts the model gives NaN.
- Navtex.ParsePart: a part whose first or second word is `Infinity` (such as `Infinity 0 K`) is an infinite number in JavaScript and `null` in the model.
- JsString.ToUpperChars: `toUpperCase` is modelled only for ASCII letters and the long s (U+017F); other characters are kept. JavaScript also maps other letters, some to more than one character (`ß` to `SS`). For the direction check this does not matter: only one-character results G, S, B and W negate, and the long s is the only character outside ASCII that upper-cases to one of them.
- The user-facing side effects are not modelled, because they do not change the modelled state:
  - antd `message` toasts;
  - `console.log`;
  - the commented-out `fetch` of `handleAnalyze`;
  - all rendering.
- Timers are not modelled, because they are asynchronous UI effects:
  - the `setTimeout` that clears `lastAddedIndex` after the marker animation (src/App.js:66-74);
  - the popup-closing timeout of the delete handler (src/components/MapView.js:116-123).
- Leaflet is not modelled, because it is a foreign library:
  - the icon builders, the map click handler, the marker refs and `closePopup` (src/components/MapView.js:8-49, 76-79);
  - `event.stopPropagation`;
  - how `getLatLng` obtains the dragged position, which is a parameter.
- React's state updates are applied at once, one handler call at a time. The batching of `useState` setters and stale closures are not modelled.
- App.RouteEditor.WaypointUpdate requires `index <= len`. An index greater than `len` would leave holes in the array, and `calculateTotalDistance` (src/App.js:34) would then throw on reading a hole. Its only caller is the drag-end handler of a rendered marker, whose index is in range.
- MapView.MapView.InsertWaypoint requires `afterIndex + 1 < len`. Its only callers are the "+" markers, and `MapView.MarkersAreInsertable` proves they meet this.
- Navtex.AnnouncementToPoints treats the elements of `ltdlng` as records with `latitude` and `longitude`, or as null/undefined. JavaScript values of other kinds (numbers, strings) are not distinguished. A `latitude` that is not a string is one `NonString` field.
- Navtex.CollectPoints takes the point parser as a parameter, so the loop is proved for any parser and then used with `ParseNavtexCoord`.
- Worked examples on fixed NAVTEX texts (such as `42 20.70 K` giving 42.345) are not included. `ParsePartOfWords` states the reading for any words.
- The route state holds a single speed (src/App.js:9). Per-leg speeds, bearings, hourly position projection and weather matching do not appear in these source files and are not modelled.
- `src/components/Sidebar.js` and `src/components/WaypointList.js` are not part of this model, because they are layout and forward the handlers. Their `canAnalyze` repeats the two-waypoint guard of `Analyze`.
- `src/components/MaritimeSymbolIcon.jsx`, `src/data/maritimeSymbols.js` and `src/config/api.js` are not part of this model, because they are presentation, static data and URL constants.
