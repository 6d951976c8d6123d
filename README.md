# Mission4 reporting wizard, modelled in Dafny

Mission4.js drives a six-page wizard for reporting a local issue. The pages are home, issue
type, details, location, contact and confirmation. The script:

- moves between the page sections;
- creates a Leaflet map, after a short delay, the first time the location page is shown;
- lets the user drop a marker by clicking the map;
- looks up a typed address, either as literal `lat, lng` coordinates or through the Nominatim
  geocoder;
- ends with an anonymous or a shared submission. A shared submission shows an 8-character
  reference number.

The model has four parts:

- `CoordPattern` (coord_pattern.dfy) is the coordinate-pair regular expression of
  `findAddress`, together with `String.prototype.trim`. Both are written as scanning
  functions. The pattern scanner is proved equal, in both directions, to a declarative
  description of the pattern: optional whitespace, a signed decimal with an optional
  fraction, optional whitespace, a comma, and the same again. `Trim` is pinned down by its
  own contract: the whitespace it removes at each end and the slice it keeps.
- `ReferenceCode` (reference_code.dfy) is `generateReference`. Its loop appends 8 characters
  drawn from `A`–`Z0`–`9`. The random choices are a parameter: 8 indices below 36. The method
  is proved to build exactly the code those draws name. The map from draws to codes is proved
  to be a bijection onto all 8-character codes over that alphabet.
- `WizardSpec` (wizard_spec.dfy) holds the page state as a value. Each handler is a function
  from the old state to the new one. Pending `setTimeout` callbacks and pending geocoding
  requests are lists, and the event loop may complete any one of them at any later time.
  The `Run` function plays a sequence of user, timer and network events. `WizardProperties`
  (wizard_properties.dfy) holds the lemmas: what each handler promises, and the invariant
  that every reachable state keeps. That invariant says:
  - exactly one page is active;
  - `currentPage` is in range;
  - a map exists only if Leaflet is loaded and `mapInitialized` is set;
  - a marker exists only on a map;
  - at most one map instance is ever created.
- `WizardController` (wizard_controller.dfy) is the script as it runs. It is a class whose
  fields are the script's module-level variables and the DOM state it writes. The page
  sections are an array of `active` flags that `ShowPage` updates in a loop. Every method is
  proved to change the state exactly as the matching `WizardSpec` function does. Every
  handler also keeps the invariant. The three internal helpers `ShowPage`, `InitMap` and
  `MoveTo` promise only the new state: `InitMap` on its own builds the map while
  `mapInitialized` is still false, and the invariant is restored by the callback that
  calls it.

Two behaviours of the code are easy to miss:

- `showPage` never changes `currentPage`. After `findAddress` or `reportAnonymous` shows
  another page, `nextPage` and `prevPage` still count from the old index.
- When the map library is missing, the deferred map creation still sets `mapInitialized`.
  Literal coordinates entered before the map is initialised only show the location page. The position
  itself is dropped (`WizardProperties.EarlyCoordinatesMoveNothing`).

The page must contain at least the six sections the code indexes (`LOCATION_PAGE_INDEX` = 3,
confirmation = 5). The model requires this of the controller's constructor.

## Model

| member | source | states |
|---|---|---|
| CoordPattern.Trim | Mission4.js:109 | the result is empty exactly when the input is all JavaScript whitespace; otherwise it starts and ends with a non-space character; and it is a contiguous slice of the input |
| CoordPattern.TrimKeeps | Mission4.js:109 | text that is non-empty and has no whitespace at either end is returned unchanged |
| CoordPattern.ScanNumber | Mission4.js:116 | a successful scan consumes at least one character, stays inside the text, and stops where no further digit follows |
| CoordPattern.ScanUnsigned | Mission4.js:116 | a successful scan of `\d+(\.\d+)?` consumes at least one character, stays inside the text, and stops where no further digit follows |
| CoordPattern.ScanNumberSound | Mission4.js:116 | the text a successful scan consumes is a number `[+-]?\d+(\.\d+)?` |
| CoordPattern.ScanNumberAt | Mission4.js:116 | at any number that is followed by neither a digit nor a point, or by the end of the text, the scan succeeds and consumes exactly that number |
| CoordPattern.MatchCoordPairSound | Mission4.js:116 | a match yields two numbers, and the text splits as whitespace, lat, whitespace, comma, whitespace, lon, whitespace |
| CoordPattern.MatchCoordPairComplete | Mission4.js:116 | every such split is found, with the same two capture groups |
| CoordPattern.MatchCoordPairCorrect | Mission4.js:116 | the scanner returns `(lat, lon)` if and only if the text matches the anchored pattern with groups 1 and 3 equal to `lat` and `lon` |
| CoordPattern.ClickedTextMatches | Mission4.js:103-116 | the text a map click writes into the address field (`lat, lng`) survives `trim` and matches the pattern with the same two numbers |
| CoordPattern.ExampleLiteralPair | Mission4.js:116 | `-41.2865, 174.7762` is recognised, with groups `-41.2865` and `174.7762` |
| CoordPattern.ExamplePlaceName | Mission4.js:116 | a place name such as `Wellington` is not a coordinate pair |
| CoordPattern.ExampleBarePoint | Mission4.js:116 | `41., 174` is rejected: a decimal point needs digits after it |
| ReferenceCode.AlphabetIsCodeChars | Mission4.js:200 | the alphabet has 36 characters, all upper-case letters or digits |
| ReferenceCode.IndexOf | Mission4.js:200 | every upper-case letter or digit has a position in the alphabet |
| ReferenceCode.GenerateReference | Mission4.js:199-206 | the loop returns the code that the 8 draws name, character by character, and that code is 8 characters from `A`–`Z0`–`9` |
| ReferenceCode.CodeOfIsCode | Mission4.js:199-206 | every valid sequence of draws yields a well-formed reference code |
| ReferenceCode.DrawsFor | Mission4.js:199-206 | every well-formed code is produced by some valid sequence of draws, so every code can occur |
| ReferenceCode.DrawsForCodeOf | Mission4.js:200-203 | the code determines the draws, so different draws give different codes |
| WizardProperties.InitInv | Mission4.js:4-14 | the state after loading satisfies the invariant, with page 0 active |
| WizardProperties.ShowPageActive | Mission4.js:17-21 | after `showPage(i)` exactly page `i` is active, the page count is unchanged, and nothing besides the pages and the timers changes (`currentPage` included) |
| WizardProperties.ShowPageSchedules | Mission4.js:24-38 | only the location page schedules work: the map creation before the map is initialised, and a size refresh after |
| WizardProperties.ShowPageInv | Mission4.js:17-38 | showing an in-range page keeps the invariant |
| WizardProperties.NextPageMoves | Mission4.js:43-48 | below the last page, `nextPage` advances `currentPage` by one and shows that page; on the last page it changes nothing; the invariant is kept |
| WizardProperties.PrevPageMoves | Mission4.js:49-54 | above page 0, `prevPage` goes back one page and shows it; on page 0 it changes nothing; the invariant is kept |
| WizardProperties.NextThenPrev | Mission4.js:43-54 | below the last page, `prevPage` after `nextPage` returns to the same page, with it active |
| WizardProperties.SelectIssueIsNextPage | Mission4.js:60-63 | `selectIssue` records the issue and otherwise acts exactly as `nextPage` |
| WizardProperties.InitMapIdempotent | Mission4.js:66-91 | a second `initMap` changes nothing, and one call creates at most one map |
| WizardProperties.CreateMapFires | Mission4.js:27-30 | the deferred callback sets `mapInitialized` and removes itself; with the library and no map yet, it creates the map at the Wellington view with the default marker |
| WizardProperties.NoLibraryNoMap | Mission4.js:68-71 | without the library no callback creates a map or a marker, yet the creation callback still sets `mapInitialized` |
| WizardProperties.NoCreationAfterInit | Mission4.js:26-38 | once `mapInitialized` is set, `showPage` schedules no further map creation |
| WizardProperties.FireKeepsMap | Mission4.js:73-77 | once a map exists, no callback replaces it, moves it or touches its marker |
| WizardProperties.ClickPlacesMarker | Mission4.js:94-104 | a map click puts the single marker at the clicked point with a `Selected` popup, writes `lat, lng` into the address field, and leaves the view alone |
| WizardProperties.EmptyAddressAlerts | Mission4.js:109-113 | an address of only whitespace raises the "enter an address" alert and changes nothing else |
| WizardProperties.CoordinatesSkipGeocoder | Mission4.js:116-130 | literal coordinates send no geocoding request and raise no alert; with a map, they zoom to 16 on the point and place the marker with a `Coordinates` popup |
| WizardProperties.EarlyCoordinatesMoveNothing | Mission4.js:120-128 | coordinates entered before the map is initialised only show the location page and schedule its creation; no map or marker appears and `currentPage` stays |
| WizardProperties.OtherTextQueriesGeocoder | Mission4.js:132-142 | non-empty text that is not a coordinate pair sends one geocoding request for the trimmed text and changes nothing else |
| WizardProperties.ClickThenFind | Mission4.js:94-130 | clicking the map and then searching moves the view and marker to the clicked point, without a geocoding request |
| WizardProperties.ReplyOutcomes | Mission4.js:143-163 | the answer settles its own request and keeps the invariant. A failure raises the error alert, an empty result raises "not found", and a first result moves the map to it under its display name, or under the query when the name is missing. With no map, a first result moves nothing; if the map was never initialised it shows the location page and schedules the creation, and `currentPage` stays |
| WizardProperties.AnonymousHidesReference | Mission4.js:167-172 | reporting anonymously clears the shared flag, shows the confirmation page without changing `currentPage`, hides the reference, and keeps the invariant |
| WizardProperties.SubmitMissingField | Mission4.js:193-195 | with the name or the email empty, submitting raises the "fill name and email" alert and changes nothing else |
| WizardProperties.SubmitConfirms | Mission4.js:181-192 | with both fields filled, the confirmation page is shown, and the reference is visible exactly when details were shared, holding the code the draws name |
| WizardProperties.ShareThenSubmit | Mission4.js:173-192 | sharing details shows the contact form, and a complete submission then shows a well-formed reference code |
| WizardProperties.StepPreservesInv | Mission4.js:43-196 | every handler, callback and geocoding answer keeps the invariant, the number of pages, the library's presence and an existing map |
| WizardProperties.RunPreservesInv | Mission4.js:43-196 | any sequence of events keeps the same four things |
| WizardProperties.Reachable | Mission4.js:4-196 | from page load, every reachable state has one active page among the original sections, an in-range `currentPage`, at most one map, and a map only when Leaflet is loaded and the map is initialised |
| WizardProperties.RunKeepsInitialized | Mission4.js:26-30 | once `mapInitialized` is set, no sequence of events clears it, with or without a map |
| WizardProperties.RunKeepsMap | Mission4.js:66-105 | once a map exists it stays, is never created again, and `mapInitialized` stays set |
| WizardController.Controller.constructor | Mission4.js:4-57 | loading the script yields the initial state with page 0 active, and the invariant holds |
| WizardController.Controller.ShowPage | Mission4.js:17-40 | the loop sets each page's `active` flag to whether it is the requested page, then schedules the location page's callback; the new state is `WizardSpec.ShowPage` of the old one |
| WizardController.Controller.NextPage | Mission4.js:43-48 | the new state is `WizardSpec.NextPage` of the old one, and the invariant holds |
| WizardController.Controller.PrevPage | Mission4.js:49-54 | the new state is `WizardSpec.PrevPage` of the old one, and the invariant holds |
| WizardController.Controller.SelectIssue | Mission4.js:60-63 | the new state is `WizardSpec.SelectIssue`, and the invariant holds |
| WizardController.Controller.InitMap | Mission4.js:66-91 | the new state is `WizardSpec.InitMap` |
| WizardController.Controller.FireTimer | Mission4.js:27-37 | running a pending callback moves the state as `WizardSpec.FireTimer`, and the invariant holds |
| WizardController.Controller.MapClick | Mission4.js:94-104 | the new state is `WizardSpec.MapClick`, and the invariant holds |
| WizardController.Controller.TypeAddress | Mission4.js:109 | editing the address field changes only that field, as `WizardSpec.TypeAddress` says |
| WizardController.Controller.MoveTo | Mission4.js:120-128 | the shared tail of both search branches moves the state as `WizardSpec.MoveTo` |
| WizardController.Controller.FindAddress | Mission4.js:108-142 | the new state is `WizardSpec.FindAddress`, and the invariant holds |
| WizardController.Controller.GeocodeReply | Mission4.js:143-163 | answering a pending request moves the state as `WizardSpec.GeocodeReply`, and the invariant holds |
| WizardController.Controller.ReportAnonymous | Mission4.js:167-172 | the new state is `WizardSpec.ReportAnonymous`, and the invariant holds |
| WizardController.Controller.ShareDetails | Mission4.js:173-177 | the new state is `WizardSpec.ShareDetails`, and the invariant holds |
| WizardController.Controller.SubmitReport | Mission4.js:178-196 | the new state is `WizardSpec.SubmitReport`, with the reference built by `GenerateReference`, and the invariant holds |

## Left out

- DOM lookups: every element the script looks up (`address-input`, `name`, `email`,
  `reference-container`, `reference-number`, `contact-form`) is assumed present. Its value or
  style is a field of the state, so the `|| {value:''}` and `if (el)` fallbacks are not
  modelled.
- Leaflet internals: the tile layer, popup opening and `invalidateSize` are left out. The
  size refresh changes no modelled state, so the `RefreshSize` callback only removes itself.
  The map is reduced to its view (centre and zoom) and the single marker.
- Numbers: `parseFloat`, `toFixed(5)` and the printing of floats in popups are left out.
  Coordinates stay the text they were typed or printed as, and a map click is given as its
  two `toFixed(5)` strings. The `Coordinates:` popup therefore holds the matched text, where
  the page prints the parsed float (for example `+1.50` prints as `1.5`).
- Network: `fetch`, `res.json()` and the URL encoding of the query are left out. A reply is
  either `Failed` (network or parse error) or a list of places. A JSON value that is not a
  list of places, and a `null` body, fall outside the model. A missing `display_name` is the
  empty string.
- Timing: the 60 ms and 100 ms delays and the order of callbacks and replies are not modelled.
  Any pending callback or request may complete next. Concurrent `findAddress` calls are
  separate pending requests, and whichever answers last wins.
- `console.error` messages are not modelled. `alert` calls are recorded as a list of alerts.
- Randomness: `Math.random` is replaced by the 8 draws the caller supplies.
- Markup: the initial visibility of the contact form and the reference container comes from
  the HTML, which is not part of this model. Both are taken to start hidden.
- Event wiring: the buttons and inputs that call the handlers belong to the HTML, which is not
  part of this model. Any handler may be invoked at any time.
- WizardController.Controller.ShowPage: does not promise the invariant itself. Its callers
  get it from `WizardProperties.ShowPageInv`, which needs an in-range index. An out-of-range
  index leaves no page active, as it would in the source, which only passes in-range indices.
- WizardController.Controller.SubmitReport: requires valid draws even when the submission is
  anonymous or incomplete and no reference is drawn.
