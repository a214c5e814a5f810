# SIS dashboard: client state and server request rules

A Dafny model of the two pieces of logic in the SIS inventory dashboard.

- **The dashboard page** (`static/js/sis_index.js`) is the class `SisDashboard.Dashboard`. It holds:
  - the body's dark-mode flag, the theme button's glyph and the `theme` entry in localStorage;
  - the `activeCharts` handle table, as a map from the four slots (bar, line, doughnut, trend) to the live chart's first dataset and palette;
  - the log of handles that `destroy()` was called on;
  - the city carousel's `scrollPosition` and the visibility of its prev/next buttons.

  Its methods follow the page's functions: `setupTheme`, the toggle handler, `destroyCharts`, `initAllCharts`, `updateScroll`, the two click handlers, `setupCityNavigation` and `updateChartsData`. Each method is proved against value-level functions: `Mounted`, `Patched`, `Released`, `PrevOffset` and `NextOffset`. Lemmas state what the page promises about those functions.
- **The server** (`sis_index.py`) is module `SisServer`:
  - `get_stats` is a pure function over the fixed three-site table;
  - `login` is a pure function over the user rows;
  - `register_user` is a method of `UserTable` that appends to the rows.
- **The wire between them** is module `StatsWire`. Its definitions `ArrayField` and `ParsePayload` turn a reply body into the optional fields that `updateChartsData` reads. It also models a city pill's click once its fetch has settled.

The server's stats reply has the keys `inventariado`, `pendiente` and `total_activos`, or `error`. The client reads `distribution`, `processed`, `status` and `trend`. `StatsWire.ServerReplyPatchesNothing` proves that no reply the server can send changes any chart. It is not clear which side holds the intended field names, so the model records the mismatch and does not correct either side.

Two behaviours of the code are worth noting, and the model keeps both as written:
- The carousel offset stays within `[0, maxScroll]` only while the layout stays fixed with `maxScroll >= 0` (`FromStartStaysInBounds`, `ClickThrough`).
  - With content no wider than its viewport and a fixed layout, `maxScroll` is at most 0. Setup then hides both buttons, so no click happens (`NarrowLayoutHidesBoth`).
  - `maxScroll` is re-read from the layout on every click. If the layout narrows after a button was shown, a next click can drive the offset below 0 (`LayoutShrinkGoesNegative`).
  - In the same way, a prev click can leave the offset beyond the new `maxScroll` (`LayoutShrinkLeavesOffsetPastEnd`).
- The stats endpoint does not return the payload shape the client expects (see above).

## Model

| member | source | states |
|---|---|---|
| SisDashboard.Dashboard.constructor | static/js/sis_index.js:2-7 | before load, every chart handle is absent, the page is light, and localStorage holds the given theme value |
| SisDashboard.Dashboard.SetupTheme | static/js/sis_index.js:17-23 | dark mode is switched on, with the moon glyph, exactly when the stored value is the string 'dark'; nothing else changes |
| SisDashboard.Dashboard.ToggleTheme | static/js/sis_index.js:25-35 | the mode flips; the stored theme becomes 'dark' exactly when the new mode is dark; the glyph follows; every live handle is destroyed and the table is rebuilt from the mounted slots in the new palette |
| SisDashboard.StoredThemeRoundTrip | static/js/sis_index.js:20-28 | the value the toggle writes makes the next startup choose the mode the toggle selected |
| SisDashboard.Dashboard.DestroyCharts | static/js/sis_index.js:55-62 | the table ends empty, and the destroyed-handle log grows by exactly the live handles in slot order |
| SisDashboard.ReleasedExactlyLive | static/js/sis_index.js:55-60 | a slot is destroyed exactly when it holds a live handle |
| SisDashboard.ReleasedOnce | static/js/sis_index.js:55-60 | no handle is destroyed twice in one call |
| SisDashboard.ReleasedNothing | static/js/sis_index.js:55-62 | destroying an empty table destroys nothing, so a second destroyCharts is a no-op |
| SisDashboard.Released | static/js/sis_index.js:56-60 | no more destroys than visited slots, and every slot destroyed is a live slot that the loop visits |
| SisDashboard.Mounted | static/js/sis_index.js:81-210 | after init, the live slots are the old ones plus the mounted ones; each mounted slot holds a new chart with its fixed dataset in the current palette; an unmounted slot keeps what it held |
| SisDashboard.Dashboard.InitAllCharts | static/js/sis_index.js:65-211 | the table becomes the Mounted table, with the palette taken from the dark-mode flag; nothing else changes |
| SisDashboard.Patched | static/js/sis_index.js:259-279 | an update never adds or removes a slot and never changes a palette; a live slot takes its payload field when that field is present and is otherwise unchanged |
| SisDashboard.PatchedSlotBySlot | static/js/sis_index.js:260-278 | the four guarded assignments, run in source order, give the Patched table |
| SisDashboard.Dashboard.UpdateChartsData | static/js/sis_index.js:259-279 | the table becomes the Patched table; nothing else changes |
| SisDashboard.DistributionOnlyTouchesBar | static/js/sis_index.js:260-278 | a payload with only `distribution` changes only the bar chart |
| SisDashboard.PatchAfterDestroy | static/js/sis_index.js:259-279 | once the table is empty, an update changes nothing |
| SisDashboard.PrevOffset | static/js/sis_index.js:230-233 | the new offset is max(0, old - 200): never negative, never further right than a non-negative start |
| SisDashboard.NextOffset | static/js/sis_index.js:235-239 | the new offset is min(maxScroll, old + 200): never beyond maxScroll, never further left than a start within bounds |
| SisDashboard.ClicksAtBounds | static/js/sis_index.js:222-239 | prev at 0 stays at 0; next at maxScroll stays there; a click on a visible button moves the offset |
| SisDashboard.ClicksStayInBounds | static/js/sis_index.js:230-239 | from an offset in [0, maxScroll], any run of clicks stays in [0, maxScroll] |
| SisDashboard.FromStartStaysInBounds | static/js/sis_index.js:218-239 | from the initial offset 0, with maxScroll >= 0, any run of clicks stays in [0, maxScroll] |
| SisDashboard.NarrowContentGoesNegative | static/js/sis_index.js:235-239 | the arithmetic of line 237: with a negative maxScroll, next from 0 gives a negative offset (reachable only through a layout change; see LayoutShrinkGoesNegative) |
| SisDashboard.ClickThrough | static/js/sis_index.js:218-241 | on a fixed layout with maxScroll >= 0, pressing the shown buttons in any order ends at the offset AfterClicks gives, within [0, maxScroll] |
| SisDashboard.NarrowLayoutHidesBoth | static/js/sis_index.js:222-241 | with a fixed maxScroll <= 0 (content no wider than its viewport), setup hides both buttons |
| SisDashboard.LayoutShrinkGoesNegative | static/js/sis_index.js:222-239 | next shown for maxScroll 300, then clicked after the layout narrows to -50: the offset becomes -50 |
| SisDashboard.LayoutShrinkLeavesOffsetPastEnd | static/js/sis_index.js:222-239 | two next clicks at maxScroll 1000, then prev after the layout narrows to 100: the offset is 200, beyond maxScroll |
| SisDashboard.Dashboard.UpdateScroll | static/js/sis_index.js:222-228 | prev is hidden exactly when the offset is <= 0; next is hidden exactly when the offset is >= maxScroll |
| SisDashboard.Dashboard.SetupCityNavigation | static/js/sis_index.js:214-241 | the offset starts at 0; with the carousel present, prev is hidden and next is shown exactly when maxScroll > 0 |
| SisDashboard.Dashboard.ClickPrev | static/js/sis_index.js:230-233 | callable only while prev is shown; the offset becomes PrevOffset of the old one, stays within [0, maxScroll] when it started there, and the buttons follow |
| SisDashboard.Dashboard.ClickNext | static/js/sis_index.js:235-239 | callable only while next is shown; the offset becomes NextOffset of the old one, stays within [0, maxScroll] when it started there, and the buttons follow |
| SisDashboard.Dashboard.Load | static/js/sis_index.js:10-14 | after load, dark mode and the moon glyph are on when the stored value is 'dark', and the glyph is otherwise unchanged; every mounted chart then uses the dark palette; the offset is 0; with the carousel present, prev is hidden and next is shown exactly when maxScroll > 0 |
| StatsWire.SelectCity | static/js/sis_index.js:220-255 | reachable only when the carousel is present; a failed fetch changes no chart; a successful one patches the table with the parsed body; theme, glyph, offset and button visibility are unchanged |
| StatsWire.NoChartFields | sis_index.py:100-117 | the error record and the site records hold none of the four keys the client reads |
| StatsWire.ServerReplyHasNoChartFields | sis_index.py:97-117 | for every pill text, the parsed server reply has all four fields absent |
| StatsWire.ServerReplyPatchesNothing | static/js/sis_index.js:259-279 | for every pill text, the real server's reply leaves every chart as it was |
| SisServer.LowerChar | sis_index.py:117 | an upper-case ASCII letter becomes its lower-case letter; every other character is kept; no upper-case letter is left |
| SisServer.Lower | sis_index.py:117 | lower-casing keeps the length and maps each character to its lower-case form |
| SisServer.LowerIdempotent | sis_index.py:117 | lower-casing twice is lower-casing once |
| SisServer.GetStats | sis_index.py:97-117 | the reply is an error record exactly when the lower-cased key is not lima, arequipa or trujillo; otherwise it has exactly the three stats keys, and inventariado + pendiente == 100 |
| SisServer.GetStatsCaseInsensitive | sis_index.py:117 | get_stats(s) equals get_stats(lower(s)) |
| SisServer.GetStatsLima | sis_index.py:101-105 | 'Lima' gets the record 75 / 25 / 1500 |
| SisServer.GetStatsArequipa | sis_index.py:106-110 | 'AREQUIPA' gets the record 60 / 40 / 800 |
| SisServer.GetStatsTrujillo | sis_index.py:111-115 | 'trujillo' gets the record 85 / 15 / 600 |
| SisServer.GetStatsUnknownSite | sis_index.py:117 | every site whose lower-cased name is not lima, arequipa or trujillo gets {"error": "Sede no encontrada"} |
| SisServer.FirstMissing | sis_index.py:74-83 | the KeyError raised names the first key, in reading order, that is absent from the request; there is none exactly when all listed keys are present |
| SisServer.NewUser | sis_index.py:78-84 | the new row copies every field, and stores the password verbatim |
| SisServer.UserTable.constructor | sis_index.py:29-40 | the user table starts empty |
| SisServer.UserTable.Register | sis_index.py:71-88 | a missing password or DNI raises KeyError; a 400 is given exactly when both are present and equal, and leaves the rows unchanged; otherwise the first missing one of the five fields raises KeyError; success happens exactly when all five fields are present and password != DNI, and then exactly one row is appended |
| SisServer.FirstWithEmail | sis_index.py:92 | the index found is the first row with that email; none is found exactly when no row has it |
| SisServer.Login | sis_index.py:90-95 | success happens exactly when the first row with the given email exists and its stored password equals the supplied one; with both keys present every failure is 401; a missing email raises KeyError; a missing password raises KeyError exactly when a row with that email exists; an email no row has gets 401, whether or not a password was supplied |
| SisServer.LoginUnknownEmail | sis_index.py:92-94 | an unknown email is refused with 401, whatever the password |
| SisServer.LoginIgnoresLaterRows | sis_index.py:92-95 | rows appended later never change a login for an email that already has a row |
| SisServer.FirstWithEmailPrefix | sis_index.py:92 | appending rows does not move the first match of an email that is already present |
| SisServer.FirstWithEmailAppended | sis_index.py:92 | an appended row is the first match for its email when no earlier row has that email |
| SisServer.LoginAfterRegister | sis_index.py:78-95 | a user who registers with a new email can then log in with the password they registered |

## Left out

- Chart.js configuration is not modelled: colours, fonts, animation, scales, labels and `Chart.defaults`. A chart keeps only its first dataset and its palette (light or dark).
- The `.update()` redraws, the CSS transform and the DOM writes are reduced to field changes. `destroy()` becomes an entry in the `released` log.
- The 50 ms `setTimeout` before the rebuild is not modelled: a toggle is destroy followed at once by init. So the model does not capture overlapping rebuilds after rapid toggles.
- The asynchronous fetch is reduced to its settled body (`Option<Object>`): the network, the `response.ok` check, JSON parsing and `console.error`. The model does not capture the race between overlapping fetches.
- StatsWire.ArrayField: a reply field that holds a truthy non-array value (a number, a non-empty string) is treated as absent, where the page would assign it to the dataset; payload fields are arrays or absent. A present empty array counts as present, as JavaScript treats `[]` as truthy.
- localStorage is the `storedTheme` field. Storage failures are not modelled.
- The page template is not part of this model. The body is taken to start in light mode with the sun glyph.
- The theme button is assumed to exist. Without it, `setupTheme` throws and the rest of the load handler does not run.
- The prev, next and pill click handlers are registered only when the carousel is present. Their methods therefore require `carouselMounted`. A button hidden by updateScroll receives no clicks, so ClickPrev and ClickNext also require that their button is shown.
- FastAPI routing, CORS, templates, static mounting, dotenv and the SQLAlchemy engine/session lifecycle are left out.
- The database's unique constraints on email and DNI are left out. Register always appends once its checks pass.
- Request bodies are modelled as dicts of strings. A missing key is the uncaught KeyError that FastAPI answers with 500.
- `.first()` has no `order_by` in the source. The model takes insertion order.
- `BACKUP/sis_index.js` is not part of this model.
- SisServer.LowerChar: folds only the ASCII capitals `A`-`Z`; every other character, including non-ASCII capitals such as `Á` that Python's `str.lower` folds, is kept as it is.
- SisServer.Lower: models Python's `str.lower` on ASCII letters only; every other character is left as it is. For the three ASCII site keys this changes no lookup. The non-ASCII characters that lower to ASCII letters are the Kelvin sign, which gives `k`, and `İ`, which gives `i` plus a combining dot. Neither can produce one of the keys.
