# Andrei Auto Trans page logic, modelled in Dafny

This project models the logic in `assets/js/main.js`, the script behind the
Andrei Auto Trans website (passenger transport between Romania and the UK).
Under the DOM and Leaflet glue there are five pieces of logic:

- **WhatsApp link** (`buildWaLink`). The configured number keeps only `+` and
  digits, and then one leading `+` is dropped. The message (a default one when
  no argument is given) is encoded with `encodeURIComponent`. The link is
  `https://wa.me/<phone>?text=<encoded>`.
  Modules: `UriEncoding` (`uri_encoding.dfy`) and `WaLink` (`wa_link.dfy`).
- **Routed map** (`createRoutedMap`). It adds one circle marker per stop, in
  stop order. The first and last stops get radius 6 in green; the others get
  radius 5 in blue. The waypoints are the stop positions in order. On each
  routing error, the same waypoint list is drawn as a dashed straight line.
  A missing mount element gives no map.
  Module: `RoutedMap` (`routed_map.dfy`).
- **Map lock** (`addMapLock`). The map starts behind an overlay with its four
  interactions off. A click on the overlay hides it, turns on dragging, touch
  zoom and double-click zoom (but not scroll-wheel zoom), and schedules a
  timer. When that timer expires, the overlay comes back and all four
  interactions are turned off again.
  Module: `MapLock` (`map_lock.dfy`).
- **City list toggle** (`initCityToggle`). A closure flag is read once from
  the list's `data-collapsed` attribute. Each click flips it, writes it back
  and redraws the list (max-height, overflow) and the button label.
- **City list filter** (`initCityFilter`). The query is trimmed and
  lower-cased. An item is shown exactly when its lower-cased text contains
  the query. Every input event also forces the list open (attribute
  `"false"`, `1000px`, `visible`) without updating the toggle's closure flag.
  Modules: `JsStrings` (`js_strings.dfy`) and `CityList` (`city_list.dfy`).

Pure logic is modelled as functions and lemmas. The DOM elements and the
Leaflet map, whose fields the script changes in place, are modelled as classes
with event methods. Timers and routing errors become explicit events.
The class methods are tied to the pure definitions as follows:

- `MapLock.MapLock.OnOverlayClick` and `MapLock.MapLock.OnTimerExpired` move
  the lock as `MapLock.Step` says. The invariants are proved about `Step`
  over arbitrary sequences of events.
- `CityList.CityToggle.OnClick` and `CityList.FilterBesideToggle` move the
  list as `CityList.Step` says, and the same holds for sequences of events.
- `CityList.CityToggle.UpdateState` draws the list as `CityList.Drawn` says.
- `CityList.CityFilter.OnInput` sets each item's display to
  `CityList.ItemDisplay`.
- `MapLock.MapLock.DisableInteractions` and the methods of
  `RoutedMap.LeafletMap` and `RoutedMap.RoutingControl` state the fields they
  set or the layer they append directly. `RoutedMap.CreateRoutedMap` ends
  with exactly `RoutedMap.Markers` and `RoutedMap.Waypoints`.

Two facts about `assets/js/main.js` that shape the model:

- `main.js` has no map resize correction: it never calls `invalidateSize`.
  Its deferred steps are the 1.5-second timer that installs the map locks
  and the 4-second timer that each overlay click schedules. So there is no
  resize correction in this model.
- `createRoutedMap` does not check the number of stops. With one stop, that
  stop is both first and last and gets the endpoint marker; with none there
  are no markers. The model does the same.

## Model

| member | source | states |
|---|---|---|
| `UriEncoding.Utf8` | assets/js/main.js:16 | each scalar value becomes 1 to 4 UTF-8 bytes, and exactly one byte when it is ASCII |
| `UriEncoding.EncodeUriComponent` | assets/js/main.js:16 | every character of the encoding is one of A-Z a-z 0-9 `- _ . ! ~ * ' ( )` or belongs to a `%XX` triple of upper-case hex digits |
| `UriEncoding.PercentDecodeEncoded` | assets/js/main.js:16 | reading the `%XX` triples and unescaped characters back gives exactly the message's UTF-8 bytes |
| `UriEncoding.Utf8DecodeEncoded` | assets/js/main.js:16 | strict UTF-8 decoding of the message's bytes gives the message back |
| `UriEncoding.DecodeEncode` | assets/js/main.js:16 | decoding the encoded message gives the message back, for every message |
| `UriEncoding.EncodeInjective` | assets/js/main.js:16 | two different messages never get the same encoding |
| `UriEncoding.EncodeUnescapedIdentity` | assets/js/main.js:16 | text made only of unescaped characters is its own encoding |
| `WaLink.KeepPhoneChars` | assets/js/main.js:15 | the cleaned number is no longer than the input and holds only `+` and digits; it is a sub-multiset of the input that keeps every `+` and digit as often as it occurs |
| `WaLink.KeepDigits` | assets/js/main.js:15 | only digits remain, each digit of the input as often as it occurs, and nothing else |
| `WaLink.KeepPhoneCharsAppend` | assets/js/main.js:15 | the cleaning keeps order: cleaning `a + b` is cleaning `a`, then cleaning `b` |
| `WaLink.KeepDigitsAppend` | assets/js/main.js:15 | keeping the digits of `a + b` is keeping those of `a`, then those of `b` |
| `WaLink.StripLeadingPlus` | assets/js/main.js:17 | the result is the input, or the input is `+` followed by the result; it is shorter exactly when the input starts with `+` |
| `WaLink.PhoneSegment` | assets/js/main.js:15-17 | the phone segment holds only `+` and digits |
| `WaLink.NoPlusKeepsDigits` | assets/js/main.js:15 | for a number without `+`, the cleaning keeps exactly its digits |
| `WaLink.NumberWithoutPlus` | assets/js/main.js:15-17 | for `+` followed by digits, the cleaning changes nothing and the phone segment is the digits |
| `WaLink.PhoneSegmentIsDigits` | assets/js/main.js:15-17 | when no `+` or digit comes before a `+`, the phone segment is exactly the number's digits |
| `WaLink.PhoneSegmentOfConfiguredNumber` | assets/js/main.js:11-17 | for the configured number `+40757283580` the phone segment is `40757283580` |
| `WaLink.Link` | assets/js/main.js:14-18 | reading the link back gives exactly the number's phone segment and the message it was built from |
| `WaLink.BuildWaLink` | assets/js/main.js:11-18 | the page's link is `https://wa.me/` + `40757283580` + `?text=` + the encoded message, the default message when no argument is given, and it reads back as that phone segment and that message |
| `WaLink.ParseLinkOfParts` | assets/js/main.js:17 | a link assembled from a phone segment of `+` and digits and an encoded message reads back as that segment and that message |
| `WaLink.LinkInjective` | assets/js/main.js:14-18 | equal links carry the same phone segment and the same message |
| `RoutedMap.Markers` | assets/js/main.js:79-88 | exactly one marker per stop, in stop order, at the stop's position with its name as popup; radius 6 and `#22c55e` iff the index is the first or the last, radius 5 and `#1e3a8a` otherwise; weight 2 and fillOpacity 1 on all |
| `RoutedMap.Waypoints` | assets/js/main.js:90 | the waypoint list has as many entries as there are stops, and entry i is stop i's coordinates unchanged |
| `RoutedMap.EndpointMarkerCount` | assets/js/main.js:79-88 | exactly two markers carry the endpoint style when there are two or more stops (one for a single stop) |
| `RoutedMap.FallbackFollowsStops` | assets/js/main.js:90-105 | the fallback line passes through every stop's position in stop order, dashed `6,6`, in `#2370ff` |
| `RoutedMap.LeafletMap.constructor` | assets/js/main.js:74 | a new map has no layers and no framing, and scroll-wheel zoom is off |
| `RoutedMap.LeafletMap.FitBounds` | assets/js/main.js:76 | the map is framed on the given bounds |
| `RoutedMap.LeafletMap.AddMarker` | assets/js/main.js:80-86 | the marker is appended to the map's markers |
| `RoutedMap.LeafletMap.AddLine` | assets/js/main.js:104 | the line is appended to the map's lines |
| `RoutedMap.RoutingControl.constructor` | assets/js/main.js:92-93 | the control holds the map and the waypoint list it is given |
| `RoutedMap.RoutingControl.OnRoutingError` | assets/js/main.js:103-105 | each routing error appends one dashed fallback line through the control's waypoints |
| `RoutedMap.CreateRoutedMap` | assets/js/main.js:70-108 | a missing element gives no map and builds nothing; otherwise a fresh map framed on the bounds (if any) holds exactly `Markers(stops)` and no lines, its control holds `Waypoints(stops)`, and scroll-wheel zoom is off |
| `MapLock.ClickAsymmetry` | assets/js/main.js:242-248 | a click hides the overlay and turns dragging, touch zoom and double-click zoom on, leaves scroll-wheel zoom as it was, and schedules one more timer |
| `MapLock.TimerRelocks` | assets/js/main.js:249-252 | whenever a pending timer expires, the overlay is back, all four interactions are off, and one timer fewer is pending; after the last one the map is locked as after `addMapLock` |
| `MapLock.RunKeepsInvariant` | assets/js/main.js:233-252 | over any sequence of clicks and timer expiries: scroll-wheel zoom stays off, the other three interactions are on exactly while the overlay is hidden, and the overlay is hidden only while a timer is pending |
| `MapLock.ScrollWheelStaysOff` | assets/js/main.js:233-252 | after `addMapLock`, no sequence of events ever turns scroll-wheel zoom on |
| `MapLock.ClickThenTimer` | assets/js/main.js:242-252 | with no timer pending, a click followed by the expiry of its timer gives back the locked state |
| `MapLock.MapLock.constructor` | assets/js/main.js:227-231 | a new lock shows its overlay and has no timer pending |
| `MapLock.MapLock.DisableInteractions` | assets/js/main.js:233-238 | all four interactions of the map are off |
| `MapLock.MapLock.OnOverlayClick` | assets/js/main.js:242-248 | the lock and its map move as `Step(_, OverlayClick)` says |
| `MapLock.MapLock.OnTimerExpired` | assets/js/main.js:249-252 | the lock and its map move as `Step(_, TimerExpired)` says |
| `MapLock.AddMapLock` | assets/js/main.js:225-240 | a missing map gives nothing; otherwise the map is locked (all four interactions off, overlay shown, no timer) and its layers and framing are untouched |
| `JsStrings.TrimStart` | assets/js/main.js:203 | the result is a suffix of the input, everything dropped is whitespace, and it does not start with whitespace |
| `JsStrings.TrimEnd` | assets/js/main.js:203 | the result is a prefix of the input, everything dropped is whitespace, and it does not end with whitespace |
| `JsStrings.Trim` | assets/js/main.js:203 | the trimmed query neither starts nor ends with whitespace |
| `JsStrings.TrimEmptyIffBlank` | assets/js/main.js:203 | trimming leaves the empty string exactly when the input is all whitespace |
| `JsStrings.TrimIsInfix` | assets/js/main.js:203 | the trimmed query is a contiguous part of the input with only whitespace before and after it |
| `JsStrings.Lower` | assets/js/main.js:203-208 | lower-casing keeps the length and maps each character on its own |
| `JsStrings.LowerIdempotent` | assets/js/main.js:203-208 | lower-casing twice is lower-casing once |
| `JsStrings.TrimLowerCommute` | assets/js/main.js:203 | trimming and lower-casing can be done in either order |
| `JsStrings.ContainsIffOccurs` | assets/js/main.js:208 | `includes` holds exactly when the query occurs at some position of the text |
| `JsStrings.ContainsEmpty` | assets/js/main.js:208 | every text includes the empty query |
| `CityList.PresentationDistinguishes` | assets/js/main.js:174-184 | the drawn state depends on the flag alone: the label tells the two states apart, and overflow is `hidden` exactly when collapsed |
| `CityList.ClickSyncs` | assets/js/main.js:186-190 | a click flips the flag, and afterwards the attribute reads `"true"` iff collapsed and style and label match the flag |
| `CityList.TwoClicksRestore` | assets/js/main.js:186-190 | two clicks give back the flag, and the whole state when attribute, style and label agreed with it |
| `CityList.ClickParity` | assets/js/main.js:186-190 | after n clicks the flag has flipped exactly when n is odd |
| `CityList.FilterLeavesToggle` | assets/js/main.js:202-206 | an input event sets the attribute to `"false"`, max-height `1000px` and overflow `visible`, and leaves the toggle's flag and the label alone |
| `CityList.RunConsistent` | assets/js/main.js:172-209 | over any mix of clicks and input events: an attribute reading `"true"` means collapsed, the label follows the flag, and the style is the flag's or the filter's forced-open one |
| `CityList.AttributeTrueMeansCollapsed` | assets/js/main.js:172-204 | the initial flag is collapsed iff the attribute was exactly `"true"`, and from then on the attribute reads `"true"` only while collapsed |
| `CityList.ItemDisplayMeaning` | assets/js/main.js:207-209 | an item's display is `""` iff the trimmed, lower-cased query occurs in its lower-cased text, and `"none"` otherwise |
| `CityList.BlankQueryShowsAll` | assets/js/main.js:203-208 | an empty or whitespace-only query shows every item |
| `CityList.MatchIgnoresCase` | assets/js/main.js:203-208 | lower-casing the text or the query beforehand does not change whether an item matches |
| `CityList.ExactTextMatches` | assets/js/main.js:208 | a query equal to an item's whole text (after normalising) shows it |
| `CityList.CityToggle.constructor` | assets/js/main.js:172 | the flag is collapsed exactly when the attribute is `"true"` |
| `CityList.CityToggle.UpdateState` | assets/js/main.js:174-184 | collapsed gives (`320px`, `hidden`, "Arată mai multe"), expanded gives (`2000px`, `visible`, "Arată mai puține"); the attribute is untouched |
| `CityList.CityToggle.OnClick` | assets/js/main.js:186-190 | the list, the button and the flag move as `Step(_, ToggleClick)` says |
| `CityList.InitCityToggle` | assets/js/main.js:166-194 | without the list or the button nothing is changed or registered; otherwise the flag is read from the attribute and the state is drawn once |
| `CityList.CityFilter.constructor` | assets/js/main.js:201 | the filter captures the list's items |
| `CityList.CityFilter.OnInput` | assets/js/main.js:202-210 | the list is forced open with attribute `"false"`, and every captured item's display is `ItemDisplay` of its text and the current query |
| `CityList.InitCityFilter` | assets/js/main.js:196-201 | without the list or the input nothing is registered; otherwise the list's items are captured |
| `CityList.FilterBesideToggle` | assets/js/main.js:202-210 | an input event on a list that also has a toggle moves the toggle's view as `Step(_, FilterInput)` says, with its flag untouched |
| `CityList.InitToggleTwice` | assets/js/main.js:215-267 | each list gets two toggle closures (lines 215 and 267 for the Romanian list, 216 and 266 for the UK list), and both start from the same flag |
| `CityList.ClickWithBothHandlers` | assets/js/main.js:186-190 | one click running both closures' handlers flips them in lockstep and leaves the list as a single click would |

## Left out

- Leaflet itself, the tile layer and the routing plugin: map creation, tiles, the OSRM router at `router.project-osrm.org`, and the route line the plugin draws on success. These are a foreign library and network I/O. The model keeps only the markers, the framing, the waypoint list and the fallback line, and a routing error is an input event.
- Coordinates are integers, and the hard-coded stop lists and bounding boxes are not modelled. They are floating-point data, not logic.
- Smooth scrolling, the mobile menu toggle and `setAllWaLinks` are not modelled. They are browser behaviour, a single class flip, and a loop that sets the same link on whichever of five elements exist.
- The `DOMContentLoaded` wiring, `initMaps` and the 1.5 s and 4 s timers are not modelled. Timers are explicit events instead. The 4 s callback is `MapLock.MapLock.OnTimerExpired`. Each click schedules its own timer, and the model counts pending timers without modelling time.
- Creating the overlay element, its class name and its text are not modelled. Only whether it is hidden is kept.
- The popup binding is kept only as the marker's popup text.
- `JsStrings.Lower`: only ASCII capitals, the Latin-1 capitals À–Þ (without ×), and the Romanian capitals Ă, Ș, Ț, Ş, Ţ are lower-cased. Full Unicode case mapping, including mappings that change the length, is not modelled.
- `UriEncoding.EncodeUriComponent`: strings are sequences of Unicode scalar values. A lone UTF-16 surrogate, for which JavaScript throws `URIError`, cannot occur in this model.
- `UriEncoding.DecodeUriComponent` is this model's own strict inverse of the encoder. It accepts only unescaped characters and upper-case `%XX` triples. It is not JavaScript's more lenient `decodeURIComponent`, which the script never calls.
- `RoutedMap.LeafletMap.constructor`: Leaflet's default for touch zoom depends on the browser's touch support, so it is a parameter.
