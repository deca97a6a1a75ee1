# National Trust weather widget: a Dafny model of its decisions

`main.js` is a browser script injected into a place page. It reads a
session id from the `__uzmaj3` cookie and buckets the user into group A or
B by the parity of an additive hash. Group B sees nothing. For group A it
fetches a forecast for the page's coordinates and renders the last three
entries as cards in a hidden panel. It also adds a link that shows or hides
the panel and sends a tracking beacon on every click.

This project models the pure decisions inside that script as Dafny
functions over strings and sequences, and proves what they guarantee:

- `js.dfy` (module `Js`) holds the JavaScript built-ins the script relies
  on. These are `indexOf`/`includes`, `split` with a string separator (a
  leftmost, non-overlapping scan, as ECMAScript defines it), `substring`
  and `slice`. `null`/`undefined` are modelled as `Option`.
- `cookie.dfy` (module `Cookie`) models `getCookie`. The header gets a
  `"; "` prefix and is split on `"; " + name + "="`. The lookup succeeds
  only with exactly two parts, and the value runs up to the next `;`.
- `bucketing.dfy` (module `Bucketing`) models `hashString` and
  `getTestGroup`. `str.split('')` yields UTF-16 code units, so a character
  above U+FFFF adds its two surrogates to the sum.
- `forecast.dfy` (module `Forecast`) models `getWeatherIcon`,
  `list.slice(-3)`, `dt_txt.split(" ")[1].substring(0, 5)`, and the
  per-entry card.
- `panel.dfy` (module `Panel`) models the panel's `style.display`, which
  starts as `none` and flips between `none` and `flex` on each click.
- `widget.dfy` (module `Widget`) models `main` as one run over an abstract
  page: the cookie header, the embedded location, the forecast reply and
  the DOM anchor. The run records the network requests it issues
  (`FetchForecast`, `TrackClick`). After it come any number of clicks.

The hash adds UTF-16 code units, not Unicode code points, so characters above
U+FFFF count as two surrogates. `getCookie` splits on `"; " + name + "="`
and accepts exactly two parts. That means "the needle occurs exactly once"
only when the needle cannot overlap itself: `split` scans for
non-overlapping matches, so a name such as `=; ` is found even though its
needle appears twice, overlapping. `Cookie.FoundIffOnce`
proves the equivalence for every name without `;`, which covers the fixed
name `__uzmaj3`. `Cookie.FoundWhenOnce` and `Cookie.MissingWhenTwice` hold
for every name.

## Model

| member | source | states |
|---|---|---|
| `Js.Includes` | main.js:64-66 | `s.includes(w)` is true exactly when `w` starts at some index of `s` |
| `Js.Split` | main.js:15-16 | a split always has at least one part, and its first part (what `shift()` takes) is a prefix of the input; `Js.SplitFirst` and `Js.SplitRest` pin the parts down exactly |
| `Js.SplitRest` | main.js:15-16 | with the leftmost separator at `i`, the parts are the text before `i` followed by the parts of the split of everything after that separator; the scan never looks back into a separator it has consumed |
| `Js.SplitJoin` | main.js:15 | joining the parts of a split with the separator gives back the original text, so the split loses nothing |
| `Js.SplitPartsFree` | main.js:15 | no part of a split contains the separator |
| `Js.SplitTwo` | main.js:15-16 | with the leftmost separator at `i`, the split has exactly two parts iff no separator starts after it; the second part (`parts.pop()`) is then everything after that separator |
| `Js.SplitCharFirst` | main.js:16 | `split(';').shift()` is the text up to the first `;`: a prefix with no `;` that ends at the end or just before a `;` |
| `Js.SplitCharCount` | main.js:175 | splitting on a character yields more than one part exactly when the character occurs |
| `Js.Substring` | main.js:175 | for `0 <= start <= end`, `substring` is the slice between the two indices clamped to the length, so `substring(0, 5)` is the first `min(5, n)` characters; the result is never longer than the input |
| `Js.SliceFrom` | main.js:174 | `slice(start)` returns a suffix; a negative start yields `min(-start, n)` elements |
| `Cookie.RawValue` | main.js:13-17 | a found value never contains `;`; when `"; name="` does not occur in `"; " + header` the result is `null` |
| `Cookie.RawValueAt` | main.js:14-16 | with the leftmost `"; name="` at `i`, the lookup succeeds iff no other `"; name="` starts after it; the value is then the text right after `name=` up to the first following `;` |
| `Cookie.FoundWhenOnce` | main.js:14-16 | if `"; name="` occurs at exactly one index, the cookie is found |
| `Cookie.MissingWhenTwice` | main.js:15-17 | two non-overlapping appearances of `"; name="` make the lookup return `null` |
| `Cookie.NoSelfOverlap` | main.js:15 | for a name without `;`, two occurrences of `"; name="` cannot overlap |
| `Cookie.FoundIffOnce` | main.js:14-17 | for a name without `;`, the lookup succeeds iff `"; name="` occurs exactly once; absent and duplicated cookies both give `null` |
| `Cookie.GetCookie` | main.js:13-18 | for a name without `;`, the result is `null` exactly when `"; name="` does not occur exactly once in `"; " + header`. Any other result comes from the leftmost `"; name="`, with no further one after it: the raw value is the text after it up to the first `;`, and the result is that value decoded, or the error thrown when it cannot be decoded |
| `Bucketing.Utf16` | main.js:22 | `str.split('')` yields between `|s|` and `2|s|` code units, each below 0x10000; with `Bucketing.Utf16Char` (one character gives its `CodeUnits`) and `Bucketing.Utf16Append` (a concatenation gives the units of its pieces, one after the other), this determines the units of every string |
| `Bucketing.Utf16Char` | main.js:22 | a one-character string yields exactly that character's code units: itself below 0x10000, its surrogate pair above |
| `Bucketing.Utf16Append` | main.js:22 | the code units of `s + t` are those of `s` followed by those of `t` |
| `Bucketing.CodeUnits` | main.js:22 | a character yields one or two UTF-16 code units, each below 0x10000; a character below 0x10000 is its own code unit; a character above yields a high surrogate (0xD800-0xDBFF) and a low surrogate (0xDC00-0xDFFF) that decode back to the character |
| `Bucketing.Hash` | main.js:21-23 | the hash is a natural number of at most 0xFFFF per code unit, hence at most 0x1FFFE per character |
| `Bucketing.HashAppend` | main.js:21-23 | the empty string hashes to 0, and the hash of a concatenation is the sum of the two hashes |
| `Bucketing.HashIsWeightSum` | main.js:21-23 | the left fold over code units equals the sum, taken from the front, of each character's own weight |
| `Bucketing.HashPermutation` | main.js:21-23 | two ids with the same multiset of characters have the same hash |
| `Bucketing.GetTestGroup` | main.js:30-33 | the group is A exactly when the hash is even, and B otherwise; equivalently, A exactly when the id has an even number of characters of odd weight |
| `Bucketing.GroupPermutation` | main.js:30-33 | the group does not change under any reordering of the id's characters |
| `Bucketing.GroupByOddCount` | main.js:21-33 | an id whose characters are all below 0x10000 is in group A iff an even number of its characters have an odd code |
| `Bucketing.OddCountIsOddCodes` | main.js:21-23 | for such an id, the characters of odd weight are exactly the characters of odd code |
| `Bucketing.WeightBmp` | main.js:22 | a character below 0x10000 adds exactly its own code to the hash |
| `Bucketing.WeightAstral` | main.js:21-23 | a character above U+FFFF adds the sum of its two surrogates to the hash |
| `Bucketing.GroupAppend` | main.js:30-33 | the group of `s + t` is A iff `s` and `t` are in the same group |
| `Forecast.WeatherIcon` | main.js:63-68 | a description containing `rain` gets the storm icon, whatever else it contains; otherwise `cloud` gets the cloud icon, even with `sun` present; otherwise `sun` gets the sun icon; otherwise the rainbow |
| `Forecast.LastThree` | main.js:174 | `slice(-3)` yields `min(3, n)` entries, which are the list's last entries in their original order |
| `Forecast.TimeOf` | main.js:175 | the time is missing (a `TypeError`) exactly when `dt_txt` has no space; otherwise it has at most five characters and no space |
| `Forecast.TimeAfterFirstSpace` | main.js:175 | with the first space at `i`, the time is the longest space-free prefix of the text after `i`, cut at five characters |
| `Forecast.TimeOfDateTime` | main.js:175 | for a `"YYYY-MM-DD HH:MM:SS"` timestamp the time is exactly the `HH:MM` at indices 11-15 |
| `Forecast.CardOf` | main.js:174-178 | an entry yields a card iff `dt_txt` has a space and the `weather` array is non-empty; the card carries that time, the first description, that description's icon and the temperature |
| `Forecast.Cards` | main.js:174-178 | mapping succeeds iff every entry yields a card; the cards then correspond one-to-one and in order to the entries |
| `Forecast.Present` | main.js:174-178 | the panel shows `min(3, n)` cards, made from the last entries in order; it fails exactly when one of those last entries is malformed |
| `Forecast.PresentIgnoresOlder` | main.js:174 | entries before the last three never affect the panel |
| `Panel.Toggle` | main.js:212 | a click always changes the display, and the new display is `flex` exactly when the old one was `none` |
| `Panel.ToggleTwice` | main.js:212 | two clicks restore the previous display |
| `Panel.ClicksParity` | main.js:210-214 | after `n` clicks the display is back where it started iff `n` is even |
| `Panel.ShownAfterOddClicks` | main.js:205-212 | starting hidden, the panel is shown after `n` clicks iff `n` is odd |
| `Widget.Main` | main.js:143-220 | at most one request is made, and it is the forecast fetch for the page's coordinates. It is made iff the id is non-empty, the group is A and coordinates exist. A missing or empty id stops with no request; group B stops with no request. The panel is rendered iff, in addition, the reply has a `list` whose last three entries are well formed and the anchor is present. A rendered panel belongs to group A, starts hidden and holds the cards of the last three entries, and the fetch was the run's only request |
| `Widget.ClickManySpec` | main.js:210-214 | `n` clicks keep the group and cards, flip the display `n` times, and send `n` beacons, each carrying the group and `weather_info_click` |
| `Widget.Click` | main.js:210-214 | a click keeps the group and cards, always changes the display (to `flex` exactly when it was `none`), and sends one beacon with the group and `weather_info_click` |
| `Widget.ClicksAfterFetch` | main.js:210-214 | after the fetch, `n` clicks from a hidden group-A panel add exactly `n` effects, each a group-A `weather_info_click` beacon, keep the panel's group and cards, flip its display `n` times, and leave it shown iff `n` is odd |
| `Widget.Session` | main.js:143-214 | without an open gate, no request of any kind is ever made. Every beacon carries group A. The session renders exactly when `main` renders, and a stopped run is `main`'s run unchanged, so clicks without a link are ignored. A rendered session keeps `main`'s panel (group A, the same cards) with the display flipped once per click. It issues the fetch first and then one beacon per click: every effect after the first is a group-A `weather_info_click` beacon. It shows the panel iff the click count is odd |

## Left out

- `fetchWeatherData` and `fetch`: the request URL (endpoint, `appid`, coordinates) and the HTTP exchange are not modelled. The reply is a parameter: a failure, or a body whose `list` may be missing.
- `trackClick`: the POST body, its `new Date().toISOString()` timestamp and the error logging are not modelled. A beacon is recorded as a `TrackClick(group, action)` effect. Clock and network are outside the model.
- `decodeURIComponent` is a parameter `decode` of the model, a library call with no contract here. `None` stands for the `URIError` it throws. That error escapes `main` before its `try`, so the run just ends.
- `window.__NEXT_DATA__...latitudeLongitude`: the foreign object graph is reduced to an optional coordinate pair. A missing path and a missing value both end the run before any fetch.
- DOM work is reduced to which anchor is present: `querySelector`, `createElement`, the link markup, `appendChild`, `getElementById` and `addEventListener`. So is `injectStyles`.
- `createWeatherCard`'s HTML is modelled as a `Card` record (time, description, icon, temperature). `Forecast.IconText` records the emoji each icon renders as (U+26C8 U+FE0F storm, U+2601 U+FE0F cloud, U+1F31E sun, U+1F308 rainbow). It is documentation only: no contract states anything about the rendered text.
- `temp.toFixed(1) + "°C"`: floating-point formatting. The card keeps the temperature as a real number.
- Entry field types: `item.dt_txt` and `item.weather[0].description` are assumed to be strings and `item.main.temp` a number, and `item.main` and `item.weather` are assumed present. A missing one would throw a `TypeError` that `Entry` cannot express. A non-string description would throw inside `createWeatherCard`, after the link was already appended. That partial insertion is not modelled.
- A host page that already has an element with id `weather-info-link`, or that sets the panel's `style.display` itself, is not modelled.
- Console logging and the asynchrony of the two requests are left out. `trackClick` is not awaited, and effects are recorded in the order they are issued.
- Bucketing.Hash: the sum is an unbounded natural. JavaScript adds in doubles, which stay exact below 2^53. Reaching that would take more than 2^37 code units, longer than any engine allows.
- Cookie.FoundIffOnce: stated only for names without `;`. For a self-overlapping name the source itself does not implement "exactly once" (see above); `Cookie.FoundWhenOnce` and `Cookie.MissingWhenTwice` cover every name.
- Js.Split: its own contract states only that there is at least one part and that the first part is a prefix of the input. The exact parts are stated by the lemmas `Js.SplitFirst` and `Js.SplitRest` (`Js.SplitJoin`, `Js.SplitPartsFree` and `Js.SplitTwo` alone do not determine them for a separator that overlaps itself, such as `aa`), which keeps every use of `Split` cheap to verify.
- Js.Substring, Forecast.TimeOf, Forecast.TimeAfterFirstSpace: strings are sequences of Unicode scalar values, so `substring(0, 5)` here takes five characters, where JavaScript takes five UTF-16 code units. The two differ only when the text holds a character above U+FFFF: for `dt_txt = "d 😀😀😀"` JavaScript yields two emoji and a lone high surrogate, the model all three emoji. `Forecast.TimeOfDateTime` agrees with JavaScript whenever the timestamp's characters are below U+10000, as the digits, dashes and colons of an upstream timestamp are; its layout predicate does not itself demand that.
