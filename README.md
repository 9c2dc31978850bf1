# Smart Njira route planner: a verified model of its core

Smart Njira is a Streamlit page (`app.py`) that plans a route between two places
with OpenRouteService. The user types an origin and a destination, either as a
`"lat, lon"` pair or as a place name, and picks a travel mode (Car, Walk or Bike).
The page then:

1. resolves both texts to coordinates with `parse_location`. A typed pair is
   read by a regular expression. Anything else is sent to the geocoding
   endpoint.
2. asks the directions endpoint for a route with `get_directions`, and reshapes
   the reply into a list of `(lat, lon)` points, a tooltip, the distance and the
   duration in whole minutes.
3. shows the duration as `"{d // 60}h {d % 60}m"`.
4. keeps a session history of the routes found. The history tab lists the five
   newest, newest first, and a button clears the list.

This project models those four pieces in Dafny and proves what they promise:

- `Location` holds the pair recogniser. It is a scanner over `string` that
  returns every part the pattern `^\s*(-?\d+\.?\d*),\s*(-?\d+\.?\d*)\s*$`
  consumed. It is proved to accept exactly the strings of the form `Render(m)`
  for a well-formed `m`, and to read back exactly those parts. Typed numbers get
  their exact decimal value. The geocoder branch is a function of the reply.
- `Directions` holds the mode table, the request and its `"lon,lat"` wire
  strings, the `[x, y]` to `(y, x)` swap with its inverse, and the fixed empty
  result on failure.
- `Duration` holds the hours/minutes split and the label. A parser for the label
  is proved to read every label back into its minutes.
- `Session` holds the history. It is a class with a `seq` field whose methods
  append, record, clear and list the newest five.
- `Planner` holds the page's flow. It resolves both fields and asks for
  directions only when the button was pressed.
- `Strings` gives the decimal text of integers, as Python's `str(int)` writes
  it, and its inverse. `Wrappers` gives `Option`, `Result` and the Python
  exceptions that escape the helpers.

The HTTP calls are parameters. `geocoder` maps the query that would be sent to
the reply it gets, and `service` does the same for the directions request.
"No request is sent" is therefore stated as "the result does not depend on the
service". Python's `str()` of a float is the parameter `show`.

Where the code and its surroundings disagree, the model follows `app.py`:

- `test_app.py:5` expects `parse_location("-14.0, 33.8") == (33.8, -14.0)`.
  The code returns the numbers in the order written, `(-14.0, 33.8)`.
  `Location.ExampleInWrittenOrder` proves the code's behaviour.
- `test_app.py:19` unpacks five values from `get_directions`, which returns four
  (`app.py:65`). The model returns the four.
- The label always writes the hours part, so 45 minutes is `"0h 45m"`, not `"45m"`
  (`Duration.LabelUnderAnHour`).
- Nothing checks that a typed pair is a valid latitude and longitude. `"100, 500"`
  is accepted as it is.
- Nothing in the code makes the distance or the duration of a successful route
  positive. They are passed through from the reply as they are.

## Model

| member | source | states |
|---|---|---|
| Strings.IntText | app.py:64 | `str(n)` of an int: a leading minus sign exactly when n is negative, then decimal digits with no leading zero except in `"0"` |
| Strings.ParseIntOnlyIntText | app.py:64 | `str(n)` is the only text read back as n, so the integer texts of a label are fixed |
| Strings.CanonicalIsNatText | app.py:64 | a run of digits without a leading zero is `str()` of its own value |
| Strings.IntTextRoundTrip | app.py:64 | the decimal text `str(n)` of any int, sign included, reads back as n |
| Strings.DigitsValueAppend | app.py:34 | the digits a followed by the digits b denote a * 10^len(b) + b |
| Strings.SplitAtJoin | app.py:53-54 | splitting `a + c + b` at the first c gives a and b back when c does not occur in a |
| Location.Span | app.py:31 | a greedy `\s*` or `\d*` run: the longest prefix of the class; the rest starts outside the class |
| Location.SpanJoin | app.py:31 | a greedy run stops exactly where the class's characters end |
| Location.ScanUnsigned | app.py:31 | reads `\d+\.?\d*`: at least one digit, the optional point, then fraction digits, maximal; fails exactly when no digit comes first |
| Location.ScanNumeral | app.py:31 | reads `-?\d+\.?\d*`: a well-formed numeral whose text is the consumed prefix; fails exactly on a missing digit after the optional minus |
| Location.ScanFraction | app.py:31 | reads `\.?\d*` after the integer digits: the optional point and its digits, maximal; no digits without the point |
| Location.ScanFractionText | app.py:31 | an optional point and its digits, followed by a character that stops them, are read back as themselves |
| Location.ScanUnsignedText | app.py:31 | the unsigned text of a well-formed numeral is read back as that numeral |
| Location.ScanNumeralText | app.py:31 | a well-formed numeral followed by a non-digit (and a non-point when it has no point) is read back as itself |
| Location.Value | app.py:34 | the number a numeral denotes: the digits before the point are the integer part of its magnitude; a negative value has a minus sign |
| Location.ValueScaled | app.py:34 | the magnitude with its point moved right past the fraction digits is the integer all the digits spell, so every fraction digit counts |
| Location.MatchSecond | app.py:31 | after the first number: the comma at once, any whitespace, the second number, whitespace to the end |
| Location.MatchPair | app.py:31-32 | a match consists of whitespace, a numeral, a comma, whitespace, a numeral and whitespace, and renders back to the input |
| Location.MatchPairRender | app.py:31-32 | every string of the pattern's shape is matched, with exactly its parts |
| Location.MatchSecondText | app.py:31 | the comma, whitespace, second numeral and trailing whitespace are read back as their parts |
| Location.MatchPairExact | app.py:31-33 | the recogniser accepts a string if and only if it is of the pattern's shape |
| Location.AcceptedBarePoint | app.py:31 | `"5., -3"` is accepted |
| Location.AcceptedWhitespace | app.py:31 | whitespace around the pair and a tab after the comma are accepted |
| Location.RejectedNumberExamples | app.py:31 | `".5, 1"` and `"+1, 2"` are rejected: no leading point, no plus sign |
| Location.RejectedSpaceBeforeComma | app.py:31 | `"1 , 2"` is rejected: no whitespace before the comma |
| Location.RejectedExponent | app.py:31 | `"1e3, 2"` is rejected: no exponent |
| Location.FromGeocoder | app.py:38-41 | None exactly on a non-200 status or no features; an unpack error exactly when the first feature's list is not of length 2; otherwise the first feature's `[x, y]` as `(y, x)` |
| Location.FromGeocoderFirstHit | app.py:38-40 | a 200 reply whose first feature encodes c gives c; later features are ignored |
| Location.ParseLocation | app.py:30-41 | a typed pair always yields a coordinate and never raises; any other text is resolved by the geocoder's reply to that text with the API key |
| Location.PairInWrittenOrder | app.py:31-34 | a typed pair comes back as (first number, second number) in the order written |
| Location.PairNeedsNoGeocoder | app.py:33-34 | for a typed pair the geocoder plays no part: any two services give the same result |
| Location.NameResolvesToFirstHit | app.py:35-40 | other text is sent with the API key as it is, and resolves to the geocoder's first hit |
| Location.ExampleInWrittenOrder | app.py:30-34 | `"-14.0, 33.8"` resolves to latitude -14.0, longitude 33.8 |
| Location.ExampleValues | app.py:34 | the numerals `-14.0` and `33.8` denote -14.0 and 33.8 |
| Duration.Split | app.py:64 | `d // 60` and `d % 60`: minutes in [0, 60) and 60 * hours + minutes == d, for every int d |
| Duration.SplitUnique | app.py:64 | the split is the only (hours, minutes) with minutes in [0, 60) that rebuilds d |
| Duration.Label | app.py:64 | the label `"{d//60}h {d%60}m"` reads back as d, so it loses nothing |
| Duration.LabelTextRoundTrip | app.py:64 | `"{h}h {m}m"` with m in [0, 60) reads back as 60 * h + m |
| Duration.LabelSplitsAtH | app.py:64 | the first `h` of a label ends the hours part, since an integer's text has no letter |
| Duration.MinutesPartRoundTrip | app.py:64 | the `" {m}m"` part of a label reads back as m |
| Duration.LabelOnlyText | app.py:64 | the label is the only text that reads back as d, so the contract of Label fixes its spelling `"{d//60}h {d%60}m"` |
| Duration.LabelInjective | app.py:128 | two durations with the same label are equal |
| Duration.LabelTwoHours | app.py:155 | 125 minutes is `"2h 5m"` |
| Duration.LabelUnderAnHour | app.py:155 | 45 minutes is `"0h 45m"`: the hours part is always written |
| Duration.LabelZero | app.py:155 | 0 minutes is `"0h 0m"` |
| Directions.Profile | app.py:45-50 | exactly Car, Walk and Bike have a profile |
| Directions.ProfilesDistinct | app.py:45-49 | the three modes select three different profiles |
| Directions.RequestFor | app.py:50-55 | a request exists exactly for a mode in the table, addressed to the endpoint plus its profile and carrying the API key |
| Directions.WirePoint | app.py:53-54 | the wire string `"lon,lat"` splits at its comma into longitude then latitude |
| Directions.RequestEndsLonLat | app.py:53-54 | the request's start and end are each `"lon,lat"` of origin and destination |
| Directions.ToWire | app.py:59-60 | the GeoJSON form of a route: one `[lon, lat]` per point, same length and order |
| Directions.SwapAll | app.py:60 | every `[x, y]` becomes `(y, x)`, same length and order; the first list of another length raises an unpack error |
| Directions.SwapAllInverse | app.py:60 | swapping back the swapped route gives the reply's geometry |
| Directions.ToWireInverse | app.py:60 | swapping a route out to the wire and back gives the route |
| Directions.FromReply | app.py:57-68 | non-200 gives the fixed empty result; 200 with no features raises an index error; 200 with features raises exactly when features[0] holds a point that is not a pair, and then the unpack error of the first such point; otherwise features[0]'s geometry, distance and duration |
| Directions.GetDirections | app.py:44-68 | an unknown mode raises a key error; a known mode gives FromReply of the service's reply to its request, with every outcome FromReply states |
| Directions.KnownModeNoFeatures | app.py:56-59 | for a known mode, a 200 reply without features raises an index error |
| Directions.KnownModeBadPoint | app.py:56-60 | for a known mode, a 200 reply whose first feature holds a point that is not a pair raises an unpack error |
| Directions.KnownModeReturnsFirstRoute | app.py:44-65 | for a known mode, a 200 reply whose first feature carries a route gives that route in (lat, lon) order with its distance, duration and tooltip |
| Directions.UnknownModeSendsNothing | app.py:50-56 | an unknown mode fails before any request: the service plays no part |
| Directions.FailureIsEmpty | app.py:66-68 | a non-200 reply gives `([], "", 0, 0)` |
| Directions.SuccessReturnsFirstRoute | app.py:58-65 | a 200 reply returns features[0]'s route point by point with its summary and tooltip; the other features do not matter |
| Directions.Tooltip | app.py:64 | the tooltip starts with the distance and ends with the duration label, which reads back as the minutes |
| Session.Newest | app.py:151 | `h[-5:]`: the last min(5, n) entries |
| Session.Reverse | app.py:151 | element i of the result is element n-1-i of the input |
| Session.Enumerate | app.py:151 | each element paired with its number, counting from start |
| Session.Recent | app.py:151 | the min(5, n) newest entries, newest first, numbered from 1 |
| Session.NewestListedFirst | app.py:137-151 | a route just added is listed first, as number 1 |
| Session.AddingShiftsList | app.py:137-151 | adding a route moves every listed route one place down; the fifth drops off |
| Session.History.constructor | app.py:20-21 | a new session's history is empty |
| Session.History.Append | app.py:137-143 | the entry is added at the end and nothing else changes |
| Session.History.Record | app.py:125-143 | the route is saved exactly when it is non-empty, with its origin, destination, mode, distance and duration |
| Session.History.Clear | app.py:158 | the history becomes empty |
| Session.History.LastFive | app.py:151 | lists exactly the newest min(5, n) entries, newest first, numbered from 1 |
| Planner.Resolve | app.py:111-112 | an empty field is None without a lookup; a non-empty field is whatever `parse_location` gives for it |
| Planner.Plan | app.py:111-124 | an exception from the origin, then from the destination, stops the run; when the button was pressed and both resolved, the result is get_directions between them; otherwise nothing; directions come back only after a press with both fields non-empty |
| Planner.TypedPairsSkipGeocoder | app.py:111-124 | two typed pairs and a press give the directions between the pairs as written, with no geocoding |

## Left out

- The page itself: page setup, tabs, inputs, the button widgets, messages, the folium map with its markers, layers and polyline, `folium_static`, the HTML file written by `m.save` and the download button (app.py:10-19, 71-110, 113-121, 126-135, 145-150, 159-161).
- The `st.error` message on a failed route (app.py:67) and the markdown text of each history line around the duration label (app.py:152-156). They are display text only.
- The stop when the API key is missing (app.py:23-27). It is configuration; the key is a parameter.
- The HTTP calls themselves (app.py:37, 56). Each reply is an input value: the status code and the JSON fields the code reads.
- Exceptions raised by `requests.get` itself, such as a connection error or a time-out (app.py:37, 56). The model always receives a reply.
- JSON replies of another shape: a directions reply without `features` (app.py:59), a feature without `geometry`, `properties`, `summary`, `distance` or `duration` (app.py:59-63), a geocoder feature without `geometry` or `coordinates` (app.py:39), and a body that is not JSON. The model's reply types always have these fields, so the KeyErrors they would raise are not modelled.
- Location.Value: gives the exact decimal value. Python's `float()` rounds it to the nearest binary double (app.py:34).
- Directions.FromReply: takes the distance in kilometres and the duration in minutes as given. The float division and Python's half-even `round` of app.py:62-63 are not modelled.
- Python's `str()` of a float in the wire strings and the tooltip is the parameter `show`. Directions.WirePoint's contract assumes only that its text has no comma.
- Python's `\d` also matches non-ASCII digits. The model accepts ASCII digits only. `\s` is modelled as the full set of characters for which `str.isspace()` holds.
- `urls.py` is a Django routing table with no logic; it is not part of this model. `test_app.py` calls the live service and is not used as a reference.
- Coordinate reference systems, the geocode cache, backend persistence and login belong to other variants of the page and are not part of this file.
