# BMKG 24-hour forecast dashboard — a Dafny model of its data path

`app3.py` is a Streamlit dashboard. It shows the Indonesian weather agency's (BMKG)
hourly forecast for one sub-district. This project models the data path behind the
dashboard and proves properties of that path:

- **Region catalogue** (`regions.dfy`). Each catalogue row's `nama` is split at commas
  into a sub-district (`kecamatan`) and a town (`kota`). The sidebar labels are built as
  `kecamatan - kota (id)`, and the region code is read back out of the chosen label.
- **Forecast response** (`forecast.dfy`):
  - The checks on the HTTP status and on the `data` list.
  - Flattening the nested `cuaca` groups into records.
  - Converting the time columns and sorting by local time.
  - The 24-hour window filter.
- **Weather icon** (`weather_icon.dfy`). Classifies a description by the Indonesian
  keywords `cerah`, `berawan`, `mendung`, `hujan`/`lebat`, `badai` and `petir`. It is
  shown to agree with an independent first-match rule table.
- **Timeline** (`timeline.dfy`). One card per row that has a local time. Cards fill grid
  rows four at a time, and a partial last row is kept. The grid is proved equal to the
  cards chunked by four.
- **Supporting material**:
  - `text.dfy` models the Python string operations the code relies on: `str.lower`,
    `in` on strings, `str.split`, `str.strip` and `str.replace` of one character by
    nothing.
  - `seqs.dfy` holds the sequence facts (concatenation, chunking).
  - `wrappers.dfy` holds the `Option` type. It stands for `dict.get` and for DataFrame
    cells that may be missing.

Some inputs are parameters of the model:

- The HTTP response, as already-decoded JSON.
- The current time `now`, as an integer count of seconds.
- `pd.to_datetime` on one cell, as a function `parse` from a string to an optional
  timestamp.

The iterative parts of the source are `method`s whose loops carry invariants. Each such
method is proved against a function that specifies it:

- the `wilayah` append loop;
- the nested `records` append loop;
- the `current_row`/`rows` grid loop.

Everything else is a function, with lemmas about it, except `get_bmkg_data`, which is a
method without a loop (`Forecast.FetchForecast`).

## Model

| member | source | states |
|---|---|---|
| WeatherIcon.FirstMatch | app3.py:89-103 | the reference classifier: the icon of the first rule in the table whose keywords all occur in the text, or the fallback when none fires |
| WeatherIcon.RainBeforeThunder | app3.py:95-101 | a description whose lower-case form is "hujan petir" gets the showers icon, not the thunderstorm one, because rain is tested before thunder |
| WeatherIcon.WeatherEmoji | app3.py:84-103 | the question-mark icon comes out exactly when the description is missing or empty |
| WeatherIcon.WeatherEmojiFollowsRules | app3.py:88-103 | for a non-empty description, the icon is the first rule of the keyword table (cerah, berawan, mendung, hujan+lebat, hujan, badai, petir) whose keywords all occur in the lower-cased text; otherwise it is the sun-behind-cloud icon |
| WeatherIcon.WeatherEmojiIgnoresCase | app3.py:88 | lower-casing a description first does not change its icon |
| WeatherIcon.RainIntensity | app3.py:95-99 | a rain description that matches no earlier keyword is heavy rain exactly when it also contains "lebat", and showers otherwise |
| WeatherIcon.Glyph | app3.py:86-103 | the string each icon stands for: the code points of the eight emoji the function returns, with U+FE0F after each one that carries it in the source |
| WeatherIcon.GlyphInjective | app3.py:86-103 | the eight icons are eight different strings, so no two branches show the same glyph |
| Text.Lower | app3.py:88 | `str.lower` character by character; the result is never shorter than the input and at most twice as long |
| Text.LowerChar | app3.py:88 | one character lower-cased: A-Z to a-z, U+0130 to "i" plus U+0307, the Kelvin sign to "k", anything else unchanged; one or two characters |
| Text.Contains | app3.py:89 | Python's `in` on strings: the keyword is a prefix of the text or of one of its suffixes |
| Text.MissingCharNotContained | app3.py:89 | a keyword holding a character the text lacks does not occur in the text |
| Text.ContainsIff | app3.py:89 | substring search holds exactly when the keyword occurs at some position of the text |
| Text.LowerIdempotent | app3.py:88 | lower-casing twice is lower-casing once |
| Text.LowerHasNoCapitals | app3.py:88 | a lower-cased string contains no ASCII capital letter |
| Text.Split | app3.py:18 | splitting yields at least one part, as Python's `split` does even on the empty string |
| Text.SplitJoin | app3.py:18 | joining the parts with the separator gives back the original string |
| Text.SplitAt | app3.py:18 | splitting `a + sep + b` is splitting `a` followed by splitting `b` |
| Text.SplitNoSeparator | app3.py:18 | a string without the separator splits into itself alone |
| Text.SplitPiecesHaveNoSeparator | app3.py:18 | no part contains the separator |
| Text.IsSpace | app3.py:19-20 | the characters `str.strip()` removes: the 29 code points Python counts as whitespace |
| Text.Strip | app3.py:19-20 | the stripped string neither starts nor ends with whitespace and has no character the input lacks |
| Text.StripPadded | app3.py:19-20 | stripping whitespace padding off a trimmed middle gives back exactly the middle |
| Text.StripAllSpace | app3.py:19-20 | an all-whitespace string strips to the empty string |
| Text.Remove | app3.py:134 | removing `)` leaves no `)`, makes nothing longer and adds no character |
| Text.RemoveAbsent | app3.py:134 | removing a character that does not occur changes nothing |
| Regions.District | app3.py:18-19 | the sub-district holds no comma and is trimmed |
| Regions.Town | app3.py:18-20 | the town holds no comma and is trimmed |
| Regions.ParseRegion | app3.py:18-25 | a region keeps the row's code, and both names are trimmed and free of commas |
| Regions.ParseWithoutComma | app3.py:18-20 | a name without a comma gives the stripped name as sub-district and an empty town |
| Regions.ParseWithComma | app3.py:18-20 | `kec,kota[,rest]` gives exactly the stripped first and second fields; any later fields (the province) are dropped |
| Regions.WilayahList | app3.py:16-26 | the loop returns one region per catalogue row, and region i is row i parsed |
| Regions.Label | app3.py:131 | the selector label `kecamatan - kota (id)` of one region |
| Regions.Labels | app3.py:131 | there is one label per region |
| Regions.SelectedId | app3.py:134 | the extracted code contains no parenthesis |
| Regions.LabelRoundTrip | app3.py:131-134 | reading the code back from a region's label gives the region's code exactly when the code contains no parenthesis |
| Regions.SelectedIdOfList | app3.py:131-134 | choosing the i-th label of the list selects the i-th region's code |
| Forecast.RecordOf | app3.py:46-57 | the record of one entry: each of the ten `entry.get` fields under its column name, missing when the key is absent |
| Forecast.Records | app3.py:46-57 | there is one record per entry |
| Forecast.RecordsSnoc | app3.py:46-57 | appending one entry appends its record |
| Forecast.FlattenGroups | app3.py:43-57 | the nested loop yields the records of all groups in order, as many as the groups hold in total |
| Forecast.RecordsLayout | app3.py:44-57 | entry j of group i becomes the record at position (sizes of the groups before i) + j |
| Forecast.ParseCell | app3.py:63-64 | `pd.to_datetime(errors='coerce')` on one cell: a missing cell, or text the parser rejects, becomes a missing time |
| Forecast.ConvertRow | app3.py:63-64 | a record with its `utc` and `local` cells converted and every other column unchanged |
| Forecast.Convert | app3.py:63-64 | conversion keeps one row per record |
| Forecast.ConvertedRow | app3.py:63-64 | row i of the converted table has a missing local time exactly when the local cell is missing or does not parse, and otherwise the parsed time; likewise for `utc`; every other column is carried over |
| Forecast.SortByLocal | app3.py:65 | sorting yields the same rows, ordered by local time, with unparseable times last |
| Forecast.Insert | app3.py:65 | inserting into a sorted table keeps it sorted and adds exactly that row |
| Forecast.SortedPutsMissingLast | app3.py:65 | in a sorted table every row after one without a local time has none either |
| Forecast.FetchForecast | app3.py:34-67 | a status other than 200 gives an empty table, and so does a missing or empty `data` list; otherwise the table has one row per forecast entry of the first location, is the converted records rearranged, and is sorted by local time |
| Forecast.Filter24Hours | app3.py:107-120 | `filter_24_hours` with the current time passed in: an empty table is returned as is, otherwise the rows the window mask selects; never more rows than the input and none it lacks |
| Forecast.Select | app3.py:115-118 | boolean indexing `df[mask]`: the elements whose flag is true, in order; never longer than the input and holding nothing it lacks |
| Forecast.Mask | app3.py:115-118 | the window mask has one flag per row |
| Forecast.FilterIsKeep | app3.py:107-120 | the mask-based filter equals the reference filter that keeps the rows inside the window in order |
| Forecast.KeepAppend | app3.py:115-118 | the reference filter distributes over concatenation |
| Forecast.FilterOrder | app3.py:107-120 | the filter distributes over concatenation and keeps a single row exactly when it lies in the window, so it preserves the order of the rows |
| Forecast.KeepCounts | app3.py:115-118 | the reference filter keeps every copy of an in-window row and no copy of any other |
| Forecast.FilterKeepsWindow | app3.py:107-120 | a row is kept as often as it occurs when it lies within 24 hours from now, and never otherwise; a row is in the result exactly when it is in the input and in the window |
| Forecast.KeepSorted | app3.py:115-118 | the reference filter keeps a sorted table sorted |
| Forecast.FilterKeepsSorted | app3.py:107-120 | filtering a table sorted by local time leaves it sorted |
| Timeline.MakeCard | app3.py:167-182 | the card of a row with a local time: that time, the temperature and humidity, and the description or "N/A" |
| Timeline.CardsOf | app3.py:166-167 | a row contributes one card exactly when it has a local time |
| Timeline.Cards | app3.py:166-182 | the cards of a table in row order, one per row with a local time, so never more cards than rows |
| Timeline.Card.Emoji | app3.py:172-173 | a card's `emoji` entry: `get_weather_emoji` applied to the card's description text |
| Timeline.BuildGrid | app3.py:162-190 | the grid rows laid end to end are the cards in order; no row is empty or longer than four; every row but the last is full; so the grid is the cards chunked by four |
| Timeline.CloseGrid | app3.py:188-190 | closing the partial last row, only when it is non-empty, completes a grid of that shape |
| Timeline.FullRowsSnoc | app3.py:184-186 | closing a row of four keeps every closed row full |
| Timeline.GridRowCount | app3.py:162-190 | n cards fill ceil(n / 4) grid rows |
| Timeline.CardsOfWindow | app3.py:153-167 | every row of the 24-hour window has a local time, so each gets a card |
| Timeline.CardsAll | app3.py:166-182 | when every row has a local time, card i is made from row i |
| Timeline.TimelineInOrder | app3.py:153-182 | when the table is sorted, the timeline cards come in time order and every card's time lies between now and 24 hours later |
| Timeline.MissingDescriptionCard | app3.py:172-173 | a row without a description gets the text "N/A" and so the sun-behind-cloud icon, not the question mark |
| Seqs.ConcatLength | app3.py:43-57 | the flattened groups have as many elements as the groups hold in total |
| Seqs.ConcatAppend | app3.py:43-57 | flattening distributes over concatenation of the groups |
| Seqs.ConcatAt | app3.py:44-45 | element j of group i sits at the group's offset plus j in the flattened sequence |
| Seqs.ChunksShape | app3.py:162-190 | chunking gives rows of the grid shape that flatten back to the input |
| Seqs.ChunksUnique | app3.py:162-190 | any rows of the grid shape that flatten to s are exactly s chunked |

## Left out

- The Streamlit user interface is not modelled, nor is the model cache. This covers the
  sidebar, buttons, spinner and messages, session state, columns, charts,
  `@st.cache_data`/`@st.cache_resource`, and the statistics panel.
- The machine-learning part is not modelled: `train_model`, the random-forest prediction
  and its inputs. Its numbers are floating point and from a library outside the code.
- Downloading the CSV catalogue and calling the BMKG API are not modelled. The catalogue
  arrives as rows of strings, and the response as decoded JSON with its status code.
  Exceptions from `requests` or `resp.json()` are not modelled.
- A `cuaca` value that is JSON `null` is not modelled. `.get("cuaca", [])` then returns
  `None`, and the loop at line 44 raises `TypeError`. In the model, a missing `cuaca`
  (`Location.cuaca == None`) means the key is absent, and it gives an empty table.
  A `data` value that is `null` is modelled: line 39 treats it like an empty list, and
  so does the model.
- Other JSON values of the wrong kind are not modelled, such as a number where a list or
  object is expected, or a `null` entry inside a group. Python raises on these; the
  model's types rule them out.
- A catalogue row whose name is missing is not modelled. pandas gives NaN there and
  `.split` raises; the model's names are always strings.
- The empty selectbox is not modelled. With no options, `selected` is `None` and line 134
  raises.
- Parsing of dates is not modelled. `pd.to_datetime(..., errors='coerce')` is a parameter
  applied cell by cell, with `None` for NaT. Its column-wide format inference and time
  zones are not modelled.
- Times are integer seconds in one time scale, and the window is 86400 seconds long.
  Sub-second times and the distinction between naive and aware date-times are left out.
- Forecast.SortByLocal: pandas' default `sort_values` is not stable. The model therefore
  promises only what pandas promises: the rows are sorted by local time with missing
  times last, and they are a rearrangement of the input. The order among equal times is
  not fixed. The model's sort is an insertion sort.
- The card's `strftime` strings are not modelled (`%H:%M` and `%d/%m`), nor the `°C`/`%`
  formatting of temperature and humidity. A card keeps the local timestamp and the
  optional numbers. The card's emoji is not a stored field: it is the classification of
  the card's description, computed when asked for.
- Text.Lower / Text.LowerChar: lower-casing is exact for ASCII. Outside ASCII it models only the two
  characters whose `str.lower` produces ASCII letters: U+0130 and the Kelvin sign
  U+212A. Only ASCII letters can affect the keyword search. Other non-ASCII characters
  are kept as they are.
- `get_bmkg_data` returns the same empty DataFrame for a status other than 200 (line 35)
  and for a missing or empty `data` list (line 40). The model gives `[]` in both cases
  and does not tell them apart.
- A catalogue name is only split at commas and stripped (lines 18-20). app3.py removes
  no prefix such as "Kab." and keeps no province level, so neither does the model.
- The other display code is not modelled: the HTML of each card (lines 193-213), the
  charts, the data table, the prediction panel and the statistics panel. The icon shown
  for a predicted description (line 278) and for each counted description (line 305) is
  the same `WeatherEmoji` applied to that text.
