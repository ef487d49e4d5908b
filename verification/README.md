# music_dashboard — a Dafny model

This project models the data logic of a music-analytics dashboard written
with Dash and pandas. It has two offline scripts and three dashboard views.

- **The artist join** (`data.py`, module `ArtistJoin`). The track sheet is
  left-merged with the artist sheet on the artist name. The helper key
  `artist_mb` is dropped. `country_lastfm` is renamed `style` and
  `tags_lastfm` is renamed `country`. Every row with a missing cell is
  removed.
- **The tag cleaner** (`main.py`, module `TagCleaner`). Every cell of the
  tab-separated artist file is split on `;`. Each tag is stripped of
  surrounding whitespace, and the tags are joined back with `;`.
- **Page 1** (`pages/page1.py`, modules `Tracks` and `Page1`). It shows the
  track table filtered by artist country:
  - the ten genres with the highest mean popularity;
  - the share of non-explicit tracks;
  - the tempo-band distribution as percentages;
  - the shortest, average and longest duration as `m:ss` cards.
- **Page 2** (`pages/page2.py`, module `Page2`). It shows:
  - distinct artists per country for the map;
  - the top five artists by total popularity, with their distinct track
    counts;
  - the top five distinct tracks by popularity.
- **The listener dashboard** (`app.py`, module `Dashboard`). It works on a
  table of streaming-service users, filtered by country and platform, and
  feeds:
  - a box plot of a chosen metric;
  - genre counts and listening-time counts;
  - the twenty favourite artists with the highest mean popularity.

Module `Frames` models the pandas operations these files use. Tables are
sequences of rows. A missing cell (NaN) is `None`. Every operation follows
pandas' treatment of missing values:

- reductions skip them;
- `groupby` drops a missing key;
- `value_counts` ignores missing values;
- `unique` keeps a missing value;
- `sort_values(ascending=False)` puts missing values last;
- `drop_duplicates` treats two missing keys as equal.

Some of the code's behaviour is easy to miss; the model follows the code:

- Selecting no country on page 1 or page 2 shows everything. On the
  listener dashboard, an empty selection shows nothing.
- A missing tempo falls into the fast band (`categorize_tempo` takes the
  `else` branch for NaN).
- The duration cards raise an error when rows are selected but none has a
  duration (`int(NaN)`).
- `data.py` writes `cleaned_data.csv`, but both pages read
  `cleaned_dat.csv`. The model takes the pages' track table as given and
  does not link it formally to the join's output.

## Model

| member | source | states |
|---|---|---|
| Tracks.FilterByCountry | pages/page1.py:220-222 | with no selection (None or empty) every row stays; otherwise exactly the rows whose country is selected, in order |
| Tracks.FilterByCountryKeepsOrder | pages/page2.py:188-190 | filtering a concatenation filters each part, so row order is kept |
| Tracks.FilterByCountryMultiplicity | pages/page1.py:220-222 | a kept row appears as often as in the input, and a dropped row not at all |
| Page1.FillMissingExplicit | pages/page1.py:12 | after loading, every explicit flag is present; a present flag is unchanged, a missing one becomes false, and the other fields are untouched |
| Page1.FilteredLoadIsFilled | pages/page1.py:12 | the explicit flags stay filled through any country filter |
| Page1.AllCountries | pages/page1.py:14 | the dropdown options hold each country cell value once, missing included, and nothing else |
| Page1.FieldsAreFloorMod | pages/page1.py:17-19 | the seconds and minutes fields equal the floor of the scaled duration modulo 60 (Python float `%` then `int`), each in 0..59 |
| Page1.MsToMinSec | pages/page1.py:17-20 | the text is 4 or 5 characters: digits, then ':' three places from the end, then two digits; it has 4 characters iff the minutes are below 10, and the minutes carry no leading zero |
| Page1.MsToMinSecRoundTrip | pages/page1.py:17-20 | reading the text back gives exactly the minutes and seconds fields |
| Page1.MsToMinSecHourly | pages/page1.py:19 | adding one hour does not change the text, because the minutes wrap modulo 60 |
| Page1.OneHourShowsZero | pages/page1.py:19 | a one-hour track is shown as "0:00" |
| Page1.CategorizeTempo | pages/page1.py:23-29 | slow iff below 80, medium iff in [80, 110), fast iff at least 110 or missing |
| Page1.CategorizeTempoMonotone | pages/page1.py:23-29 | a faster tempo never gets a slower band |
| Page1.TempoLabel | pages/page1.py:25-29 | each band has its own display label |
| Page1.TempoLabelsDistinct | pages/page1.py:25-29 | the three labels are pairwise different |
| Page1.TempoLabels | pages/page1.py:293 | one label per row: label i is the display label of row i's tempo band, so each is one of the three band labels |
| Page1.GenreChart | pages/page1.py:225-226 | at most ten genres, each once, each with the mean popularity of its rows, highest first; an omitted genre has a mean no higher than any shown |
| Page1.NonExplicitPercent | pages/page1.py:253 | missing exactly when no row has an explicit flag |
| Page1.ExplicitCount | pages/page1.py:253 | the sum of the explicit flags counts the explicit rows |
| Page1.NonExplicitShare | pages/page1.py:253 | on a non-empty filled selection, the gauge value is 100 times the non-explicit rows over all rows, in [0, 100] |
| Page1.Percentages | pages/page1.py:296 | each share is multiplied by 100 with its label kept, and the total is multiplied by 100 |
| Page1.TempoSharesFacts | pages/page1.py:292-296 | no rows give no slices; otherwise the slices add up to 100; each label appears once, exactly when some row has it, with 100 times its row count over all rows, which is positive; there are at most three slices |
| Page1.DurationStatsOf | pages/page1.py:335-337 | none iff no duration is present; otherwise the minimum and maximum are durations bounding all others, and the mean lies between them |
| Page1.DurationCardsOf | pages/page1.py:335-337 | no rows give three "0:00" cards; an error iff rows exist but none has a duration; otherwise the formatted minimum, mean and maximum |
| Page1.UpdateAllCharts | pages/page1.py:219-339 | the callback filters and then produces the genre chart, the gauge value, the tempo slices and the cards defined above, failing exactly as the cards do |
| Page2.CountryArtistCounts | pages/page2.py:13-14 | each country once; a count for exactly the countries present; each count is the number of distinct artists among that country's rows, positive iff one of them names an artist |
| Page2.ArtistCountPositive | pages/page2.py:13 | a country's count is at least one when one of its rows names an artist |
| Page2.UpdateMap | pages/page2.py:187-194 | each country once; with no selection it gives the table-wide counts; otherwise the countries are those both selected and present, each with its distinct artist count |
| Page2.ArtistTotals | pages/page2.py:17-19 | one summary per artist present: its total popularity and its number of distinct track names |
| Page2.AssignRank | pages/page2.py:21 | an error iff the frame does not have exactly five rows; otherwise ranks 1 to 5 in order |
| Page2.TopArtistsFacts | pages/page2.py:17-21 | an error iff fewer than five artists; otherwise five distinct artists ranked 1..5, highest total first, each with its true summary, and no omitted artist has a higher total |
| Page2.TopArtistRowsFacts | pages/page2.py:17-20 | at most five summaries, one per artist, each the artist's true summary, highest total first; an omitted artist's total is no higher than any shown |
| Page2.TopTracksFacts | pages/page2.py:24-25 | min(5, names) rows of the table with distinct names, most popular first; each is the most popular row of its name; an omitted name is no more popular than any shown; an error iff fewer than five names |
| Page2.DedupNames | pages/page2.py:24 | the de-duplicated table has one row per distinct track name |
| Page2.BuildPage2 | pages/page2.py:13-25 | the module set-up fails exactly when there are fewer than five artists or names; otherwise it yields the map counts and the two ranked tables defined above |
| Dashboard.ParseMetric | app.py:51-59 | a radio value is accepted iff it is one of the four column names, and it maps back to that name |
| Dashboard.MetricRoundTrip | app.py:51-59 | every metric survives the trip through its column name |
| Dashboard.InitialMetricIsListed | app.py:59 | the initial radio value is one of the four metrics |
| Dashboard.Options | app.py:10-11 | each country or platform value once, missing included, and nothing else |
| Dashboard.SelectionFilter | app.py:101-103 | a row stays iff its country and its platform are both selected; an empty list on either side keeps nothing |
| Dashboard.SelectionFilterKeepsOrder | app.py:121-123 | the filter keeps row order and the multiplicity of each kept row |
| Dashboard.AgeDistributionPoints | app.py:101-112 | point i holds the country, metric value and platform of selected row i, so there is one point per selected row, in order |
| Dashboard.GenreCounts | app.py:125 | each genre of the selection once, with its count, most frequent first; the counts add up to the rows that name a genre |
| Dashboard.TopGenresChart | app.py:129 | the first ten counts; an omitted genre is no more frequent than any shown |
| Dashboard.TimeDistribution | app.py:144-148 | each listening-time value once, counted; the counts add up to the rows that have one |
| Dashboard.ArtistPopularity | app.py:166-172 | at most twenty favourite artists, each once, with their mean popularity, highest first; an omitted artist is no higher than any shown |
| Frames.ValueCounts | app.py:125 | `value_counts()`: distinct keys with their multiplicity among the present values, descending, summing to the number of present values |
| Frames.NormalizedValueCounts | pages/page1.py:294 | `value_counts(normalize=True)`: each count divided by the number of present values; the fractions sum to 1 when a value is present |
| Frames.TopGroupMeans | pages/page1.py:225-226 | `groupby(key)[val].mean()`, sorted descending with missing means last, then `head(n)`: see Page1.GenreChart |
| Frames.DedupKeepsMax | pages/page2.py:24 | `drop_duplicates` on a descending table stays descending, and each kept row scores at least as high as every row with its key |
| Frames.MeanInRange | pages/page1.py:336 | the skip-missing mean of a column with a present value lies between its smallest and largest present value |
| ArtistJoin.MergeRow | data.py:16-22 | a track row yields one merged row per matching artist row, in order, or itself once with empty artist fields when none matches |
| ArtistJoin.MergeLeftAppend | data.py:16-22 | the left merge keeps the track rows' order |
| ArtistJoin.MergeLeftMember | data.py:16-22 | every merged row comes from one track row, and either a matching artist row or none |
| ArtistJoin.MergeLeftComplete | data.py:16-22 | every matching pair of a track row and an artist row is merged |
| ArtistJoin.DropColumn | data.py:25-26 | the column leaves the header and every row; nothing else changes |
| ArtistJoin.RenameColumn | data.py:29-35 | the column keeps its place and its cells under the new name |
| ArtistJoin.DropNa | data.py:38 | exactly the rows with no missing cell stay |
| ArtistJoin.PipelineMatched | data.py:25-35 | on a matched row, dropping and renaming leave the track row plus `style` and `country` taken from the artist row |
| ArtistJoin.CleanedColumns | data.py:16-35 | the output header is the track sheet's followed by `style` and `country` |
| ArtistJoin.CleanedSound | data.py:16-38 | every output row is complete and comes from a track row and an artist row with the same artist name; an unmatched track never survives |
| ArtistJoin.MergedSound | data.py:16-35 | a merged row that is complete after the drop and renames came from a track row and a matching artist row |
| ArtistJoin.CleanedComplete | data.py:16-38 | every matching pair whose combined row has no missing cell is in the output |
| ArtistJoin.CleanedFacts | data.py:16-38 | the header, soundness and completeness together |
| ArtistJoin.MissingSelected | data.py:18 | the selected artist columns the artist sheet lacks, in the order listed; none iff all three are present |
| ArtistJoin.CleanedErrors | data.py:16-22 | the step fails iff a selected column or `artists` is absent; an absent selected column is reported first, with every absent one named, and `artists` only when all three are present |
| ArtistJoin.CleanArtistTables | data.py:16-38 | the script step by step on one frame gives the cleaned table, or the KeyError described by `CleanedErrors` |
| ArtistJoin.DataFrame.Drop | data.py:26 | the in-place drop leaves the frame equal to the dropped table |
| ArtistJoin.DataFrame.RenameColumnInPlace | data.py:29-35 | the in-place rename leaves the frame equal to the renamed table |
| TagCleaner.Leading | main.py:15 | the length of the leading run of stripped characters: all of them are in the set, and the next one is not |
| TagCleaner.Trailing | main.py:15 | the length of the trailing run of stripped characters: all of them are in the set, and the one before is not |
| TagCleaner.StripChars | main.py:15 | `strip(chars)` keeps a slice of its argument with only characters of the set cut away on either side, and neither end of the result is in the set; `Strip` is this with Python's whitespace |
| TagCleaner.StripTrimmed | main.py:15 | a string with neither end in the set is its own strip |
| TagCleaner.StripFixed | main.py:15 | strip leaves a string unchanged iff neither end is in the set; stripping is idempotent |
| TagCleaner.StripNoSeparator | main.py:15 | stripping a ';'-free tag gives a ';'-free tag |
| TagCleaner.Split | main.py:15 | at least one piece, and no piece contains ';' |
| TagCleaner.JoinSplit | main.py:15-16 | joining the pieces of a split gives back the original cell |
| TagCleaner.SplitJoin | main.py:15-16 | splitting a join of ';'-free pieces gives back the pieces |
| TagCleaner.CleanCellTags | main.py:15-16 | the cleaned cell splits into the original tags, each stripped; the tag count is unchanged and every tag is trimmed |
| TagCleaner.CleanCellIdempotent | main.py:15-16 | cleaning a cleaned cell changes nothing |
| TagCleaner.CleanCellSingleTag | main.py:15-16 | a cell with no ';' is only stripped |
| TagCleaner.CleanCellKeepsTidy | main.py:15-16 | a cell whose tags are already trimmed is written back unchanged |
| TagCleaner.CleanRow | main.py:12-17 | a row keeps its length, and each cell is cleaned in place |
| TagCleaner.CleanRows | main.py:8-18 | the nested loops produce the file with the same rows and lengths, each cell cleaned |

## Left out

- File and network I/O are left out: `read_csv` and `to_csv`, the Google Sheets URLs, and `main.py`'s CSV reader and writer. The model starts from parsed tables and cells, so tab-separated quoting and escaping are not modelled.
- Plotly figures, colours, layout, the Dash page registry and the callback wiring are not modelled. Each callback is modelled by the data it passes to its figure.
- Floating-point rounding is not modelled: popularity, durations, tempos and means are exact reals.
- `groupby` key order and the order among equal scores are not modelled. pandas' default sort is not stable; the model uses a stable insertion sort, and no contract depends on tie order.
- ArtistJoin.CleanedFacts: the track sheet must not already use `artist_mb`, `country_lastfm`, `tags_lastfm`, `style` or `country`. With such a collision, pandas renames merge columns with `_x`/`_y` suffixes or creates duplicate column names, and neither is modelled.
- ArtistJoin.CleanArtistTables: the dict passed to `rename` is applied as two single renames. This matches pandas' simultaneous rename because neither target is also a source.
- `isin` with a missing value in the selection is not modelled: selections are lists of present strings.
- Page1.NonExplicitPercent: on a selection with no rows, the gauge value is missing (`None`), where pandas gives NaN.
- The `print` at the end of `main.py` is left out.
