/** The single-page listener dashboard: one table of streaming-service
    users, filtered by the selected countries and platforms, feeding a box
    plot of the chosen metric, the genre and listening-time counts, and the
    twenty most popular favourite artists. */
module Dashboard {
  import opened Frames

  /** One row of music_analysis_dashboard.csv, restricted to the columns the
      callbacks read. */
  datatype Listener = Listener(
    country: Option<string>,
    platform: Option<string>,
    topGenre: Option<string>,
    listeningTime: Option<string>,
    mostPlayedArtist: Option<string>,
    minutesPerDay: Option<real>,
    songsLiked: Option<real>,
    popularity: Option<real>,
    danceability: Option<real>)

  function TopGenreOf(r: Listener): Option<string> { r.topGenre }
  function ListeningTimeOf(r: Listener): Option<string> { r.listeningTime }
  function MostPlayedArtistOf(r: Listener): Option<string> { r.mostPlayedArtist }
  function PopularityOf(r: Listener): Option<real> { r.popularity }

  // ---------------------------------------------------------------------
  // Controls
  // ---------------------------------------------------------------------

  /** The four values of the metric radio buttons. */
  datatype Metric = MinutesStreamedPerDay | NumberOfSongsLiked | Popularity | Danceability

  /** The column each metric names. */
  function MetricColumn(m: Metric): string {
    match m
    case MinutesStreamedPerDay => "Minutes Streamed Per Day"
    case NumberOfSongsLiked => "Number of Songs Liked"
    case Popularity => "popularity"
    case Danceability => "danceability"
  }

  /** The radio value received by the callback, read back as a metric:
      exactly the four column names are accepted. */
  function ParseMetric(value: string): (m: Option<Metric>)
    ensures m.Some? <==> value in {"Minutes Streamed Per Day", "Number of Songs Liked", "popularity", "danceability"}
    ensures m.Some? ==> MetricColumn(m.value) == value
  {
    if value == "Minutes Streamed Per Day" then Some(MinutesStreamedPerDay)
    else if value == "Number of Songs Liked" then Some(NumberOfSongsLiked)
    else if value == "popularity" then Some(Popularity)
    else if value == "danceability" then Some(Danceability)
    else None
  }

  /** Every metric survives the trip through its column name. */
  lemma MetricRoundTrip(m: Metric)
    ensures ParseMetric(MetricColumn(m)) == Some(m)
  {
  }

  /** The controls' values when the page opens. */
  const InitialCountries: seq<string> := ["Germany", "Japan"]
  const InitialPlatforms: seq<string> := ["Deezer", "Tidal"]
  const InitialMetric: string := "Minutes Streamed Per Day"

  /** The initial metric is one of the four and names the minutes column. */
  lemma InitialMetricIsListed()
    ensures ParseMetric(InitialMetric) == Some(MinutesStreamedPerDay)
  {
  }

  /** `df['Country'].unique()` and `df['Streaming Platform'].unique()`,
      the dropdowns' options: each cell value once, missing included. */
  function Options(df: seq<Listener>, cell: Listener -> Option<string>): (options: seq<Option<string>>)
    ensures NoDup(options)
    ensures forall v :: v in options <==> v in Column(df, cell)
  {
    Distinct(Column(df, cell))
  }

  // ---------------------------------------------------------------------
  // The shared filter
  // ---------------------------------------------------------------------

  /** `df['Country'].isin(countries) & df['Streaming Platform'].isin(platforms)`. */
  function InSelection(countries: seq<string>, platforms: seq<string>): Listener -> bool {
    (r: Listener) =>
      r.country.Some? && r.country.value in countries &&
      r.platform.Some? && r.platform.value in platforms
  }

  /** The filter every callback starts with: a row stays iff its country AND
      its platform are selected, so an empty list on either side selects
      nothing (unlike the pages' country filter). */
  function SelectionFilter(df: seq<Listener>, countries: seq<string>, platforms: seq<string>): (rows: seq<Listener>)
    ensures forall r :: r in rows <==>
              r in df && r.country.Some? && r.country.value in countries &&
              r.platform.Some? && r.platform.value in platforms
    ensures countries == [] || platforms == [] ==> rows == []
  {
    if countries == [] || platforms == [] then
      FilterNone(df, InSelection(countries, platforms));
      Filter(df, InSelection(countries, platforms))
    else
      Filter(df, InSelection(countries, platforms))
  }

  /** The filter keeps row order and the multiplicity of every kept row. */
  lemma SelectionFilterKeepsOrder(a: seq<Listener>, b: seq<Listener>, countries: seq<string>, platforms: seq<string>, r: Listener)
    ensures SelectionFilter(a + b, countries, platforms) ==
            SelectionFilter(a, countries, platforms) + SelectionFilter(b, countries, platforms)
    ensures multiset(SelectionFilter(a, countries, platforms))[r] ==
            if InSelection(countries, platforms)(r) then multiset(a)[r] else 0
  {
    FilterAppend(a, b, InSelection(countries, platforms));
    FilterCount(a, InSelection(countries, platforms), r);
  }

  // ---------------------------------------------------------------------
  // The callbacks' data
  // ---------------------------------------------------------------------

  /** The metric cell a box-plot point is drawn from. */
  function MetricValue(r: Listener, m: Metric): Option<real> {
    match m
    case MinutesStreamedPerDay => r.minutesPerDay
    case NumberOfSongsLiked => r.songsLiked
    case Popularity => r.popularity
    case Danceability => r.danceability
  }

  datatype BoxPoint = BoxPoint(country: Option<string>, value: Option<real>, platform: Option<string>)

  /** `update_age_distribution`: one (Country, metric, Streaming Platform)
      point per selected row, in row order. */
  function AgeDistributionPoints(df: seq<Listener>, countries: seq<string>, platforms: seq<string>, m: Metric)
    : (points: seq<BoxPoint>)
    ensures var rows := SelectionFilter(df, countries, platforms);
      |points| == |rows| &&
      forall i :: 0 <= i < |rows| ==>
        points[i] == BoxPoint(rows[i].country, MetricValue(rows[i], m), rows[i].platform)
    ensures forall p :: p in points ==>
              exists r :: r in df && InSelection(countries, platforms)(r) &&
                          p == BoxPoint(r.country, MetricValue(r, m), r.platform)
  {
    var rows := SelectionFilter(df, countries, platforms);
    var points := seq(|rows|, i requires 0 <= i < |rows| =>
      BoxPoint(rows[i].country, MetricValue(rows[i], m), rows[i].platform));
    forall p | p in points
      ensures exists r :: r in df && InSelection(countries, platforms)(r) &&
                          p == BoxPoint(r.country, MetricValue(r, m), r.platform)
    {
      var i :| 0 <= i < |points| && points[i] == p;
      assert rows[i] in rows;
    }
    points
  }

  /** `filtered_data['Top Genre'].value_counts()` relabelled (Genre, Count):
      each genre of the selected rows once, counted, most frequent first,
      the counts adding up to the selected rows that name a genre. */
  function GenreCounts(df: seq<Listener>, countries: seq<string>, platforms: seq<string>): (counts: seq<(string, nat)>)
    ensures var genres := Column(SelectionFilter(df, countries, platforms), TopGenreOf);
      && DistinctBy(counts, Fst)
      && (forall g :: g in Column(counts, Fst) <==> Some(g) in genres)
      && (forall e :: e in counts ==> e.1 >= 1 && e.1 == multiset(Present(genres))[e.0])
      && Descending(counts, CountScore)
      && SumBy(counts, CountOf) == |Present(genres)| as real
  {
    ValueCounts(Column(SelectionFilter(df, countries, platforms), TopGenreOf))
  }

  /** `genre_counts.head(10)`, what the bar chart shows: the ten most
      frequent genres; a genre left out is no more frequent than any shown. */
  function TopGenresChart(df: seq<Listener>, countries: seq<string>, platforms: seq<string>): (chart: seq<(string, nat)>)
    ensures var counts := GenreCounts(df, countries, platforms);
      && |chart| == Min(10, |counts|)
      && chart == counts[..|chart|]
      && (forall e :: e in counts && e !in chart ==> |chart| == 10 && forall x :: x in chart ==> e.1 <= x.1)
  {
    var counts := GenreCounts(df, countries, platforms);
    TakeDescending(counts, CountScore, 10);
    Take(counts, 10)
  }

  /** `update_time_distribution`: the counts of each listening-time value
      among the selected rows; each at least 1, together the number of
      selected rows that have a value. */
  function TimeDistribution(df: seq<Listener>, countries: seq<string>, platforms: seq<string>): (counts: seq<(string, nat)>)
    ensures var times := Column(SelectionFilter(df, countries, platforms), ListeningTimeOf);
      && DistinctBy(counts, Fst)
      && (forall t :: t in Column(counts, Fst) <==> Some(t) in times)
      && (forall e :: e in counts ==> e.1 >= 1 && e.1 == multiset(Present(times))[e.0])
      && SumBy(counts, CountOf) == |Present(times)| as real
  {
    ValueCounts(Column(SelectionFilter(df, countries, platforms), ListeningTimeOf))
  }

  /** `update_artist_popularity`: mean popularity per favourite artist among
      the selected rows, highest first, at most 20; an artist left out has a
      mean no higher than any shown. */
  function ArtistPopularity(df: seq<Listener>, countries: seq<string>, platforms: seq<string>)
    : (chart: seq<(string, Option<real>)>)
    ensures var rows := SelectionFilter(df, countries, platforms);
      && |chart| == Min(20, |GroupKeys(rows, MostPlayedArtistOf)|)
      && DistinctBy(chart, Fst)
      && (forall e :: e in chart ==>
            Some(e.0) in Column(rows, MostPlayedArtistOf) &&
            e.1 == Mean(Column(Group(rows, MostPlayedArtistOf, e.0), PopularityOf)))
      && Descending(chart, Snd)
      && (forall a :: Some(a) in Column(rows, MostPlayedArtistOf) && a !in Column(chart, Fst) ==>
            |chart| == 20 &&
            forall e :: e in chart ==> ScoreLe(Mean(Column(Group(rows, MostPlayedArtistOf, a), PopularityOf)), e.1))
  {
    TopGroupMeans(SelectionFilter(df, countries, platforms), MostPlayedArtistOf, PopularityOf, 20)
  }
}
