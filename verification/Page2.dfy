/** The trends page ("Анализ музыкальных трендов"): the per-country artist
    counts behind the world map, the five artists with the highest summed
    popularity and the five most popular distinct tracks. */
module Page2 {
  import opened Frames
  import opened Tracks

  // ---------------------------------------------------------------------
  // Artists per country (the map)
  // ---------------------------------------------------------------------

  /** `nunique()` of the artists in one country's rows. */
  function ArtistCount(rows: seq<Track>, country: string): nat {
    CountDistinct(Column(Group(rows, CountryOf, country), ArtistsOf))
  }

  /** `groupby('country')['artists'].nunique()` relabelled to
      (country, artist_count): one row per country present in the table;
      the count is the number of different artists among that country's
      rows, at least 1 exactly when one of them names an artist, and never
      more than the country's row count. */
  function CountryArtistCounts(rows: seq<Track>): (counts: seq<(string, nat)>)
    ensures DistinctBy(counts, Fst)
    ensures forall c :: c in Column(counts, Fst) <==> Some(c) in Column(rows, CountryOf)
    ensures forall e :: e in counts ==> e.1 == ArtistCount(rows, e.0)
    ensures forall e :: e in counts ==> e.1 <= |Group(rows, CountryOf, e.0)|
    ensures forall e :: e in counts ==>
              (e.1 >= 1 <==> exists r :: r in rows && r.country == Some(e.0) && r.artists.Some?)
  {
    var keys := GroupKeys(rows, CountryOf);
    var counts := seq(|keys|, i requires 0 <= i < |keys| => (keys[i], ArtistCount(rows, keys[i])));
    assert Column(counts, Fst) == keys;
    forall e | e in counts
      ensures e.1 >= 1 <==> exists r :: r in rows && r.country == Some(e.0) && r.artists.Some?
    {
      ArtistCountPositive(rows, e.0);
    }
    counts
  }

  lemma ArtistCountPositive(rows: seq<Track>, country: string)
    ensures ArtistCount(rows, country) >= 1 <==>
            exists r :: r in rows && r.country == Some(country) && r.artists.Some?
  {
    var g := Group(rows, CountryOf, country);
    var col := Column(g, ArtistsOf);
    if ArtistCount(rows, country) >= 1 {
      var a := Present(col)[0];
      assert a in Present(col);
      var i :| 0 <= i < |col| && col[i] == Some(a);
      assert g[i] in g;
    }
    if exists r :: r in rows && r.country == Some(country) && r.artists.Some? {
      var r :| r in rows && r.country == Some(country) && r.artists.Some?;
      assert r in g;
      var i :| 0 <= i < |g| && g[i] == r;
      assert col[i] == Some(r.artists.value);
      assert r.artists.value in Present(col);
    }
  }

  /** `update_map`: the same counts over the rows the dropdown selects. With
      nothing selected they are the counts of the whole table; otherwise only
      selected countries appear, each with the count it has in the whole table. */
  function UpdateMap(df: seq<Track>, selected: Option<seq<string>>): (counts: seq<(string, nat)>)
    ensures DistinctBy(counts, Fst)
    ensures !Restricts(selected) ==> counts == CountryArtistCounts(df)
    ensures Restricts(selected) ==>
              forall c :: c in Column(counts, Fst) <==> c in selected.value && Some(c) in Column(df, CountryOf)
    ensures forall e :: e in counts ==> e.1 == ArtistCount(df, e.0)
  {
    var rows := FilterByCountry(df, selected);
    if Restricts(selected) then
      SelectedCountries(df, selected.value);
      SelectedCounts(df, selected.value);
      CountryArtistCounts(rows)
    else
      CountryArtistCounts(rows)
  }

  /** Counting after the filter gives each selected country its full count. */
  lemma SelectedCounts(df: seq<Track>, selected: seq<string>)
    ensures forall e :: e in CountryArtistCounts(Filter(df, InCountries(selected))) ==> e.1 == ArtistCount(df, e.0)
  {
    var rows := Filter(df, InCountries(selected));
    var counts := CountryArtistCounts(rows);
    forall e | e in counts ensures e.1 == ArtistCount(df, e.0) {
      var i :| 0 <= i < |counts| && counts[i] == e;
      assert Column(counts, Fst)[i] == e.0;
      FilteredCountrySelected(df, selected, e.0);
      SameGroup(df, selected, e.0);
    }
  }

  /** A country that survives the filter was selected. */
  lemma FilteredCountrySelected(df: seq<Track>, selected: seq<string>, c: string)
    requires Some(c) in Column(Filter(df, InCountries(selected)), CountryOf)
    ensures c in selected
  {
    var rows := Filter(df, InCountries(selected));
    var col := Column(rows, CountryOf);
    var j :| 0 <= j < |col| && col[j] == Some(c);
    assert rows[j] in rows;
  }

  lemma SelectedCountries(df: seq<Track>, selected: seq<string>)
    ensures forall c :: Some(c) in Column(Filter(df, InCountries(selected)), CountryOf) <==>
                        c in selected && Some(c) in Column(df, CountryOf)
  {
    var rows := Filter(df, InCountries(selected));
    var col := Column(rows, CountryOf);
    var full := Column(df, CountryOf);
    forall c ensures Some(c) in col <==> c in selected && Some(c) in full {
      if Some(c) in col {
        var i :| 0 <= i < |col| && col[i] == Some(c);
        assert rows[i] in rows;
        var j :| 0 <= j < |df| && df[j] == rows[i];
        assert full[j] == Some(c);
      }
      if c in selected && Some(c) in full {
        var j :| 0 <= j < |full| && full[j] == Some(c);
        assert df[j] in rows;
        var i :| 0 <= i < |rows| && rows[i] == df[j];
        assert col[i] == Some(c);
      }
    }
  }

  /** A selected country's rows are the same before and after the filter. */
  lemma SameGroup(df: seq<Track>, selected: seq<string>, c: string)
    requires c in selected
    ensures Group(Filter(df, InCountries(selected)), CountryOf, c) == Group(df, CountryOf, c)
  {
    forall x | KeyIs(CountryOf, c)(x) ensures InCountries(selected)(x) {
      assert CountryOf(x) == Some(c);
    }
    FilterNarrow(df, InCountries(selected), KeyIs(CountryOf, c));
  }

  // ---------------------------------------------------------------------
  // Top artists
  // ---------------------------------------------------------------------

  datatype ArtistTotal = ArtistTotal(artist: string, totalPopularity: real, trackCount: nat)

  /** The aggregate row of one artist: `('popularity', 'sum')` over the
      artist's rows (missing values add nothing) and `('track_name', 'nunique')`. */
  function ArtistSummary(rows: seq<Track>, artist: string): ArtistTotal {
    var g := Group(rows, ArtistsOf, artist);
    ArtistTotal(artist, Sum(Present(Column(g, PopularityOf))), CountDistinct(Column(g, TrackNameOf)))
  }

  /** `groupby('artists').agg(...)`: one aggregate row per artist present. */
  function ArtistTotals(rows: seq<Track>): (totals: seq<ArtistTotal>)
    ensures |totals| == |GroupKeys(rows, ArtistsOf)|
    ensures DistinctBy(totals, ArtistOf)
    ensures forall t :: t in totals <==> Some(t.artist) in Column(rows, ArtistsOf) && t == ArtistSummary(rows, t.artist)
  {
    var keys := GroupKeys(rows, ArtistsOf);
    var totals := seq(|keys|, i requires 0 <= i < |keys| => ArtistSummary(rows, keys[i]));
    forall t ensures t in totals <==> Some(t.artist) in Column(rows, ArtistsOf) && t == ArtistSummary(rows, t.artist) {
      if Some(t.artist) in Column(rows, ArtistsOf) && t == ArtistSummary(rows, t.artist) {
        var i :| 0 <= i < |keys| && keys[i] == t.artist;
        assert totals[i] == t;
      }
    }
    totals
  }

  function ArtistOf(t: ArtistTotal): string { t.artist }

  function TotalScore(t: ArtistTotal): Option<real> { Some(t.totalPopularity) }

  /** `.sort_values('total_popularity', ascending=False).head(5)`. */
  function TopArtistRows(rows: seq<Track>): seq<ArtistTotal> {
    Take(SortDesc(ArtistTotals(rows), TotalScore), 5)
  }

  datatype Ranked<T> = Ranked(rank: nat, row: T)

  /** Assigning `range(1, 6)` to a frame of any length other than 5. */
  datatype RankError = LengthMismatch(expected: nat, actual: nat)

  /** `frame['rank'] = range(1, 6)`: ranks 1..5 in row order, or the
      length-mismatch error pandas raises when the frame does not have
      exactly five rows. */
  function AssignRank<T>(rows: seq<T>): (ranked: Result<seq<Ranked<T>>, RankError>)
    ensures ranked.Err? <==> |rows| != 5
    ensures ranked.Err? ==> ranked.error == LengthMismatch(5, |rows|)
    ensures ranked.Ok? ==> |ranked.value| == 5 && forall i :: 0 <= i < 5 ==> ranked.value[i] == Ranked(i + 1, rows[i])
  {
    if |rows| != 5 then Err(LengthMismatch(5, |rows|))
    else Ok(seq(5, i requires 0 <= i < 5 => Ranked(i + 1, rows[i])))
  }

  /** The module-level `top_artists` frame. */
  function TopArtists(rows: seq<Track>): Result<seq<Ranked<ArtistTotal>>, RankError> {
    AssignRank(TopArtistRows(rows))
  }

  /** The five (or fewer) rows kept before ranking: distinct artists with
      their own summaries, highest total first, none left out above them. */
  lemma TopArtistRowsFacts(rows: seq<Track>)
    ensures var top := TopArtistRows(rows);
      && |top| == Min(5, |GroupKeys(rows, ArtistsOf)|)
      && DistinctBy(top, ArtistOf)
      && Descending(top, TotalScore)
      && (forall t :: t in top ==> Some(t.artist) in Column(rows, ArtistsOf) && t == ArtistSummary(rows, t.artist))
      && (forall a :: Some(a) in Column(rows, ArtistsOf) && ArtistSummary(rows, a) !in top ==>
            forall t :: t in top ==> ArtistSummary(rows, a).totalPopularity <= t.totalPopularity)
  {
    var totals := ArtistTotals(rows);
    TopN(totals, TotalScore, 5);
    SortDistinctBy(totals, TotalScore, ArtistOf);
    TakeDistinctBy(SortDesc(totals, TotalScore), ArtistOf, 5);
  }

  /** `top_artists`: the ranking fails unless at least five artists are
      present; otherwise five different artists, ranked 1..5, with
      non-increasing summed popularity, each carrying its own sum and
      distinct-title count, and every artist left out summing to no more
      than any artist shown. */
  lemma TopArtistsFacts(rows: seq<Track>)
    ensures TopArtists(rows).Err? <==> |GroupKeys(rows, ArtistsOf)| < 5
    ensures TopArtists(rows).Ok? ==>
              var top := TopArtistRows(rows);
              && (forall i :: 0 <= i < 5 ==> TopArtists(rows).value[i] == Ranked(i + 1, top[i]))
              && DistinctBy(top, ArtistOf)
              && Descending(top, TotalScore)
              && (forall t :: t in top ==> Some(t.artist) in Column(rows, ArtistsOf) && t == ArtistSummary(rows, t.artist))
              && (forall a :: Some(a) in Column(rows, ArtistsOf) && ArtistSummary(rows, a) !in top ==>
                    forall t :: t in top ==> ArtistSummary(rows, a).totalPopularity <= t.totalPopularity)
  {
    TopArtistRowsFacts(rows);
  }

  // ---------------------------------------------------------------------
  // Top tracks
  // ---------------------------------------------------------------------

  /** `df.sort_values('popularity', ascending=False).drop_duplicates('track_name').head(5)`. */
  function TopTrackRows(rows: seq<Track>): seq<Track> {
    Take(DedupBy(SortDesc(rows, PopularityOf), TrackNameOf, {}), 5)
  }

  /** The module-level `top_tracks` frame. */
  function TopTracks(rows: seq<Track>): Result<seq<Ranked<Track>>, RankError> {
    AssignRank(TopTrackRows(rows))
  }

  /** The distinct `track_name` cells of a table (a missing name counts once). */
  function TrackNames(rows: seq<Track>): set<Option<string>> {
    KeySet(rows, TrackNameOf)
  }

  /** `top_tracks`: rows of the table with pairwise different names, in
      non-increasing popularity; each kept row has the highest popularity
      among the rows sharing its name; any name left out has no row more
      popular than a kept row; and the ranking fails exactly when the table
      has fewer than five different names. */
  lemma TopTracksFacts(rows: seq<Track>)
    ensures var top := TopTrackRows(rows);
      && |top| == Min(5, |TrackNames(rows)|)
      && (forall x :: x in top ==> x in rows)
      && DistinctBy(top, TrackNameOf)
      && Descending(top, PopularityOf)
      && (forall x, y :: x in top && y in rows && y.trackName == x.trackName ==> ScoreLe(y.popularity, x.popularity))
      && (forall y :: y in rows && y.trackName !in Column(top, TrackNameOf) ==>
            |top| == 5 && forall x :: x in top ==> ScoreLe(y.popularity, x.popularity))
    ensures TopTracks(rows).Err? <==> |TrackNames(rows)| < 5
  {
    TopTracksSize(rows);
    TopTracksOrder(rows);
    forall y | y in rows && y.trackName !in Column(TopTrackRows(rows), TrackNameOf)
      ensures |TopTrackRows(rows)| == 5
      ensures forall x :: x in TopTrackRows(rows) ==> ScoreLe(y.popularity, x.popularity)
    {
      TopTracksOmitted(rows, y);
    }
  }

  lemma TopTracksSize(rows: seq<Track>)
    ensures |TopTrackRows(rows)| == Min(5, |TrackNames(rows)|)
    ensures forall x :: x in TopTrackRows(rows) ==> x in rows
  {
    var s := SortDesc(rows, PopularityOf);
    var d := DedupBy(s, TrackNameOf, {});
    SortMembers(rows, PopularityOf);
    DedupNames(s, d);
    assert TrackNames(s) == TrackNames(rows);
  }

  lemma TopTracksOrder(rows: seq<Track>)
    ensures DistinctBy(TopTrackRows(rows), TrackNameOf)
    ensures Descending(TopTrackRows(rows), PopularityOf)
    ensures forall x, y :: x in TopTrackRows(rows) && y in rows && y.trackName == x.trackName ==>
              ScoreLe(y.popularity, x.popularity)
  {
    var s := SortDesc(rows, PopularityOf);
    var d := DedupBy(s, TrackNameOf, {});
    var top := Take(d, 5);
    SortMembers(rows, PopularityOf);
    DedupKeepsMax(s, TrackNameOf, {}, PopularityOf);
    forall i, j | 0 <= i < j < |top| ensures TrackNameOf(top[i]) != TrackNameOf(top[j]) {
      assert top[i] == d[i] && top[j] == d[j];
    }
    forall i, j | 0 <= i < j < |top| ensures ScoreLe(PopularityOf(top[j]), PopularityOf(top[i])) {
      assert top[i] == d[i] && top[j] == d[j];
    }
    forall x, y | x in top && y in rows && y.trackName == x.trackName ensures ScoreLe(y.popularity, x.popularity) {
      assert x in d;
    }
  }

  lemma TopTracksOmitted(rows: seq<Track>, y: Track)
    requires y in rows && y.trackName !in Column(TopTrackRows(rows), TrackNameOf)
    ensures |TopTrackRows(rows)| == 5
    ensures forall x :: x in TopTrackRows(rows) ==> ScoreLe(y.popularity, x.popularity)
  {
    SortMembers(rows, PopularityOf);
    DedupTopOmitted(SortDesc(rows, PopularityOf), TrackNameOf, PopularityOf, 5, y);
  }

  /** The deduplicated rows carry each name of the table exactly once. */
  lemma DedupNames(s: seq<Track>, d: seq<Track>)
    requires d == DedupBy(s, TrackNameOf, {})
    ensures |d| == |TrackNames(s)|
  {
    DedupKeyCount(s, TrackNameOf);
  }

  // ---------------------------------------------------------------------
  // Page set-up
  // ---------------------------------------------------------------------

  datatype Page2Data = Page2Data(
    countryArtistCounts: seq<(string, nat)>,
    topArtists: seq<Ranked<ArtistTotal>>,
    topTracks: seq<Ranked<Track>>)

  /** The module-level frames built when the page is imported, in source
      order; the first failing `rank` assignment aborts the import. */
  method BuildPage2(df: seq<Track>) returns (data: Result<Page2Data, RankError>)
    ensures data.Err? <==> |GroupKeys(df, ArtistsOf)| < 5 || |TrackNames(df)| < 5
    ensures data.Ok? ==>
              && data.value.countryArtistCounts == CountryArtistCounts(df)
              && TopArtists(df) == Ok(data.value.topArtists)
              && TopTracks(df) == Ok(data.value.topTracks)
  {
    TopArtistsFacts(df);
    TopTracksFacts(df);
    var countryCounts := CountryArtistCounts(df);
    var artists := TopArtists(df);
    if artists.Err? {
      return Err(artists.error);
    }
    var tracks := TopTracks(df);
    if tracks.Err? {
      return Err(tracks.error);
    }
    data := Ok(Page2Data(countryCounts, artists.value, tracks.value));
  }
}
