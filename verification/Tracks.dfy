/** The cleaned track table that both dashboard pages load at start-up: one
    row per (track, matched artist metadata), restricted to the columns the
    pages read. */
module Tracks {
  import opened Frames

  datatype Track = Track(
    artists: Option<string>,
    trackName: Option<string>,
    popularity: Option<real>,
    durationMs: Option<real>,
    explicit: Option<bool>,
    tempo: Option<real>,
    trackGenre: Option<string>,
    country: Option<string>)

  function ArtistsOf(r: Track): Option<string> { r.artists }
  function TrackNameOf(r: Track): Option<string> { r.trackName }
  function PopularityOf(r: Track): Option<real> { r.popularity }
  function DurationOf(r: Track): Option<real> { r.durationMs }
  function TrackGenreOf(r: Track): Option<string> { r.trackGenre }
  function CountryOf(r: Track): Option<string> { r.country }

  /** `if selected_countries:` — the country dropdown restricts only when it
      holds a non-empty list (None and [] are both falsy). */
  predicate Restricts(selected: Option<seq<string>>) {
    selected.Some? && selected.value != []
  }

  /** The mask `df['country'].isin(countries)`: a missing country is in no list. */
  function InCountries(countries: seq<string>): Track -> bool {
    (r: Track) => r.country.Some? && r.country.value in countries
  }

  /** The pages' country filter: everything when nothing is selected,
      otherwise the rows whose country is selected. */
  function FilterByCountry(df: seq<Track>, selected: Option<seq<string>>): (rows: seq<Track>)
    ensures !Restricts(selected) ==> rows == df
    ensures Restricts(selected) ==>
              forall r :: r in rows <==> r in df && r.country.Some? && r.country.value in selected.value
  {
    if Restricts(selected) then Filter(df, InCountries(selected.value)) else df
  }

  /** The filter keeps row order: filtering a concatenation filters each part. */
  lemma FilterByCountryKeepsOrder(a: seq<Track>, b: seq<Track>, selected: Option<seq<string>>)
    ensures FilterByCountry(a + b, selected) == FilterByCountry(a, selected) + FilterByCountry(b, selected)
  {
    if Restricts(selected) {
      FilterAppend(a, b, InCountries(selected.value));
    }
  }

  /** A selected row survives as many times as it occurs; any other row is gone. */
  lemma FilterByCountryMultiplicity(df: seq<Track>, selected: Option<seq<string>>, r: Track)
    ensures multiset(FilterByCountry(df, selected))[r] ==
            if !Restricts(selected) || (r.country.Some? && r.country.value in selected.value)
            then multiset(df)[r] else 0
  {
    if Restricts(selected) {
      FilterCount(df, InCountries(selected.value), r);
    }
  }
}
