/** The overview page ("Страница 1"): the duration and tempo display helpers
    and the figures the country dropdown drives — genre popularity, the share
    of non-explicit tracks, the tempo mix and the three duration cards. */
module Page1 {
  import opened Frames
  import opened Tracks

  // ---------------------------------------------------------------------
  // Loading
  // ---------------------------------------------------------------------

  /** `df['explicit'].fillna(False)`: a missing explicit flag becomes false,
      every other cell is left as it was. */
  function FillMissingExplicit(raw: seq<Track>): (df: seq<Track>)
    ensures |df| == |raw|
    ensures forall i :: 0 <= i < |raw| ==>
              df[i].explicit.Some? &&
              (raw[i].explicit.Some? ==> df[i].explicit == raw[i].explicit) &&
              (raw[i].explicit.None? ==> df[i].explicit == Some(false)) &&
              df[i].(explicit := raw[i].explicit) == raw[i]
  {
    seq(|raw|, i requires 0 <= i < |raw| => raw[i].(explicit := Some(raw[i].explicit.GetOr(false))))
  }

  /** Every row of a table whose explicit flags were filled. */
  predicate ExplicitFilled(rows: seq<Track>) {
    forall r :: r in rows ==> r.explicit.Some?
  }

  /** `df['country'].unique()`, the dropdown's options: each country cell
      once, in order of first appearance; a missing country is an option too. */
  function AllCountries(df: seq<Track>): (options: seq<Option<string>>)
    ensures NoDup(options)
    ensures forall c :: c in options <==> exists r :: r in df && r.country == c
  {
    var col := Column(df, CountryOf);
    assert forall c :: c in col <==> exists r :: r in df && r.country == c by {
      forall c ensures c in col <==> exists r :: r in df && r.country == c {
        if c in col {
          var i :| 0 <= i < |col| && col[i] == c;
          assert df[i] in df;
        }
        if exists r :: r in df && r.country == c {
          var r :| r in df && r.country == c;
          var i :| 0 <= i < |df| && df[i] == r;
          assert col[i] == c;
        }
      }
    }
    Distinct(col)
  }

  // ---------------------------------------------------------------------
  // ms_to_min_sec
  // ---------------------------------------------------------------------

  /** Python's float `x % 60`: the remainder takes the sign of the divisor. */
  function Mod60(x: real): (r: real)
    ensures 0.0 <= r < 60.0
  {
    x - 60.0 * ((x / 60.0).Floor as real)
  }

  /** Python's `int()` on a float: truncation toward zero. */
  function Trunc(y: real): (n: int)
    ensures y >= 0.0 ==> n as real <= y < n as real + 1.0
    ensures y < 0.0 ==> n as real - 1.0 < y <= n as real
  {
    if y >= 0.0 then y.Floor else -((-y).Floor)
  }

  /** `int((duration_ms / 1000) % 60)`. */
  function SecondsField(ms: real): int {
    Trunc(Mod60(ms / 1000.0))
  }

  /** `int((duration_ms / (1000 * 60)) % 60)`. */
  function MinutesField(ms: real): int {
    Trunc(Mod60(ms / 60000.0))
  }

  /** Truncating a float remainder modulo 60 is the floor taken modulo 60. */
  lemma ClockField(x: real)
    ensures Trunc(Mod60(x)) == x.Floor % 60
  {
    var k := (x / 60.0).Floor;
    var r := Mod60(x);
    assert x == 60.0 * (k as real) + r;
    assert x.Floor == 60 * k + r.Floor;
  }

  /** The seconds field is floor(ms / 1000) mod 60 and the minutes field
      floor(ms / 60000) mod 60, for every duration, negative ones included. */
  lemma FieldsAreFloorMod(ms: real)
    ensures SecondsField(ms) == (ms / 1000.0).Floor % 60
    ensures MinutesField(ms) == (ms / 60000.0).Floor % 60
    ensures 0 <= SecondsField(ms) < 60 && 0 <= MinutesField(ms) < 60
  {
    ClockField(ms / 1000.0);
    ClockField(ms / 60000.0);
  }

  predicate IsDigit(c: char) {
    '0' <= c <= '9'
  }

  function DigitChar(d: int): (c: char)
    requires 0 <= d < 10
    ensures IsDigit(c) && c as int - '0' as int == d
  {
    ('0' as int + d) as char
  }

  /** The value of a string of decimal digits (0 for the empty string). */
  function DecimalValue(s: string): int {
    if s == [] then 0 else DecimalValue(s[..|s| - 1]) * 10 + (s[|s| - 1] as int - '0' as int)
  }

  /** `str(n)` of a non-negative integer: its decimal digits, no leading zero. */
  function DecimalString(n: nat): (s: string)
    ensures |s| >= 1 && forall i :: 0 <= i < |s| ==> IsDigit(s[i])
    ensures DecimalValue(s) == n
    ensures n < 10 <==> |s| == 1
    ensures n < 100 ==> |s| <= 2
    ensures |s| > 1 ==> s[0] != '0'
  {
    if n < 10 then [DigitChar(n)]
    else
      var init := DecimalString(n / 10);
      var s := init + [DigitChar(n % 10)];
      assert s[..|s| - 1] == init;
      s
  }

  /** The `{seconds:02d}` format: at least two digits, zero-padded. */
  function TwoDigits(n: nat): (s: string)
    requires n < 100
    ensures |s| == 2 && IsDigit(s[0]) && IsDigit(s[1])
    ensures DecimalValue(s) == n
  {
    var d := DecimalString(n);
    if |d| < 2 then
      var s := "0" + d;
      assert s[..1] == "0";
      s
    else d
  }

  /** `ms_to_min_sec`: "M:SS" — the minutes without padding, a colon, and
      the seconds in exactly two digits. */
  function MsToMinSec(ms: real): (text: string)
    ensures 4 <= |text| <= 5
    ensures text[|text| - 3] == ':'
    ensures forall i :: 0 <= i < |text| && i != |text| - 3 ==> IsDigit(text[i])
    ensures |text| == 4 <==> MinutesField(ms) < 10
    ensures |text| == 5 ==> text[0] != '0'
  {
    FieldsAreFloorMod(ms);
    var m := DecimalString(MinutesField(ms));
    var text := m + ":" + TwoDigits(SecondsField(ms));
    assert |m| > 1 ==> text[0] == m[0];
    text
  }

  /** Reads an "M:SS" display back into its (minutes, seconds) fields. */
  function ParseMinSec(text: string): Option<(int, int)> {
    if |text| < 4 || text[|text| - 3] != ':' then None
    else if exists i :: 0 <= i < |text| && i != |text| - 3 && !IsDigit(text[i]) then None
    else Some((DecimalValue(text[..|text| - 3]), DecimalValue(text[|text| - 2..])))
  }

  /** What a duration card shows is exactly the two clock fields: reading it
      back gives floor(ms / 60000) mod 60 and floor(ms / 1000) mod 60. */
  lemma MsToMinSecRoundTrip(ms: real)
    ensures ParseMinSec(MsToMinSec(ms)) == Some(((ms / 60000.0).Floor % 60, (ms / 1000.0).Floor % 60))
  {
    FieldsAreFloorMod(ms);
    var m := DecimalString(MinutesField(ms));
    var s := TwoDigits(SecondsField(ms));
    assert MsToMinSec(ms) == m + ":" + s;
    ParseFormatted(m, s);
  }

  /** Reading back "M:SS" built from digit strings gives their values. */
  lemma ParseFormatted(m: string, s: string)
    requires 1 <= |m| <= 2 && forall i :: 0 <= i < |m| ==> IsDigit(m[i])
    requires |s| == 2 && IsDigit(s[0]) && IsDigit(s[1])
    ensures ParseMinSec(m + ":" + s) == Some((DecimalValue(m), DecimalValue(s)))
  {
    var text := m + ":" + s;
    assert text[..|text| - 3] == m;
    assert text[|text| - 2..] == s;
    assert text[|text| - 3] == ':';
    forall i | 0 <= i < |text| && i != |text| - 3 ensures IsDigit(text[i]) {
      if i < |m| {
        assert text[i] == m[i];
      } else {
        assert text[i] == s[i - |m| - 1];
      }
    }
  }

  /** Whole hours are dropped: adding an hour does not change the display. */
  lemma MsToMinSecHourly(ms: real)
    ensures MsToMinSec(ms + 3600000.0) == MsToMinSec(ms)
  {
    var later := ms + 3600000.0;
    FieldsAreFloorMod(ms);
    FieldsAreFloorMod(later);
    assert later / 1000.0 == ms / 1000.0 + 3600 as real;
    FloorShift(ms / 1000.0, 3600);
    ModShift((ms / 1000.0).Floor, 60);
    assert SecondsField(later) == SecondsField(ms);
    assert later / 60000.0 == ms / 60000.0 + 60 as real;
    FloorShift(ms / 60000.0, 60);
    ModShift((ms / 60000.0).Floor, 1);
    assert MinutesField(later) == MinutesField(ms);
  }

  lemma FloorShift(x: real, k: int)
    ensures (x + k as real).Floor == x.Floor + k
  {
  }

  lemma ModShift(a: int, k: int)
    ensures (a + 60 * k) % 60 == a % 60
  {
  }

  /** A track of exactly one hour is shown as "0:00". */
  lemma OneHourShowsZero()
    ensures MsToMinSec(3600000.0) == "0:00"
  {
    FieldsAreFloorMod(3600000.0);
    assert (3600000.0 / 1000.0).Floor == 3600;
    assert (3600000.0 / 60000.0).Floor == 60;
    assert DecimalString(0) == "0";
    assert TwoDigits(0) == "00";
  }

  // ---------------------------------------------------------------------
  // categorize_tempo
  // ---------------------------------------------------------------------

  datatype TempoBand = Slow | Medium | Fast

  /** `categorize_tempo`: below 80 is slow, from 80 up to (not including)
      110 is medium, everything else is fast. A missing tempo (NaN) fails
      both comparisons and so lands in the fast band. */
  function CategorizeTempo(tempo: Option<real>): (band: TempoBand)
    ensures band == Slow <==> tempo.Some? && tempo.value < 80.0
    ensures band == Medium <==> tempo.Some? && 80.0 <= tempo.value < 110.0
    ensures band == Fast <==> tempo.None? || 110.0 <= tempo.value
  {
    if tempo.Some? && tempo.value < 80.0 then Slow
    else if tempo.Some? && 80.0 <= tempo.value < 110.0 then Medium
    else Fast
  }

  function BandIndex(band: TempoBand): int {
    match band
    case Slow => 0
    case Medium => 1
    case Fast => 2
  }

  /** A faster tempo never falls in a slower band. */
  lemma CategorizeTempoMonotone(t1: real, t2: real)
    requires t1 <= t2
    ensures BandIndex(CategorizeTempo(Some(t1))) <= BandIndex(CategorizeTempo(Some(t2)))
  {
  }

  /** The label each band carries on the chart. */
  function TempoLabel(band: TempoBand): (text: string)
    ensures |text| > 0
  {
    match band
    case Slow => "Медленный (0-80)"
    case Medium => "Средний (80-110)"
    case Fast => "Быстрый (110+)"
  }

  /** Different bands have different labels, so counting labels counts bands. */
  lemma TempoLabelsDistinct(b1: TempoBand, b2: TempoBand)
    ensures TempoLabel(b1) == TempoLabel(b2) <==> b1 == b2
  {
  }

  function TempoLabelOf(r: Track): string {
    TempoLabel(CategorizeTempo(r.tempo))
  }

  /** The new `tempo_category` column: never missing. */
  function TempoLabelCell(r: Track): Option<string> {
    Some(TempoLabelOf(r))
  }

  /** The three labels the donut can show. */
  function BandLabels(): set<string> {
    {TempoLabel(Slow), TempoLabel(Medium), TempoLabel(Fast)}
  }

  function TempoLabels(rows: seq<Track>): (labels: seq<string>)
    ensures |labels| == |rows|
    ensures forall i :: 0 <= i < |rows| ==> labels[i] == TempoLabel(CategorizeTempo(rows[i].tempo))
    ensures forall l :: l in labels ==> l in BandLabels()
  {
    var labels := Column(rows, TempoLabelOf);
    forall i | 0 <= i < |labels| ensures labels[i] in BandLabels() {
      assert labels[i] == TempoLabel(CategorizeTempo(rows[i].tempo));
    }
    labels
  }

  // ---------------------------------------------------------------------
  // Chart inputs
  // ---------------------------------------------------------------------

  /** The genre bar chart: mean popularity per genre, highest first, top 10. */
  function GenreChart(rows: seq<Track>): (chart: seq<(string, Option<real>)>)
    ensures |chart| == Min(10, |GroupKeys(rows, TrackGenreOf)|)
    ensures DistinctBy(chart, Fst)
    ensures forall e :: e in chart ==>
              (exists r :: r in rows && r.trackGenre == Some(e.0)) &&
              e.1 == Mean(Column(Group(rows, TrackGenreOf, e.0), PopularityOf))
    ensures Descending(chart, Snd)
    ensures forall g :: Some(g) in Column(rows, TrackGenreOf) && g !in Column(chart, Fst) ==>
              |chart| == 10 &&
              forall e :: e in chart ==> ScoreLe(Mean(Column(Group(rows, TrackGenreOf, g), PopularityOf)), e.1)
  {
    var chart := TopGroupMeans(rows, TrackGenreOf, PopularityOf, 10);
    forall e | e in chart ensures exists r :: r in rows && r.trackGenre == Some(e.0) {
      var col := Column(rows, TrackGenreOf);
      var i :| 0 <= i < |col| && col[i] == Some(e.0);
      assert rows[i] in rows;
    }
    chart
  }

  /** The explicit flag as the number `mean()` averages: true is 1, false 0. */
  function ExplicitNum(r: Track): Option<real> {
    match r.explicit
    case None => None
    case Some(b) => Some(if b then 1.0 else 0.0)
  }

  function IsNotExplicit(r: Track): bool {
    r.explicit == Some(false)
  }

  /** `(1 - filtered_data['explicit'].mean()) * 100`; missing (NaN) when
      there is no flag to average. */
  function NonExplicitPercent(rows: seq<Track>): (p: Option<real>)
    ensures p.None? <==> Present(Column(rows, ExplicitNum)) == []
  {
    match Mean(Column(rows, ExplicitNum))
    case None => None
    case Some(m) => Some((1.0 - m) * 100.0)
  }

  /** With every flag present, the flags sum to the number of explicit rows. */
  lemma {:induction false} ExplicitCount(rows: seq<Track>)
    requires ExplicitFilled(rows)
    ensures |Present(Column(rows, ExplicitNum))| == |rows|
    ensures Sum(Present(Column(rows, ExplicitNum))) + |Filter(rows, IsNotExplicit)| as real == |rows| as real
  {
    if rows != [] {
      var t := rows[1..];
      assert ExplicitFilled(t) by {
        forall r | r in t ensures r.explicit.Some? {
          assert r in rows;
        }
      }
      ExplicitCount(t);
      ColumnTail(rows, ExplicitNum);
      var col := Column(rows, ExplicitNum);
      assert col[1..] == Column(t, ExplicitNum);
      assert rows[0] in rows;
    }
  }

  /** One minus the explicit share is the non-explicit share, in percent. */
  lemma ComplementShare(p: Option<real>, others: nat, n: nat)
    requires others <= n && 0 < n
    requires p == Some((1.0 - (n - others) as real / n as real) * 100.0)
    ensures p == Some(PercentOfRows(others, n))
    ensures 0.0 <= p.value <= 100.0
  {
    var o, w := others as real, n as real;
    var e := (n - others) as real;
    DivAdd(e, o, w);
    DivSelf(w);
    assert 1.0 - e / w == o / w;
    ScaleDiv(100.0, o, w);
    DivMono(o, w, w);
    DivMono(0.0, o, w);
  }

  lemma DivAdd(a: real, b: real, n: real)
    requires n > 0.0
    ensures (a + b) / n == a / n + b / n
  {
  }

  lemma ScaleDiv(c: real, a: real, n: real)
    requires n > 0.0
    ensures c * a / n == (a / n) * c
  {
  }

  lemma DivMono(a: real, b: real, n: real)
    requires n > 0.0 && a <= b
    ensures a / n <= b / n
  {
  }

  /** The gauge: once the flags are filled, the percentage of non-explicit
      rows, a number between 0 and 100. */
  lemma NonExplicitShare(rows: seq<Track>)
    requires rows != [] && ExplicitFilled(rows)
    ensures NonExplicitPercent(rows) == Some(PercentOfRows(|Filter(rows, IsNotExplicit)|, |rows|))
    ensures 0.0 <= NonExplicitPercent(rows).value <= 100.0
  {
    FilledMean(rows);
    GaugeOfShare(rows, |Filter(rows, IsNotExplicit)|);
  }

  /** A mean flag equal to the explicit share puts the complement on the
      gauge. */
  lemma GaugeOfShare(rows: seq<Track>, others: nat)
    requires others <= |rows| && rows != []
    requires Mean(Column(rows, ExplicitNum)) == Some((|rows| - others) as real / |rows| as real)
    ensures NonExplicitPercent(rows) == Some(PercentOfRows(others, |rows|))
    ensures 0.0 <= NonExplicitPercent(rows).value <= 100.0
  {
    GaugeOfMean(rows, (|rows| - others) as real / |rows| as real);
    ComplementShare(NonExplicitPercent(rows), others, |rows|);
  }

  /** With every flag present, the mean flag is the share of explicit rows. */
  lemma FilledMean(rows: seq<Track>)
    requires rows != [] && ExplicitFilled(rows)
    ensures Mean(Column(rows, ExplicitNum)) ==
            Some((|rows| - |Filter(rows, IsNotExplicit)|) as real / |rows| as real)
  {
    ExplicitCount(rows);
    var vals := Present(Column(rows, ExplicitNum));
    assert Sum(vals) == (|rows| - |Filter(rows, IsNotExplicit)|) as real;
    assert vals != [] && |vals| as real == |rows| as real;
  }

  /** The gauge shows one minus the mean flag, in percent. */
  lemma GaugeOfMean(rows: seq<Track>, m: real)
    requires Mean(Column(rows, ExplicitNum)) == Some(m)
    ensures NonExplicitPercent(rows) == Some((1.0 - m) * 100.0)
  {
  }

  /** `tempo_dist['Percentage'] * 100`. */
  function Percentages(fr: seq<(string, real)>): (p: seq<(string, real)>)
    ensures |p| == |fr|
    ensures forall i :: 0 <= i < |fr| ==> p[i] == (fr[i].0, fr[i].1 * 100.0)
    ensures SumBy(p, Snd) == 100.0 * SumBy(fr, Snd)
  {
    if fr == [] then []
    else
      var rest := Percentages(fr[1..]);
      var p := [(fr[0].0, fr[0].1 * 100.0)] + rest;
      assert p[1..] == rest;
      p
  }

  /** The tempo donut: share of each band among the filtered rows, in percent. */
  function TempoShares(rows: seq<Track>): seq<(string, real)> {
    Percentages(NormalizedValueCounts(Column(rows, TempoLabelCell)))
  }

  lemma PercentOf(count: nat, total: nat)
    requires total > 0 && count >= 1
    ensures (count as real / total as real) * 100.0 == PercentOfRows(count, total) > 0.0
  {
  }

  /** The tempo mix: one slice per band that occurs, each 100 × (its rows) /
      (all rows), every slice positive, at most three, summing to 100. */
  lemma TempoSharesFacts(rows: seq<Track>)
    ensures rows == [] ==> TempoShares(rows) == []
    ensures rows != [] ==> SumBy(TempoShares(rows), Snd) == 100.0
    ensures DistinctBy(TempoShares(rows), Fst)
    ensures forall l :: l in Column(TempoShares(rows), Fst) <==> l in TempoLabels(rows)
    ensures forall e :: e in TempoShares(rows) ==>
              e.1 > 0.0 && e.1 == PercentOfRows(multiset(TempoLabels(rows))[e.0], |rows|)
    ensures |TempoShares(rows)| <= 3
  {
    TempoSharesShape(rows);
    TempoShareValues(rows);
    TempoShareCount(rows);
  }

  /** The slices, keyed like `value_counts`: empty for no rows, summing to
      100 otherwise, one per label that occurs. */
  lemma TempoSharesShape(rows: seq<Track>)
    ensures rows == [] ==> TempoShares(rows) == []
    ensures rows != [] ==> SumBy(TempoShares(rows), Snd) == 100.0
    ensures DistinctBy(TempoShares(rows), Fst)
    ensures forall l :: l in Column(TempoShares(rows), Fst) <==> l in TempoLabels(rows)
  {
    TempoSharesSum(rows);
    TempoSharesKeyed(rows);
  }

  lemma TempoSharesSum(rows: seq<Track>)
    ensures rows == [] ==> TempoShares(rows) == []
    ensures rows != [] ==> SumBy(TempoShares(rows), Snd) == 100.0
  {
    TempoColumn(rows);
    if rows != [] {
      assert TempoLabels(rows)[0] in TempoLabels(rows);
    }
  }

  lemma TempoSharesKeyed(rows: seq<Track>)
    ensures DistinctBy(TempoShares(rows), Fst)
    ensures forall l :: l in Column(TempoShares(rows), Fst) <==> l in TempoLabels(rows)
  {
    var vc := ValueCounts(Column(rows, TempoLabelCell));
    var ks := Column(TempoShares(rows), Fst);
    SharesKeys(rows);
    TempoColumn(rows);
    forall i, j | 0 <= i < j < |ks| ensures ks[i] != ks[j] {
      assert ks[i] == Fst(vc[i]) && ks[j] == Fst(vc[j]);
    }
  }

  /** The slices carry the keys of `value_counts`, in its order. */
  lemma SharesKeys(rows: seq<Track>)
    ensures Column(TempoShares(rows), Fst) == Column(ValueCounts(Column(rows, TempoLabelCell)), Fst)
  {
  }

  /** The tempo column has no missing cell, so `value_counts` sees every label. */
  lemma TempoColumn(rows: seq<Track>)
    ensures Present(Column(rows, TempoLabelCell)) == TempoLabels(rows)
    ensures forall l :: Some(l) in Column(rows, TempoLabelCell) <==> l in TempoLabels(rows)
  {
    var col := Column(rows, TempoLabelCell);
    var labels := TempoLabels(rows);
    PresentAllSome(col);
    forall l | l in labels ensures Some(l) in col {
      var i :| 0 <= i < |labels| && labels[i] == l;
      assert col[i] == Some(l);
    }
  }

  /** The percentage of `total` rows that `count` rows make up. */
  function PercentOfRows(count: nat, total: nat): real
    requires total > 0
  {
    100.0 * count as real / total as real
  }

  lemma TempoShareValues(rows: seq<Track>)
    ensures forall e :: e in TempoShares(rows) ==>
              e.1 > 0.0 && e.1 == PercentOfRows(multiset(TempoLabels(rows))[e.0], |rows|)
  {
    var shares := TempoShares(rows);
    forall e | e in shares
      ensures e.1 > 0.0 && e.1 == PercentOfRows(multiset(TempoLabels(rows))[e.0], |rows|)
    {
      var i :| 0 <= i < |shares| && shares[i] == e;
      TempoShareAt(rows, i);
    }
  }

  lemma TempoShareAt(rows: seq<Track>, i: int)
    requires 0 <= i < |TempoShares(rows)|
    ensures var e := TempoShares(rows)[i];
      && e.0 in TempoLabels(rows)
      && e.1 > 0.0
      && e.1 == PercentOfRows(multiset(TempoLabels(rows))[e.0], |rows|)
  {
    var col := Column(rows, TempoLabelCell);
    TempoColumn(rows);
    NormalizedEntry(col, i);
    PercentOf(multiset(TempoLabels(rows))[TempoShares(rows)[i].0], |rows|);
  }

  lemma TempoShareCount(rows: seq<Track>)
    requires DistinctBy(TempoShares(rows), Fst)
    ensures |TempoShares(rows)| <= 3
  {
    var ks := Column(TempoShares(rows), Fst);
    TempoShareKeys(rows);
    forall i | 0 <= i < |ks| ensures ks[i] in BandLabels() {
      assert ks[i] in ks;
    }
    NoDupBound(ks, BandLabels());
    BandLabelsSize();
  }

  /** The three bands have three different labels. */
  lemma BandLabelsSize()
    ensures |BandLabels()| == 3
  {
    var slow, medium, fast := TempoLabel(Slow), TempoLabel(Medium), TempoLabel(Fast);
    assert slow != medium && slow != fast && medium != fast by {
      TempoLabelsDistinct(Slow, Medium);
      TempoLabelsDistinct(Slow, Fast);
      TempoLabelsDistinct(Medium, Fast);
    }
    assert BandLabels() == {slow} + {medium} + {fast};
  }

  /** The slices are labelled by the labels that occur, each label of one
      of the three bands. */
  lemma TempoShareKeys(rows: seq<Track>)
    ensures forall l :: l in Column(TempoShares(rows), Fst) ==> l in TempoLabels(rows) && l in BandLabels()
  {
    var col := Column(rows, TempoLabelCell);
    TempoColumn(rows);
    var vc := ValueCounts(col);
    var shares := TempoShares(rows);
    assert Column(shares, Fst) == Column(vc, Fst);
  }

  // ---------------------------------------------------------------------
  // Duration cards
  // ---------------------------------------------------------------------

  datatype DurationStats = DurationStats(shortest: real, average: real, longest: real)

  /** `min()`, `mean()` and `max()` of the non-missing durations. */
  function DurationStatsOf(rows: seq<Track>): (st: Option<DurationStats>)
    ensures st.None? <==> Present(Column(rows, DurationOf)) == []
    ensures st.Some? ==>
              var d := Present(Column(rows, DurationOf));
              && st.value.shortest in d && st.value.longest in d
              && (forall x :: x in d ==> st.value.shortest <= x <= st.value.longest)
              && Mean(Column(rows, DurationOf)) == Some(st.value.average)
              && st.value.shortest <= st.value.average <= st.value.longest
  {
    var d := Present(Column(rows, DurationOf));
    if d == [] then None
    else
      MeanInRange(Column(rows, DurationOf));
      Some(DurationStats(Minimum(d), Mean(Column(rows, DurationOf)).value, Maximum(d)))
  }

  datatype DurationCards = DurationCards(shortest: string, average: string, longest: string)

  /** `int(NaN)` inside `ms_to_min_sec`: raised when rows match the filter
      but none of them has a duration. */
  datatype CardError = NanToInt

  /** The three cards: "0:00" each when no row matches; otherwise the
      formatted shortest, mean and longest duration. */
  function DurationCardsOf(rows: seq<Track>): (cards: Result<DurationCards, CardError>)
    ensures rows == [] ==> cards == Ok(DurationCards("0:00", "0:00", "0:00"))
    ensures cards.Err? <==> rows != [] && Present(Column(rows, DurationOf)) == []
    ensures rows != [] && cards.Ok? ==>
              var st := DurationStatsOf(rows).value;
              cards.value == DurationCards(MsToMinSec(st.shortest), MsToMinSec(st.average), MsToMinSec(st.longest))
  {
    if rows == [] then Ok(DurationCards("0:00", "0:00", "0:00"))
    else
      match DurationStatsOf(rows)
      case None => Err(NanToInt)
      case Some(st) => Ok(DurationCards(MsToMinSec(st.shortest), MsToMinSec(st.average), MsToMinSec(st.longest)))
  }

  // ---------------------------------------------------------------------
  // The callback
  // ---------------------------------------------------------------------

  datatype Page1View = Page1View(
    genres: seq<(string, Option<real>)>,
    nonExplicitPercent: Option<real>,
    tempo: seq<(string, real)>,
    cards: DurationCards)

  /** `update_all_charts`: filter by the selected countries, then compute
      every figure's data and the three cards from the same filtered rows. */
  method UpdateAllCharts(df: seq<Track>, selected: Option<seq<string>>) returns (view: Result<Page1View, CardError>)
    ensures var rows := FilterByCountry(df, selected);
      && (view.Err? <==> rows != [] && Present(Column(rows, DurationOf)) == [])
      && (view.Ok? ==> view.value == Page1View(GenreChart(rows), NonExplicitPercent(rows),
                                               TempoShares(rows), DurationCardsOf(rows).value))
  {
    var filtered := df;
    if Restricts(selected) {
      filtered := Filter(filtered, InCountries(selected.value));
    }
    var genres := GenreChart(filtered);
    var nonExplicit := NonExplicitPercent(filtered);
    var tempoData := Column(filtered, TempoLabelCell);
    var tempoDist := NormalizedValueCounts(tempoData);
    tempoDist := Percentages(tempoDist);
    var cards := DurationCardsOf(filtered);
    if cards.Err? {
      return Err(cards.error);
    }
    view := Ok(Page1View(genres, nonExplicit, tempoDist, cards.value));
  }

  /** Rows of the loaded table keep a filled explicit flag through any filter. */
  lemma FilteredLoadIsFilled(raw: seq<Track>, selected: Option<seq<string>>)
    ensures ExplicitFilled(FilterByCountry(FillMissingExplicit(raw), selected))
  {
    var df := FillMissingExplicit(raw);
    forall r | r in FilterByCountry(df, selected) ensures r.explicit.Some? {
      var i :| 0 <= i < |df| && df[i] == r;
    }
  }
}
