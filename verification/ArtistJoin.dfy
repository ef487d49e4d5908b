/** The offline step that builds the track table the pages load: a left
    merge of the track sheet with the artist sheet on the artist name, the
    helper key dropped, two artist columns renamed, and every row with a
    missing cell removed. */
module ArtistJoin {
  import opened Frames

  datatype Value = Text(text: string) | Number(x: real)

  /** A cell; `None` is pandas' NaN. */
  type Cell = Option<Value>

  /** A row maps each column name to its cell. */
  type Row = map<string, Cell>

  datatype Table = Table(columns: seq<string>, rows: seq<Row>)

  /** Column names are unique and every row has exactly the table's columns. */
  predicate WellFormed(t: Table) {
    NoDup(t.columns) && forall r :: r in t.rows ==> r.Keys == (set c | c in t.columns)
  }

  const ArtistsKey: string := "artists"
  const ArtistMb: string := "artist_mb"
  const CountryLastfm: string := "country_lastfm"
  const TagsLastfm: string := "tags_lastfm"
  const Style: string := "style"
  const Country: string := "country"

  /** The five column names the step adds, drops or produces. */
  function StepColumns(): set<string> {
    {ArtistMb, CountryLastfm, TagsLastfm, Style, Country}
  }

  /** `row[c]`, missing when the row has no such column. */
  function Lookup(r: Row, c: string): Cell {
    if c in r then r[c] else None
  }

  // ---------------------------------------------------------------------
  // The left merge
  // ---------------------------------------------------------------------

  /** A left row widened by the three right-hand columns: copied from the
      matching right row, or all missing when there is none. */
  function Attach(l: Row, m: Option<Row>): Row {
    match m
    case Some(mr) =>
      l[ArtistMb := Lookup(mr, ArtistMb)][CountryLastfm := Lookup(mr, CountryLastfm)][TagsLastfm := Lookup(mr, TagsLastfm)]
    case None =>
      l[ArtistMb := None][CountryLastfm := None][TagsLastfm := None]
  }

  /** `left_on='artists', right_on='artist_mb'`: the right row's key equals
      the left row's key (two missing keys match, as in pandas). */
  predicate KeysMatch(l: Row, m: Row) {
    Lookup(m, ArtistMb) == Lookup(l, ArtistsKey)
  }

  function MatchesOf(l: Row): Row -> bool {
    (m: Row) => KeysMatch(l, m)
  }

  function AttachTo(l: Row): Row -> Row {
    (m: Row) => Attach(l, Some(m))
  }

  /** The merged rows one left row produces: one per matching right row, in
      right-table order, or the left row once with missing right fields. */
  function MergeRow(l: Row, right: seq<Row>): (out: seq<Row>)
    ensures var ms := Filter(right, MatchesOf(l));
      && |out| == (if ms == [] then 1 else |ms|)
      && (ms == [] ==> out == [Attach(l, None)])
      && (forall j :: 0 <= j < |ms| ==> out[j] == Attach(l, Some(ms[j])))
  {
    var ms := Filter(right, MatchesOf(l));
    if ms == [] then [Attach(l, None)] else Column(ms, AttachTo(l))
  }

  /** `pd.merge(..., how='left')`: the left rows in order, each expanded as
      `MergeRow` says. */
  function MergeLeft(left: seq<Row>, right: seq<Row>): seq<Row> {
    if left == [] then [] else MergeRow(left[0], right) + MergeLeft(left[1..], right)
  }

  /** Merging a concatenation merges each part: left order is kept. */
  lemma {:induction false} MergeLeftAppend(a: seq<Row>, b: seq<Row>, right: seq<Row>)
    ensures MergeLeft(a + b, right) == MergeLeft(a, right) + MergeLeft(b, right)
  {
    if a != [] {
      var head := MergeRow(a[0], right);
      assert (a + b)[0] == a[0];
      assert (a + b)[1..] == a[1..] + b;
      MergeLeftAppend(a[1..], b, right);
      calc {
        MergeLeft(a + b, right);
        head + MergeLeft(a[1..] + b, right);
        head + (MergeLeft(a[1..], right) + MergeLeft(b, right));
        (head + MergeLeft(a[1..], right)) + MergeLeft(b, right);
        MergeLeft(a, right) + MergeLeft(b, right);
      }
    } else {
      assert a + b == b;
    }
  }

  /** Every merged row comes from one left row and either a matching right
      row or none at all. */
  lemma {:induction false} MergeLeftMember(left: seq<Row>, right: seq<Row>, x: Row)
    requires x in MergeLeft(left, right)
    ensures exists l :: l in left &&
              (x == Attach(l, None) || exists m :: m in right && KeysMatch(l, m) && x == Attach(l, Some(m)))
  {
    var l := left[0];
    var ms := Filter(right, MatchesOf(l));
    if x in MergeRow(l, right) {
      assert l in left;
      if ms != [] {
        var j :| 0 <= j < |MergeRow(l, right)| && MergeRow(l, right)[j] == x;
        assert ms[j] in ms;
        assert MatchesOf(l)(ms[j]);
      }
    } else {
      MergeLeftMember(left[1..], right, x);
      var l' :| l' in left[1..] &&
        (x == Attach(l', None) || exists m :: m in right && KeysMatch(l', m) && x == Attach(l', Some(m)));
      assert l' in left;
    }
  }

  /** Every pair of a left row and a matching right row is merged. */
  lemma {:induction false} MergeLeftComplete(left: seq<Row>, right: seq<Row>, l: Row, m: Row)
    requires l in left && m in right && KeysMatch(l, m)
    ensures Attach(l, Some(m)) in MergeLeft(left, right)
  {
    if l == left[0] {
      var ms := Filter(right, MatchesOf(l));
      assert m in ms;
      var j :| 0 <= j < |ms| && ms[j] == m;
      assert MergeRow(l, right)[j] == Attach(l, Some(m));
    } else {
      MergeLeftComplete(left[1..], right, l, m);
    }
  }

  // ---------------------------------------------------------------------
  // Column edits and dropna
  // ---------------------------------------------------------------------

  function DropRow(r: Row, c: string): Row {
    r - {c}
  }

  function RenameRow(r: Row, from: string, to: string): Row {
    if from in r then (r - {from})[to := r[from]] else r
  }

  function Rename(c: string, from: string, to: string): string {
    if c == from then to else c
  }

  function NotNamed(c: string): string -> bool {
    (x: string) => x != c
  }

  function DropFrom(c: string): Row -> Row {
    (r: Row) => DropRow(r, c)
  }

  function RenameIn(from: string, to: string): Row -> Row {
    (r: Row) => RenameRow(r, from, to)
  }

  function RenameTo(from: string, to: string): string -> string {
    (x: string) => Rename(x, from, to)
  }

  /** `drop(c, axis=1)`: the column removed from the header and every row. */
  function DropColumn(t: Table, c: string): (u: Table)
    ensures u.columns == Filter(t.columns, NotNamed(c))
    ensures |u.rows| == |t.rows| && forall i :: 0 <= i < |t.rows| ==> u.rows[i] == t.rows[i] - {c}
  {
    Table(Filter(t.columns, NotNamed(c)), Column(t.rows, DropFrom(c)))
  }

  /** `rename(columns={from: to})`: the column keeps its place and its cells
      under the new name; a name not in the table changes nothing. */
  function RenameColumn(t: Table, from: string, to: string): (u: Table)
    ensures |u.columns| == |t.columns| && forall i :: 0 <= i < |t.columns| ==> u.columns[i] == Rename(t.columns[i], from, to)
    ensures |u.rows| == |t.rows| && forall i :: 0 <= i < |t.rows| ==> u.rows[i] == RenameRow(t.rows[i], from, to)
  {
    Table(Column(t.columns, RenameTo(from, to)), Column(t.rows, RenameIn(from, to)))
  }

  /** A row with no missing cell. */
  predicate Complete(r: Row) {
    forall c :: c in r ==> r[c].Some?
  }

  /** `dropna()`: the rows with no missing cell, in order. */
  function DropNa(t: Table): (u: Table)
    ensures u.columns == t.columns
    ensures forall r :: r in u.rows <==> r in t.rows && Complete(r)
  {
    Table(t.columns, Filter(t.rows, Complete))
  }

  // ---------------------------------------------------------------------
  // The whole step
  // ---------------------------------------------------------------------

  /** The KeyError pandas raises, naming the absent columns. */
  datatype CleanError = KeyError(columns: seq<string>)

  /** The three columns `df_table2[[...]]` selects, in the order listed. */
  const Selected: seq<string> := [ArtistMb, CountryLastfm, TagsLastfm]

  function AbsentFrom(t: Table): string -> bool {
    (c: string) => c !in t.columns
  }

  /** The selected columns the artist sheet lacks, in the order listed. */
  function MissingSelected(t2: Table): (missing: seq<string>)
    ensures forall c :: c in missing <==> c in Selected && c !in t2.columns
    ensures missing == [] <==> ArtistMb in t2.columns && CountryLastfm in t2.columns && TagsLastfm in t2.columns
  {
    var missing := Filter(Selected, AbsentFrom(t2));
    assert missing != [] ==> missing[0] in missing;
    missing
  }

  /** The left merge with `df_table2[['artist_mb', 'country_lastfm', 'tags_lastfm']]`. */
  function Merge(t1: Table, t2: Table): Table {
    Table(t1.columns + [ArtistMb, CountryLastfm, TagsLastfm], MergeLeft(t1.rows, t2.rows))
  }

  /** What the step hands to `to_csv`, or the KeyError pandas raises when a
      key or selected column is absent. */
  function Cleaned(t1: Table, t2: Table): Result<Table, CleanError> {
    if MissingSelected(t2) != [] then Err(KeyError(MissingSelected(t2)))
    else if ArtistsKey !in t1.columns then Err(KeyError([ArtistsKey]))
    else
      var merged := Merge(t1, t2);
      var dropped := DropColumn(merged, ArtistMb);
      var renamed := RenameColumn(RenameColumn(dropped, CountryLastfm, Style), TagsLastfm, Country);
      Ok(DropNa(renamed))
  }

  /** The step fails exactly when a selected column or the merge key is
      absent. The selection is evaluated first, so its KeyError names every
      absent selected column; only with all three present does a missing
      `artists` column raise. */
  lemma CleanedErrors(t1: Table, t2: Table)
    ensures Cleaned(t1, t2).Err? <==>
              (exists c :: c in Selected && c !in t2.columns) || ArtistsKey !in t1.columns
    ensures (exists c :: c in Selected && c !in t2.columns) ==>
              Cleaned(t1, t2) == Err(KeyError(MissingSelected(t2)))
    ensures (forall c :: c in Selected ==> c in t2.columns) && ArtistsKey !in t1.columns ==>
              Cleaned(t1, t2) == Err(KeyError([ArtistsKey]))
  {
    var missing := MissingSelected(t2);
    if missing != [] {
      assert missing[0] in missing;
    }
  }

  /** The output row for a left row and its matching right row: the left
      row plus `style` from the right row's `country_lastfm` and `country`
      from its `tags_lastfm`. */
  function Output(l: Row, m: Row): Row {
    l[Style := Lookup(m, CountryLastfm)][Country := Lookup(m, TagsLastfm)]
  }

  /** What the drop and the two renames do to one merged row. */
  function Pipeline(x: Row): Row {
    RenameRow(RenameRow(DropRow(x, ArtistMb), CountryLastfm, Style), TagsLastfm, Country)
  }

  lemma PipelineMatched(l: Row, m: Row)
    requires l.Keys !! StepColumns()
    ensures Pipeline(Attach(l, Some(m))) == Output(l, m)
  {
    var a := Lookup(m, CountryLastfm);
    var b := Lookup(m, TagsLastfm);
    var p := Pipeline(Attach(l, Some(m)));
    var o := Output(l, m);
    assert p.Keys == o.Keys;
    forall k | k in p ensures p[k] == o[k] {
      if k == Style {
        assert p[k] == a;
      } else if k == Country {
        assert p[k] == b;
      } else {
        assert k in l;
      }
    }
  }

  lemma PipelineUnmatched(l: Row)
    requires l.Keys !! StepColumns()
    ensures Style in Pipeline(Attach(l, None)) && Pipeline(Attach(l, None))[Style] == None
  {
  }

  /** The renamed table's rows are the merged rows put through the drop and
      both renames. */
  lemma RenamedRows(t1: Table, t2: Table)
    ensures var renamed := Renamed(t1, t2);
      |renamed.rows| == |Merge(t1, t2).rows| &&
      forall i :: 0 <= i < |renamed.rows| ==> renamed.rows[i] == Pipeline(Merge(t1, t2).rows[i])
  {
  }

  /** The preconditions under which the step runs and its output is
      described below. */
  predicate Joinable(t1: Table, t2: Table) {
    && WellFormed(t1) && WellFormed(t2)
    && ArtistsKey in t1.columns
    && ArtistMb in t2.columns && CountryLastfm in t2.columns && TagsLastfm in t2.columns
    && forall c :: c in t1.columns ==> c !in StepColumns()
  }

  /** The rows the step keeps before `dropna`. */
  function Renamed(t1: Table, t2: Table): Table {
    RenameColumn(RenameColumn(DropColumn(Merge(t1, t2), ArtistMb), CountryLastfm, Style), TagsLastfm, Country)
  }

  lemma CleanedIsDropNa(t1: Table, t2: Table)
    requires Joinable(t1, t2)
    ensures Cleaned(t1, t2) == Ok(DropNa(Renamed(t1, t2)))
  {
  }

  lemma TrackRowKeys(t1: Table, l: Row)
    requires WellFormed(t1) && l in t1.rows
    requires forall c :: c in t1.columns ==> c !in StepColumns()
    ensures l.Keys !! StepColumns()
  {
  }

  /** An output row is complete and comes from a track row and a matching
      artist row; an unmatched track never survives. */
  lemma CleanedSound(t1: Table, t2: Table, o: Row)
    requires Joinable(t1, t2)
    requires o in Cleaned(t1, t2).value.rows
    ensures Complete(o)
    ensures exists l, m :: l in t1.rows && m in t2.rows && KeysMatch(l, m) && o == Output(l, m)
  {
    CleanedIsDropNa(t1, t2);
    var renamed := Renamed(t1, t2);
    assert o in renamed.rows;
    RenamedRows(t1, t2);
    var i :| 0 <= i < |renamed.rows| && renamed.rows[i] == o;
    MergedSound(t1, t2, Merge(t1, t2).rows[i], o);
  }

  /** A complete row put through the drop and renames comes from a track
      row and a matching artist row. */
  lemma MergedSound(t1: Table, t2: Table, x: Row, o: Row)
    requires Joinable(t1, t2)
    requires x in Merge(t1, t2).rows && o == Pipeline(x) && Complete(o)
    ensures exists l, m :: l in t1.rows && m in t2.rows && KeysMatch(l, m) && o == Output(l, m)
  {
    MergeLeftMember(t1.rows, t2.rows, x);
    var l :| l in t1.rows &&
      (x == Attach(l, None) || exists m :: m in t2.rows && KeysMatch(l, m) && x == Attach(l, Some(m)));
    TrackRowKeys(t1, l);
    if x == Attach(l, None) {
      PipelineUnmatched(l);
    } else {
      var m :| m in t2.rows && KeysMatch(l, m) && x == Attach(l, Some(m));
      PipelineMatched(l, m);
    }
  }

  /** Every track row with a matching artist row whose output has no
      missing cell is in the output. */
  lemma CleanedComplete(t1: Table, t2: Table, l: Row, m: Row)
    requires Joinable(t1, t2)
    requires l in t1.rows && m in t2.rows && KeysMatch(l, m) && Complete(Output(l, m))
    ensures Output(l, m) in Cleaned(t1, t2).value.rows
  {
    CleanedIsDropNa(t1, t2);
    var merged := Merge(t1, t2);
    var renamed := Renamed(t1, t2);
    RenamedRows(t1, t2);
    MergeLeftComplete(t1.rows, t2.rows, l, m);
    var x := Attach(l, Some(m));
    var i :| 0 <= i < |merged.rows| && merged.rows[i] == x;
    TrackRowKeys(t1, l);
    PipelineMatched(l, m);
    assert renamed.rows[i] == Output(l, m);
  }

  /** The step's shape and content: on well-formed sheets whose track sheet
      does not already use the five step column names, the output header is
      the track sheet's plus `style` and `country`; every output row is
      complete and is the output of a track row and an artist row whose
      `artist_mb` equals the track's `artists`; and every such pair with no
      missing cell is in the output. */
  lemma CleanedFacts(t1: Table, t2: Table)
    requires Joinable(t1, t2)
    ensures Cleaned(t1, t2).Ok?
    ensures Cleaned(t1, t2).value.columns == t1.columns + [Style, Country]
    ensures forall o :: o in Cleaned(t1, t2).value.rows ==>
              Complete(o) &&
              exists l, m :: l in t1.rows && m in t2.rows && KeysMatch(l, m) && o == Output(l, m)
    ensures forall l, m :: l in t1.rows && m in t2.rows && KeysMatch(l, m) && Complete(Output(l, m)) ==>
              Output(l, m) in Cleaned(t1, t2).value.rows
  {
    CleanedIsDropNa(t1, t2);
    CleanedColumns(t1, t2);
    forall o | o in Cleaned(t1, t2).value.rows
      ensures Complete(o)
      ensures exists l, m :: l in t1.rows && m in t2.rows && KeysMatch(l, m) && o == Output(l, m)
    {
      CleanedSound(t1, t2, o);
    }
    forall l, m | l in t1.rows && m in t2.rows && KeysMatch(l, m) && Complete(Output(l, m))
      ensures Output(l, m) in Cleaned(t1, t2).value.rows
    {
      CleanedComplete(t1, t2, l, m);
    }
  }

  lemma DropAdded()
    ensures Filter([ArtistMb, CountryLastfm, TagsLastfm], NotNamed(ArtistMb)) == [CountryLastfm, TagsLastfm]
  {
    var keep := NotNamed(ArtistMb);
    assert |ArtistMb| == 9 && |CountryLastfm| == 14 && |TagsLastfm| == 11;
    var added := [ArtistMb, CountryLastfm, TagsLastfm];
    assert added[1..][1..][1..] == [];
    calc {
      Filter(added, keep);
      Filter(added[1..], keep);
      [CountryLastfm] + Filter(added[1..][1..], keep);
      [CountryLastfm] + ([TagsLastfm] + Filter(added[1..][1..][1..], keep));
    }
  }

  lemma DropHeader(cols: seq<string>)
    requires ArtistMb !in cols
    ensures Filter(cols + [ArtistMb, CountryLastfm, TagsLastfm], NotNamed(ArtistMb)) == cols + [CountryLastfm, TagsLastfm]
  {
    FilterAppend(cols, [ArtistMb, CountryLastfm, TagsLastfm], NotNamed(ArtistMb));
    FilterAll(cols, NotNamed(ArtistMb));
    DropAdded();
  }

  /** Renaming a column the header ends with leaves the others in place. */
  lemma RenameHeader(cols: seq<string>, from: string, to: string, last: string)
    requires from !in cols && from != last
    ensures Column(cols + [from, last], RenameTo(from, to)) == cols + [to, last]
    ensures Column(cols + [last, from], RenameTo(from, to)) == cols + [last, to]
  {
  }

  /** The header after the drop and the renames. */
  lemma CleanedColumns(t1: Table, t2: Table)
    requires forall c :: c in t1.columns ==> c !in StepColumns()
    ensures Renamed(t1, t2).columns == t1.columns + [Style, Country]
  {
    DropHeader(t1.columns);
    RenameHeader(t1.columns, CountryLastfm, Style, TagsLastfm);
    RenameHeader(t1.columns, TagsLastfm, Country, Style);
  }

  // ---------------------------------------------------------------------
  // The script, step by step on one frame
  // ---------------------------------------------------------------------

  /** `merged_df`, edited in place by `drop` and `rename`. */
  class DataFrame {
    var table: Table

    constructor (t: Table)
      ensures table == t
    {
      table := t;
    }

    /** `drop(c, axis=1, inplace=True)`. */
    method Drop(c: string)
      modifies this
      ensures table == DropColumn(old(table), c)
    {
      table := DropColumn(table, c);
    }

    /** `rename(columns={from: to}, inplace=True)`. */
    method RenameColumnInPlace(from: string, to: string)
      modifies this
      ensures table == RenameColumn(old(table), from, to)
    {
      table := RenameColumn(table, from, to);
    }

    /** `dropna()`: a new frame, this one untouched. */
    method DropNaCopy() returns (u: Table)
      ensures u == DropNa(table)
    {
      u := DropNa(table);
    }
  }

  /** The data.py script from the merge to the frame written out. */
  method CleanArtistTables(t1: Table, t2: Table) returns (res: Result<Table, CleanError>)
    ensures res == Cleaned(t1, t2)
  {
    var missing := MissingSelected(t2);
    if missing != [] {
      return Err(KeyError(missing));
    }
    if ArtistsKey !in t1.columns {
      return Err(KeyError([ArtistsKey]));
    }
    var mergedDf := new DataFrame(Merge(t1, t2));
    if ArtistMb in mergedDf.table.columns {
      mergedDf.Drop(ArtistMb);
    }
    mergedDf.RenameColumnInPlace(CountryLastfm, Style);
    mergedDf.RenameColumnInPlace(TagsLastfm, Country);
    var cleaned := mergedDf.DropNaCopy();
    res := Ok(cleaned);
  }
}
