/** The one-off script that tidies the artist sheet: every cell of the
    tab-separated file is split on ';', each tag is stripped of surrounding
    whitespace, and the tags are joined back with ';'. */
module TagCleaner {
  import opened Frames

  /** The characters Python's `str.strip()` removes: those for which
      `str.isspace()` holds. */
  const Whitespace: set<char> := {
    ' ', '\t', '\n', '\U{000B}', '\U{000C}', '\r',
    '\U{001C}', '\U{001D}', '\U{001E}', '\U{001F}', '\U{0085}', '\U{00A0}', '\U{1680}',
    '\U{2000}', '\U{2001}', '\U{2002}', '\U{2003}', '\U{2004}', '\U{2005}',
    '\U{2006}', '\U{2007}', '\U{2008}', '\U{2009}', '\U{200A}',
    '\U{2028}', '\U{2029}', '\U{202F}', '\U{205F}', '\U{3000}'
  }

  /** No character of `chars` at either end. */
  predicate TrimmedBy(s: string, chars: set<char>) {
    s == [] || (s[0] !in chars && s[|s| - 1] !in chars)
  }

  /** The string has no whitespace at either end. */
  predicate Trimmed(s: string) {
    TrimmedBy(s, Whitespace)
  }

  // ---------------------------------------------------------------------
  // str.strip(chars)
  // ---------------------------------------------------------------------

  /** The length of the leading run of `chars`, what `lstrip(chars)`
      removes. */
  function Leading(s: string, chars: set<char>): (n: nat)
    ensures n <= |s|
    ensures forall k :: 0 <= k < n ==> s[k] in chars
    ensures n < |s| ==> s[n] !in chars
  {
    if s != [] && s[0] in chars then
      var n := Leading(s[1..], chars);
      assert forall k :: 1 <= k < n + 1 ==> s[k] == s[1..][k - 1];
      n + 1
    else 0
  }

  /** The length of the trailing run of `chars`, what `rstrip(chars)`
      removes. */
  function Trailing(s: string, chars: set<char>): (n: nat)
    ensures n <= |s|
    ensures forall k :: |s| - n <= k < |s| ==> s[k] in chars
    ensures n < |s| ==> s[|s| - 1 - n] !in chars
  {
    if s != [] && s[|s| - 1] in chars then
      var n := Trailing(s[..|s| - 1], chars);
      assert forall k :: |s| - 1 - n <= k < |s| - 1 ==> s[k] == s[..|s| - 1][k];
      n + 1
    else 0
  }

  /** `strip(chars)`: the slice of `s` between its leading and trailing
      runs of `chars`, itself with no such character at either end. */
  function StripChars(s: string, chars: set<char>): (r: string)
    ensures TrimmedBy(r, chars)
    ensures exists i, j :: 0 <= i <= j <= |s| && r == s[i..j] &&
              (forall k :: 0 <= k < i ==> s[k] in chars) &&
              (forall k :: j <= k < |s| ==> s[k] in chars)
  {
    var i := Leading(s, chars);
    if i == |s| then
      assert s[i..i] == [];
      []
    else
      var j := |s| - Trailing(s, chars);
      assert i < j;
      s[i..j]
  }

  /** `str.strip()` with no argument strips whitespace. */
  function Strip(s: string): string {
    StripChars(s, Whitespace)
  }

  /** A string with neither end in `chars` is its own strip. */
  lemma StripTrimmed(s: string, chars: set<char>)
    requires TrimmedBy(s, chars)
    ensures StripChars(s, chars) == s
  {
    if s != [] {
      assert Leading(s, chars) == 0;
      assert Trailing(s, chars) == 0;
      assert s[0..|s|] == s;
    }
  }

  /** A string is left alone by `strip(chars)` exactly when neither end is
      in `chars`; so stripping twice is stripping once. */
  lemma StripFixed(s: string, chars: set<char>)
    ensures StripChars(s, chars) == s <==> TrimmedBy(s, chars)
    ensures StripChars(StripChars(s, chars), chars) == StripChars(s, chars)
  {
    if TrimmedBy(s, chars) {
      StripTrimmed(s, chars);
    }
    StripTrimmed(StripChars(s, chars), chars);
  }

  /** `strip` keeps a slice of its argument, so it adds no ';'. */
  lemma StripNoSeparator(s: string, chars: set<char>)
    requires ';' !in s
    ensures ';' !in StripChars(s, chars)
  {
    var r := StripChars(s, chars);
    var i, j :| 0 <= i <= j <= |s| && r == s[i..j];
    forall k | 0 <= k < j - i ensures r[k] != ';' {
      assert r[k] == s[i + k];
    }
  }

  // ---------------------------------------------------------------------
  // str.split(';') and ';'.join
  // ---------------------------------------------------------------------

  /** `s.split(';')`: the pieces between separators, in order; never empty,
      and no piece holds a ';'. */
  function Split(s: string): (parts: seq<string>)
    ensures |parts| >= 1
    ensures forall p :: p in parts ==> ';' !in p
  {
    if s == [] then [[]]
    else
      var rest := Split(s[1..]);
      if s[0] == ';' then [[]] + rest
      else
        assert rest[0] in rest;
        [[s[0]] + rest[0]] + rest[1..]
  }

  /** `';'.join(parts)`. */
  function Join(parts: seq<string>): string {
    if parts == [] then []
    else if |parts| == 1 then parts[0]
    else parts[0] + [';'] + Join(parts[1..])
  }

  /** Joining the pieces gives back the string that was split. */
  lemma {:induction false} JoinSplit(s: string)
    ensures Join(Split(s)) == s
  {
    if s != [] {
      var rest := Split(s[1..]);
      JoinSplit(s[1..]);
      if s[0] == ';' {
        assert Split(s) == [[]] + rest;
        assert Join(Split(s)) == [';'] + Join(rest);
      } else {
        var parts := Split(s);
        assert parts == [[s[0]] + rest[0]] + rest[1..];
        if |rest| == 1 {
          assert Join(parts) == [s[0]] + rest[0];
        } else {
          assert parts[1..] == rest[1..];
          assert Join(parts) == [s[0]] + rest[0] + [';'] + Join(rest[1..]);
        }
      }
    }
  }

  lemma {:induction false} SplitPlain(s: string)
    requires ';' !in s
    ensures Split(s) == [s]
    decreases |s|
  {
    if s != [] {
      assert s[0] != ';' && ';' !in s[1..];
      SplitPlain(s[1..]);
      var rest := Split(s[1..]);
      assert rest[0] == s[1..] && rest[1..] == [];
      assert [s[0]] + s[1..] == s;
    }
  }

  lemma {:induction false} SplitConcat(p: string, rest: string)
    requires ';' !in p
    ensures Split(p + [';'] + rest) == [p] + Split(rest)
    decreases |p|
  {
    if p == [] {
      assert p + [';'] + rest == [';'] + rest;
      assert ([';'] + rest)[1..] == rest;
    } else {
      var s := p + [';'] + rest;
      assert s[0] == p[0] && s[1..] == p[1..] + [';'] + rest;
      SplitConcat(p[1..], rest);
      assert [p[0]] + p[1..] == p;
    }
  }

  /** Splitting what was joined gives the pieces back, provided there is at
      least one and none holds a ';'. */
  lemma {:induction false} SplitJoin(parts: seq<string>)
    requires |parts| >= 1
    requires forall p :: p in parts ==> ';' !in p
    ensures Split(Join(parts)) == parts
  {
    if |parts| == 1 {
      SplitPlain(parts[0]);
    } else {
      assert parts[0] in parts;
      SplitJoin(parts[1..]);
      SplitConcat(parts[0], Join(parts[1..]));
    }
  }

  // ---------------------------------------------------------------------
  // One cell and the whole file
  // ---------------------------------------------------------------------

  /** `';'.join([tag.strip() for tag in cell.split(';')])`. */
  function CleanCell(cell: string): string {
    Join(Column(Split(cell), Strip))
  }

  /** The cleaned cell has the same tags in the same places, each stripped:
      separators are neither added nor lost, and a tag that was only
      whitespace becomes empty rather than disappearing. */
  lemma CleanCellTags(cell: string)
    ensures Split(CleanCell(cell)) == Column(Split(cell), Strip)
    ensures |Split(CleanCell(cell))| == |Split(cell)|
    ensures forall t :: t in Split(CleanCell(cell)) ==> Trimmed(t)
  {
    var tags := Column(Split(cell), Strip);
    forall t | t in tags ensures ';' !in t {
      var i :| 0 <= i < |tags| && tags[i] == t;
      assert Split(cell)[i] in Split(cell);
      StripNoSeparator(Split(cell)[i], Whitespace);
    }
    SplitJoin(tags);
  }

  /** Cleaning a cleaned cell changes nothing: the script can be run again. */
  lemma CleanCellIdempotent(cell: string)
    ensures CleanCell(CleanCell(cell)) == CleanCell(cell)
  {
    var once := CleanCell(cell);
    CleanCellTags(cell);
    var tags := Split(once);
    forall i | 0 <= i < |tags| ensures Strip(tags[i]) == tags[i] {
      StripFixed(Split(cell)[i], Whitespace);
    }
    assert Column(tags, Strip) == tags;
    JoinSplit(once);
  }

  /** A cell with no ';' is simply stripped. */
  lemma CleanCellSingleTag(cell: string)
    requires ';' !in cell
    ensures CleanCell(cell) == Strip(cell)
  {
    SplitPlain(cell);
    var tags := Column(Split(cell), Strip);
    assert |tags| == 1 && tags[0] == Strip(cell);
    assert Join(tags) == tags[0];
  }

  /** A cell whose tags are already stripped is written back unchanged. */
  lemma CleanCellKeepsTidy(cell: string)
    requires forall t :: t in Split(cell) ==> Trimmed(t)
    ensures CleanCell(cell) == cell
  {
    var parts := Split(cell);
    forall i | 0 <= i < |parts| ensures Strip(parts[i]) == parts[i] {
      assert parts[i] in parts;
      StripFixed(parts[i], Whitespace);
    }
    assert Column(parts, Strip) == parts;
    JoinSplit(cell);
  }

  /** One row of the file with every cell cleaned, in order. */
  function CleanRow(row: seq<string>): (out: seq<string>)
    ensures |out| == |row| && forall j :: 0 <= j < |row| ==> out[j] == CleanCell(row[j])
  {
    Column(row, CleanCell)
  }

  /** The read–clean loop of the script: every row of the file, every cell
      of each row, cleaned in place of the original; row count, row lengths
      and order are kept. */
  method CleanRows(rows: seq<seq<string>>) returns (cleaned: seq<seq<string>>)
    ensures |cleaned| == |rows|
    ensures forall i :: 0 <= i < |rows| ==> cleaned[i] == CleanRow(rows[i])
  {
    cleaned := [];
    var i := 0;
    while i < |rows|
      invariant 0 <= i <= |rows|
      invariant |cleaned| == i
      invariant forall k :: 0 <= k < i ==> cleaned[k] == CleanRow(rows[k])
    {
      var row := rows[i];
      var cleanedRow: seq<string> := [];
      var j := 0;
      while j < |row|
        invariant 0 <= j <= |row|
        invariant cleanedRow == CleanRow(row[..j])
      {
        assert row[..j + 1] == row[..j] + [row[j]];
        cleanedRow := cleanedRow + [CleanCell(row[j])];
        j := j + 1;
      }
      assert row[..j] == row;
      cleaned := cleaned + [cleanedRow];
      i := i + 1;
    }
  }
}
