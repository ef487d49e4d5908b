/** The handful of pandas operations the dashboard relies on, written over an
    in-memory table: a sequence of rows whose cells are `Option` values, so a
    missing cell (pandas' NaN) is distinct from 0 and from false. */
module Frames {

  datatype Option<+T> = None | Some(value: T) {
    function GetOr(default: T): T {
      if Some? then value else default
    }
  }

  datatype Result<+T, +E> = Ok(value: T) | Err(error: E)

  /** First and second component of a (label, value) pair. */
  function Fst<K(!new), V(!new)>(e: (K, V)): K { e.0 }
  function Snd<K(!new), V(!new)>(e: (K, V)): V { e.1 }

  predicate NoDup<T(==,!new)>(s: seq<T>) {
    forall i, j :: 0 <= i < j < |s| ==> s[i] != s[j]
  }

  /** No two elements of `s` share a key. */
  predicate DistinctBy<T(!new), K(==,!new)>(s: seq<T>, key: T -> K) {
    forall i, j :: 0 <= i < j < |s| ==> key(s[i]) != key(s[j])
  }

  function Min(a: int, b: int): int { if a <= b then a else b }

  // ---------------------------------------------------------------------
  // Columns and row selection
  // ---------------------------------------------------------------------

  /** `df[col]`: one value per row, in row order. */
  function Column<R(!new), T(!new)>(rows: seq<R>, f: R -> T): (c: seq<T>)
    ensures |c| == |rows|
    ensures forall i :: 0 <= i < |rows| ==> c[i] == f(rows[i])
  {
    seq(|rows|, i requires 0 <= i < |rows| => f(rows[i]))
  }

  /** Boolean-mask selection `df[mask]`: the rows that pass, in their original order. */
  function Filter<R(!new)>(rows: seq<R>, keep: R -> bool): (r: seq<R>)
    ensures |r| <= |rows|
    ensures forall x :: x in r <==> x in rows && keep(x)
  {
    if rows == [] then []
    else (if keep(rows[0]) then [rows[0]] else []) + Filter(rows[1..], keep)
  }

  lemma {:induction false} FilterAppend<R(!new)>(a: seq<R>, b: seq<R>, keep: R -> bool)
    ensures Filter(a + b, keep) == Filter(a, keep) + Filter(b, keep)
  {
    if a != [] {
      var head := if keep(a[0]) then [a[0]] else [];
      assert (a + b)[0] == a[0];
      assert (a + b)[1..] == a[1..] + b;
      FilterAppend(a[1..], b, keep);
      calc {
        Filter(a + b, keep);
        head + Filter(a[1..] + b, keep);
        head + (Filter(a[1..], keep) + Filter(b, keep));
        (head + Filter(a[1..], keep)) + Filter(b, keep);
        Filter(a, keep) + Filter(b, keep);
      }
    } else {
      assert a + b == b;
    }
  }

  /** A kept row appears as often as in the input; a rejected one never. */
  lemma {:induction false} FilterCount<R(!new)>(rows: seq<R>, keep: R -> bool, x: R)
    ensures multiset(Filter(rows, keep))[x] == if keep(x) then multiset(rows)[x] else 0
  {
    if rows != [] {
      FilterCount(rows[1..], keep, x);
      assert rows == [rows[0]] + rows[1..];
    }
  }

  /** Selecting with a weaker mask first changes nothing. */
  lemma {:induction false} FilterNarrow<R(!new)>(rows: seq<R>, wide: R -> bool, narrow: R -> bool)
    requires forall x :: narrow(x) ==> wide(x)
    ensures Filter(Filter(rows, wide), narrow) == Filter(rows, narrow)
  {
    if rows != [] {
      FilterNarrow(rows[1..], wide, narrow);
      var head := if wide(rows[0]) then [rows[0]] else [];
      FilterAppend(head, Filter(rows[1..], wide), narrow);
    }
  }

  lemma {:induction false} FilterAll<R(!new)>(rows: seq<R>, keep: R -> bool)
    requires forall x :: x in rows ==> keep(x)
    ensures Filter(rows, keep) == rows
  {
    if rows != [] {
      FilterAll(rows[1..], keep);
    }
  }

  // ---------------------------------------------------------------------
  // Missing values and reductions (pandas skips NaN)
  // ---------------------------------------------------------------------

  /** The non-missing entries of a column, in order: what `sum`, `mean`,
      `min`, `max`, `nunique` and `value_counts` look at. */
  function Present<T(!new)>(col: seq<Option<T>>): (vals: seq<T>)
    ensures |vals| <= |col|
    ensures forall x :: x in vals <==> Some(x) in col
  {
    if col == [] then []
    else
      assert col == [col[0]] + col[1..];
      (if col[0].Some? then [col[0].value] else []) + Present(col[1..])
  }

  function Sum(s: seq<real>): real {
    if s == [] then 0.0 else s[0] + Sum(s[1..])
  }

  function SumBy<T(!new)>(s: seq<T>, f: T -> real): real {
    if s == [] then 0.0 else f(s[0]) + SumBy(s[1..], f)
  }

  function Minimum(s: seq<real>): (m: real)
    requires |s| > 0
    ensures m in s
    ensures forall x :: x in s ==> m <= x
  {
    if |s| == 1 then s[0]
    else
      var rest := Minimum(s[1..]);
      assert s == [s[0]] + s[1..];
      if s[0] <= rest then s[0] else rest
  }

  function Maximum(s: seq<real>): (m: real)
    requires |s| > 0
    ensures m in s
    ensures forall x :: x in s ==> x <= m
  {
    if |s| == 1 then s[0]
    else
      var rest := Maximum(s[1..]);
      assert s == [s[0]] + s[1..];
      if rest <= s[0] then s[0] else rest
  }

  lemma {:induction false} SumBounds(s: seq<real>, lo: real, hi: real)
    requires forall x :: x in s ==> lo <= x <= hi
    ensures lo * (|s| as real) <= Sum(s) <= hi * (|s| as real)
  {
    SumLower(s, lo);
    SumUpper(s, hi);
  }

  lemma {:induction false} SumLower(s: seq<real>, lo: real)
    requires forall x :: x in s ==> lo <= x
    ensures lo * (|s| as real) <= Sum(s)
  {
    if s != [] {
      var t := s[1..];
      assert forall x :: x in t ==> x in s;
      SumLower(t, lo);
      assert s[0] in s;
      MulSucc(lo, |t| as real);
      assert |s| as real == |t| as real + 1.0;
    }
  }

  lemma {:induction false} SumUpper(s: seq<real>, hi: real)
    requires forall x :: x in s ==> x <= hi
    ensures Sum(s) <= hi * (|s| as real)
  {
    if s != [] {
      var t := s[1..];
      assert forall x :: x in t ==> x in s;
      SumUpper(t, hi);
      assert s[0] in s;
      MulSucc(hi, |t| as real);
      assert |s| as real == |t| as real + 1.0;
    }
  }

  lemma MulSucc(a: real, m: real)
    ensures a * (m + 1.0) == a * m + a
  {
  }

  /** `Series.mean()`: the arithmetic mean of the non-missing values, or
      missing (NaN) when there are none. */
  function Mean(col: seq<Option<real>>): (m: Option<real>)
    ensures m.None? <==> Present(col) == []
  {
    var vals := Present(col);
    if vals == [] then None else Some(Sum(vals) / |vals| as real)
  }

  /** A mean lies between the smallest and the largest value it averages. */
  lemma MeanInRange(col: seq<Option<real>>)
    requires Present(col) != []
    ensures Minimum(Present(col)) <= Mean(col).value <= Maximum(Present(col))
  {
    var vals := Present(col);
    AverageBetween(vals, Minimum(vals), Maximum(vals));
  }

  lemma AverageBetween(vals: seq<real>, lo: real, hi: real)
    requires vals != []
    requires forall x :: x in vals ==> lo <= x <= hi
    ensures lo <= Sum(vals) / |vals| as real <= hi
  {
    SumBounds(vals, lo, hi);
    MeanBetween(Sum(vals), |vals| as real, lo, hi);
  }

  lemma MeanBetween(total: real, n: real, lo: real, hi: real)
    requires n > 0.0 && lo * n <= total <= hi * n
    ensures lo <= total / n <= hi
  {
    assert total / n * n == total;
  }

  // ---------------------------------------------------------------------
  // Distinct values
  // ---------------------------------------------------------------------

  /** `unique()`: each value once, in order of first appearance. */
  function Distinct<T(==,!new)>(s: seq<T>): (r: seq<T>)
    ensures NoDup(r)
    ensures forall x :: x in r <==> x in s
  {
    if s == [] then []
    else
      var init := s[..|s| - 1];
      assert s == init + [s[|s| - 1]];
      var r0 := Distinct(init);
      if s[|s| - 1] in r0 then r0 else r0 + [s[|s| - 1]]
  }

  lemma {:induction false} NoDupCard<T(!new)>(s: seq<T>)
    requires NoDup(s)
    ensures |set x | x in s| == |s|
  {
    if s != [] {
      var t := s[1..];
      assert NoDup(t) by {
        forall i, j | 0 <= i < j < |t| ensures t[i] != t[j] {
          assert t[i] == s[i + 1] && t[j] == s[j + 1];
        }
      }
      NoDupCard(t);
      assert s[0] !in t by {
        forall k | 0 <= k < |t| ensures t[k] != s[0] {
          assert t[k] == s[k + 1];
        }
      }
      assert (set x | x in s) == {s[0]} + (set x | x in t) by {
        assert s == [s[0]] + t;
      }
    }
  }

  /** `nunique()`: the number of distinct non-missing values. */
  function CountDistinct<T(==,!new)>(col: seq<Option<T>>): (n: nat)
    ensures n == |set x | x in Present(col)|
    ensures n <= |Present(col)| <= |col|
    ensures n == 0 <==> Present(col) == []
  {
    var d := Distinct(Present(col));
    NoDupCard(d);
    assert (set x | x in d) == (set x | x in Present(col));
    DistinctNoLonger(Present(col));
    assert Present(col) != [] ==> Present(col)[0] in d;
    |d|
  }

  lemma {:induction false} DistinctNoLonger<T(!new)>(s: seq<T>)
    ensures |Distinct(s)| <= |s|
  {
    if s != [] {
      DistinctNoLonger(s[..|s| - 1]);
    }
  }

  // ---------------------------------------------------------------------
  // Descending sort with missing values last
  // ---------------------------------------------------------------------

  /** The order of `sort_values(ascending=False)`: a missing score comes
      after every number (na_position='last'). */
  predicate ScoreLe(a: Option<real>, b: Option<real>) {
    a.None? || (b.Some? && a.value <= b.value)
  }

  lemma ScoreLeTrans(a: Option<real>, b: Option<real>, c: Option<real>)
    requires ScoreLe(a, b) && ScoreLe(b, c)
    ensures ScoreLe(a, c)
  {
  }

  predicate Descending<T(!new)>(s: seq<T>, score: T -> Option<real>) {
    forall i, j :: 0 <= i < j < |s| ==> ScoreLe(score(s[j]), score(s[i]))
  }

  function Insert<T(==,!new)>(x: T, s: seq<T>, score: T -> Option<real>): (r: seq<T>)
    ensures multiset(r) == multiset(s) + multiset{x}
  {
    if s == [] || ScoreLe(score(s[0]), score(x)) then [x] + s
    else
      assert s == [s[0]] + s[1..];
      [s[0]] + Insert(x, s[1..], score)
  }

  lemma {:induction false} InsertDescending<T(!new)>(x: T, s: seq<T>, score: T -> Option<real>)
    requires Descending(s, score)
    ensures Descending(Insert(x, s, score), score)
  {
    var r := Insert(x, s, score);
    if s == [] || ScoreLe(score(s[0]), score(x)) {
      forall i, j | 0 <= i < j < |r| ensures ScoreLe(score(r[j]), score(r[i])) {
        if i > 0 {
          assert r[i] == s[i - 1] && r[j] == s[j - 1];
        } else {
          assert r[j] == s[j - 1];
        }
      }
    } else {
      InsertDescending(x, s[1..], score);
      InsertBelowHead(x, s, score);
      var rest := Insert(x, s[1..], score);
      assert r == [s[0]] + rest;
      forall i, j | 0 <= i < j < |r| ensures ScoreLe(score(r[j]), score(r[i])) {
        assert r[j] == rest[j - 1];
        if i > 0 {
          assert r[i] == rest[i - 1];
        }
      }
    }
  }

  /** When x goes after the head, everything inserted behind the head
      scores no higher than it. */
  lemma InsertBelowHead<T(!new)>(x: T, s: seq<T>, score: T -> Option<real>)
    requires Descending(s, score)
    requires s != [] && !ScoreLe(score(s[0]), score(x))
    ensures forall k :: 0 <= k < |Insert(x, s[1..], score)| ==> ScoreLe(score(Insert(x, s[1..], score)[k]), score(s[0]))
  {
    var rest := Insert(x, s[1..], score);
    forall k | 0 <= k < |rest| ensures ScoreLe(score(rest[k]), score(s[0])) {
      assert rest[k] in multiset(rest);
      if rest[k] != x {
        assert rest[k] in multiset(s[1..]);
        var m :| 0 <= m < |s[1..]| && s[1..][m] == rest[k];
        assert s[1..][m] == s[m + 1];
      }
    }
  }

  /** `sort_values(col, ascending=False)`: a rearrangement of the rows in
      non-increasing score order, missing scores last. */
  function SortDesc<T(==,!new)>(s: seq<T>, score: T -> Option<real>): (r: seq<T>)
    ensures multiset(r) == multiset(s)
    ensures Descending(r, score)
  {
    if s == [] then []
    else
      assert s == [s[0]] + s[1..];
      var rest := SortDesc(s[1..], score);
      InsertDescending(s[0], rest, score);
      Insert(s[0], rest, score)
  }

  lemma {:induction false} InsertSum<T(!new)>(x: T, s: seq<T>, score: T -> Option<real>, f: T -> real)
    ensures SumBy(Insert(x, s, score), f) == f(x) + SumBy(s, f)
  {
    if !(s == [] || ScoreLe(score(s[0]), score(x))) {
      InsertSum(x, s[1..], score, f);
    }
  }

  lemma {:induction false} SortSum<T(!new)>(s: seq<T>, score: T -> Option<real>, f: T -> real)
    ensures SumBy(SortDesc(s, score), f) == SumBy(s, f)
  {
    if s != [] {
      SortSum(s[1..], score, f);
      InsertSum(s[0], SortDesc(s[1..], score), score, f);
    }
  }

  lemma {:induction false} InsertDistinctBy<T(!new), K(!new)>(x: T, s: seq<T>, score: T -> Option<real>, key: T -> K)
    requires DistinctBy(s, key)
    requires forall y :: y in s ==> key(y) != key(x)
    ensures DistinctBy(Insert(x, s, score), key)
  {
    var r := Insert(x, s, score);
    if s == [] || ScoreLe(score(s[0]), score(x)) {
      forall i, j | 0 <= i < j < |r| ensures key(r[i]) != key(r[j]) {
        assert r[j] == s[j - 1];
        if i > 0 { assert r[i] == s[i - 1]; }
      }
    } else {
      InsertDistinctBy(x, s[1..], score, key);
      var rest := Insert(x, s[1..], score);
      forall k | 0 <= k < |rest| ensures key(rest[k]) != key(s[0]) {
        assert rest[k] in multiset(rest);
        if rest[k] != x {
          assert rest[k] in multiset(s[1..]);
          var m :| 0 <= m < |s[1..]| && s[1..][m] == rest[k];
          assert s[1..][m] == s[m + 1];
        }
      }
      forall i, j | 0 <= i < j < |r| ensures key(r[i]) != key(r[j]) {
        assert r[j] == rest[j - 1];
        if i > 0 { assert r[i] == rest[i - 1]; }
      }
    }
  }

  lemma {:induction false} SortDistinctBy<T(!new), K(!new)>(s: seq<T>, score: T -> Option<real>, key: T -> K)
    requires DistinctBy(s, key)
    ensures DistinctBy(SortDesc(s, score), key)
  {
    if s != [] {
      var t := s[1..];
      assert DistinctBy(t, key) by {
        forall i, j | 0 <= i < j < |t| ensures key(t[i]) != key(t[j]) {
          assert t[i] == s[i + 1] && t[j] == s[j + 1];
        }
      }
      SortDistinctBy(t, score, key);
      var sorted := SortDesc(t, score);
      forall y | y in sorted ensures key(y) != key(s[0]) {
        assert y in multiset(t);
        var m :| 0 <= m < |t| && t[m] == y;
        assert t[m] == s[m + 1];
      }
      InsertDistinctBy(s[0], sorted, score, key);
    }
  }

  /** `head(n)`: the first n rows, or all of them when there are fewer. */
  function Take<T(!new)>(s: seq<T>, n: nat): (r: seq<T>)
    ensures |r| == Min(n, |s|)
    ensures r == s[..|r|]
  {
    if |s| <= n then s else s[..n]
  }

  /** `head(n)` of a table with distinct keys has distinct keys. */
  lemma TakeDistinctBy<T(!new), K(!new)>(s: seq<T>, key: T -> K, n: nat)
    requires DistinctBy(s, key)
    ensures DistinctBy(Take(s, n), key)
  {
    var top := Take(s, n);
    forall i, j | 0 <= i < j < |top| ensures key(top[i]) != key(top[j]) {
      assert top[i] == s[i] && top[j] == s[j];
    }
  }

  /** What `sort_values(ascending=False).head(n)` promises whatever the tie
      order: at most n rows, all from the input, in non-increasing order, and
      every row left out scores no higher than any row kept. */
  lemma TopN<T(!new)>(g: seq<T>, score: T -> Option<real>, n: nat)
    ensures var top := Take(SortDesc(g, score), n);
      && |top| == Min(n, |g|)
      && (forall x :: x in top ==> x in g)
      && Descending(top, score)
      && (forall e :: e in g && e !in top ==>
            |top| == n && forall x :: x in top ==> ScoreLe(score(e), score(x)))
  {
    var s := SortDesc(g, score);
    var top := Take(s, n);
    assert |s| == |g| by {
      assert |multiset(s)| == |multiset(g)|;
    }
    forall x | x in top ensures x in g {
      assert x in multiset(s);
    }
    forall e | e in g && e !in top
      ensures |top| == n && forall x :: x in top ==> ScoreLe(score(e), score(x))
    {
      assert e in multiset(s);
      var j :| 0 <= j < |s| && s[j] == e;
      assert j >= |top|;
      forall x | x in top ensures ScoreLe(score(e), score(x)) {
        var i :| 0 <= i < |top| && top[i] == x;
        assert s[i] == x;
      }
    }
  }

  // ---------------------------------------------------------------------
  // Keeping the first row per key
  // ---------------------------------------------------------------------

  /** `drop_duplicates(col)` (keep='first'): the first row of each key not
      already in `seen`, in order. Missing keys compare equal to each other,
      as pandas treats NaN here. */
  function DedupBy<T(!new), K(==,!new)>(s: seq<T>, key: T -> K, seen: set<K>): (r: seq<T>)
    ensures forall x :: x in r ==> x in s && key(x) !in seen
    ensures DistinctBy(r, key)
  {
    if s == [] then []
    else if key(s[0]) in seen then DedupBy(s[1..], key, seen)
    else
      var rest := DedupBy(s[1..], key, seen + {key(s[0])});
      assert forall i :: 0 <= i < |rest| ==> rest[i] in rest;
      [s[0]] + rest
  }

  /** Every key of the input not yet seen is represented in the output. */
  lemma {:induction false} DedupComplete<T(!new), K(!new)>(s: seq<T>, key: T -> K, seen: set<K>, y: T)
    requires y in s && key(y) !in seen
    ensures exists x :: x in DedupBy(s, key, seen) && key(x) == key(y)
  {
    if key(s[0]) in seen {
      DedupComplete(s[1..], key, seen, y);
    } else if key(s[0]) != key(y) {
      DedupComplete(s[1..], key, seen + {key(s[0])}, y);
      var x :| x in DedupBy(s[1..], key, seen + {key(s[0])}) && key(x) == key(y);
      assert x in DedupBy(s, key, seen);
    } else {
      assert s[0] in DedupBy(s, key, seen);
    }
  }

  /** On a descending input the kept row of a key scores at least as high as
      every row with that key, and the output is still descending. */
  lemma {:induction false} DedupKeepsMax<T(!new), K(!new)>(s: seq<T>, key: T -> K, seen: set<K>, score: T -> Option<real>)
    requires Descending(s, score)
    ensures Descending(DedupBy(s, key, seen), score)
    ensures forall x, y :: x in DedupBy(s, key, seen) && y in s && key(y) == key(x) ==> ScoreLe(score(y), score(x))
  {
    if s != [] {
      var t := s[1..];
      assert Descending(t, score) by {
        forall i, j | 0 <= i < j < |t| ensures ScoreLe(score(t[j]), score(t[i])) {
          assert t[i] == s[i + 1] && t[j] == s[j + 1];
        }
      }
      var below := forall y :: y in t ==> ScoreLe(score(y), score(s[0]));
      assert below by {
        forall y | y in t ensures ScoreLe(score(y), score(s[0])) {
          var m :| 0 <= m < |t| && t[m] == y;
          assert t[m] == s[m + 1];
        }
      }
      var r := DedupBy(s, key, seen);
      if key(s[0]) in seen {
        DedupKeepsMax(t, key, seen, score);
      } else {
        var seen' := seen + {key(s[0])};
        DedupKeepsMax(t, key, seen', score);
        var rest := DedupBy(t, key, seen');
        assert r == [s[0]] + rest;
        forall i, j | 0 <= i < j < |r| ensures ScoreLe(score(r[j]), score(r[i])) {
          assert r[j] == rest[j - 1] && rest[j - 1] in rest;
          if i > 0 { assert r[i] == rest[i - 1]; }
        }
        forall x, y | x in r && y in s && key(y) == key(x) ensures ScoreLe(score(y), score(x)) {
          if x == s[0] {
            if y != s[0] {
              assert y in t by { assert s == [s[0]] + t; }
            }
          } else {
            assert x in rest;
            if y != s[0] {
              assert y in t by { assert s == [s[0]] + t; }
            }
          }
        }
      }
    }
  }

  /** |{key(x) | x in s}| == |s| when no key repeats. */
  lemma {:induction false} DistinctByCard<T(!new), K(!new)>(s: seq<T>, key: T -> K)
    requires DistinctBy(s, key)
    ensures |set x | x in s :: key(x)| == |s|
  {
    var ks := Column(s, key);
    assert NoDup(ks);
    NoDupCard(ks);
    assert (set x | x in s :: key(x)) == (set k | k in ks) by {
      forall k | k in ks ensures k in (set x | x in s :: key(x)) {
        var i :| 0 <= i < |ks| && ks[i] == k;
        assert s[i] in s;
      }
      forall x | x in s ensures key(x) in ks {
        var i :| 0 <= i < |s| && s[i] == x;
        assert ks[i] == key(x);
      }
    }
  }

  // ---------------------------------------------------------------------
  // groupby
  // ---------------------------------------------------------------------

  /** The mask `df[col] == k`. */
  function KeyIs<R(!new), K(==,!new)>(key: R -> Option<K>, k: K): R -> bool {
    r => key(r) == Some(k)
  }

  /** The rows of group k (rows whose key is missing belong to no group). */
  function Group<R(!new), K(==,!new)>(rows: seq<R>, key: R -> Option<K>, k: K): (g: seq<R>)
    ensures forall r :: r in g <==> r in rows && key(r) == Some(k)
  {
    Filter(rows, KeyIs(key, k))
  }

  /** The group labels of `groupby(col)`: each non-missing key once. */
  function GroupKeys<R(!new), K(==,!new)>(rows: seq<R>, key: R -> Option<K>): (keys: seq<K>)
    ensures NoDup(keys)
    ensures forall k :: k in keys <==> Some(k) in Column(rows, key)
  {
    Distinct(Present(Column(rows, key)))
  }

  /** `groupby(key)[val].mean()` for one group. */
  function GroupMean<R(!new), K(==,!new)>(rows: seq<R>, key: R -> Option<K>, val: R -> Option<real>, k: K): Option<real> {
    Mean(Column(Group(rows, key, k), val))
  }

  function MeanEntries<R(!new), K(==,!new)>(keys: seq<K>, rows: seq<R>, key: R -> Option<K>, val: R -> Option<real>)
    : (es: seq<(K, Option<real>)>)
    ensures |es| == |keys|
    ensures forall i :: 0 <= i < |keys| ==> es[i] == (keys[i], GroupMean(rows, key, val, keys[i]))
  {
    seq(|keys|, i requires 0 <= i < |keys| => (keys[i], GroupMean(rows, key, val, keys[i])))
  }

  /** `groupby(key)[val].mean().reset_index().sort_values(val, ascending=False).head(n)`. */
  function TopGroupMeans<R(!new), K(==,!new)>(rows: seq<R>, key: R -> Option<K>, val: R -> Option<real>, n: nat)
    : (top: seq<(K, Option<real>)>)
    ensures |top| == Min(n, |GroupKeys(rows, key)|)
    ensures DistinctBy(top, Fst)
    ensures forall e :: e in top ==> Some(e.0) in Column(rows, key) && e.1 == GroupMean(rows, key, val, e.0)
    ensures Descending(top, Snd)
    ensures forall k :: Some(k) in Column(rows, key) && k !in Column(top, Fst) ==>
              |top| == n && forall e :: e in top ==> ScoreLe(GroupMean(rows, key, val, k), e.1)
  {
    var g := MeanEntries(GroupKeys(rows, key), rows, key, val);
    TopN(g, Snd, n);
    MeanEntriesDistinct(GroupKeys(rows, key), rows, key, val);
    SortDistinctBy(g, Snd, Fst);
    TakeDistinctBy(SortDesc(g, Snd), Fst, n);
    TopMeansMembers(rows, key, val, n);
    TopMeansOmitted(rows, key, val, n);
    Take(SortDesc(g, Snd), n)
  }

  lemma MeanEntriesDistinct<R(!new), K(!new)>(keys: seq<K>, rows: seq<R>, key: R -> Option<K>, val: R -> Option<real>)
    requires NoDup(keys)
    ensures DistinctBy(MeanEntries(keys, rows, key, val), Fst)
  {
    var g := MeanEntries(keys, rows, key, val);
    forall i, j | 0 <= i < j < |g| ensures Fst(g[i]) != Fst(g[j]) {
      assert g[i].0 == keys[i] && g[j].0 == keys[j];
    }
  }

  lemma TopMeansMembers<R(!new), K(!new)>(rows: seq<R>, key: R -> Option<K>, val: R -> Option<real>, n: nat)
    ensures var g := MeanEntries(GroupKeys(rows, key), rows, key, val);
      forall e :: e in Take(SortDesc(g, Snd), n) ==> Some(e.0) in Column(rows, key) && e.1 == GroupMean(rows, key, val, e.0)
  {
    var keys := GroupKeys(rows, key);
    var g := MeanEntries(keys, rows, key, val);
    TopN(g, Snd, n);
    forall e | e in Take(SortDesc(g, Snd), n) ensures Some(e.0) in Column(rows, key) && e.1 == GroupMean(rows, key, val, e.0) {
      var i :| 0 <= i < |g| && g[i] == e;
      assert keys[i] in keys;
    }
  }

  lemma TopMeansOmitted<R(!new), K(!new)>(rows: seq<R>, key: R -> Option<K>, val: R -> Option<real>, n: nat)
    ensures var top := Take(SortDesc(MeanEntries(GroupKeys(rows, key), rows, key, val), Snd), n);
      forall k :: Some(k) in Column(rows, key) && k !in Column(top, Fst) ==>
        |top| == n && forall e :: e in top ==> ScoreLe(GroupMean(rows, key, val, k), e.1)
  {
    var keys := GroupKeys(rows, key);
    var g := MeanEntries(keys, rows, key, val);
    var top := Take(SortDesc(g, Snd), n);
    TopN(g, Snd, n);
    forall k | Some(k) in Column(rows, key) && k !in Column(top, Fst)
      ensures |top| == n && forall e :: e in top ==> ScoreLe(GroupMean(rows, key, val, k), e.1)
    {
      var i :| 0 <= i < |keys| && keys[i] == k;
      var e := g[i];
      assert e in g;
      assert e !in top by {
        forall j | 0 <= j < |top| ensures top[j] != e {
          assert Column(top, Fst)[j] != k;
        }
      }
    }
  }

  // ---------------------------------------------------------------------
  // value_counts
  // ---------------------------------------------------------------------

  function CountEntries<K(==,!new)>(keys: seq<K>, vals: seq<K>): (es: seq<(K, nat)>)
    ensures |es| == |keys|
    ensures forall i :: 0 <= i < |keys| ==> es[i] == (keys[i], multiset(vals)[keys[i]])
  {
    if keys == [] then [] else [(keys[0], multiset(vals)[keys[0]])] + CountEntries(keys[1..], vals)
  }

  function CountOf<K(!new)>(e: (K, nat)): real { e.1 as real }
  function CountScore<K(!new)>(e: (K, nat)): Option<real> { Some(e.1 as real) }

  lemma {:induction false} CountEntriesSnoc<K(!new)>(keys: seq<K>, vals: seq<K>, x: K)
    ensures SumBy(CountEntries(keys, vals + [x]), CountOf) ==
            SumBy(CountEntries(keys, vals), CountOf) + multiset(keys)[x] as real
  {
    if keys != [] {
      CountEntriesSnoc(keys[1..], vals, x);
      assert keys == [keys[0]] + keys[1..];
    }
  }

  lemma NoDupOnce<K(!new)>(keys: seq<K>, x: K)
    requires NoDup(keys) && x in keys
    ensures multiset(keys)[x] == 1
  {
    var i :| 0 <= i < |keys| && keys[i] == x;
    assert keys == keys[..i] + [x] + keys[i + 1..];
    assert x !in keys[..i] by {
      forall k | 0 <= k < i ensures keys[..i][k] != x { assert keys[..i][k] == keys[k]; }
    }
    var tail := keys[i + 1..];
    assert x !in tail by {
      forall k | 0 <= k < |tail| ensures tail[k] != x { assert tail[k] == keys[i + 1 + k]; }
    }
  }

  /** Summing the count of every distinct value gives back the number of values. */
  lemma {:induction false} CountEntriesTotal<K(!new)>(keys: seq<K>, vals: seq<K>)
    requires NoDup(keys)
    requires forall x :: x in vals ==> x in keys
    ensures SumBy(CountEntries(keys, vals), CountOf) == |vals| as real
  {
    if vals == [] {
      ZeroCounts(keys, vals);
    } else {
      var init := vals[..|vals| - 1];
      var x := vals[|vals| - 1];
      assert vals == init + [x];
      CountEntriesTotal(keys, init);
      CountEntriesSnoc(keys, init, x);
      NoDupOnce(keys, x);
    }
  }

  lemma {:induction false} ZeroCounts<K(!new)>(keys: seq<K>, vals: seq<K>)
    requires vals == []
    ensures SumBy(CountEntries(keys, vals), CountOf) == 0.0
  {
    if keys != [] {
      ZeroCounts(keys[1..], vals);
    }
  }

  /** The (value, count) pairs of a column before sorting, values in order of first appearance. */
  function CountTable<K(==,!new)>(col: seq<Option<K>>): (es: seq<(K, nat)>)
    ensures DistinctBy(es, Fst)
    ensures forall e :: e in es ==> e.1 == multiset(Present(col))[e.0] && e.1 >= 1
    ensures forall k :: k in Column(es, Fst) <==> Some(k) in col
    ensures SumBy(es, CountOf) == |Present(col)| as real
    ensures |es| <= |Present(col)|
  {
    var vals := Present(col);
    var keys := Distinct(vals);
    DistinctNoLonger(vals);
    CountEntriesTotal(keys, vals);
    CountEntriesKeys(keys, vals);
    CountEntriesPositive(keys, vals);
    CountEntries(keys, vals)
  }

  lemma CountEntriesKeys<K(!new)>(keys: seq<K>, vals: seq<K>)
    requires NoDup(keys)
    ensures DistinctBy(CountEntries(keys, vals), Fst)
    ensures Column(CountEntries(keys, vals), Fst) == keys
  {
    var es := CountEntries(keys, vals);
    assert forall i :: 0 <= i < |es| ==> Fst(es[i]) == keys[i];
  }

  lemma CountEntriesPositive<K(!new)>(keys: seq<K>, vals: seq<K>)
    requires forall k :: k in keys ==> k in vals
    ensures forall e :: e in CountEntries(keys, vals) ==> e.1 == multiset(vals)[e.0] && e.1 >= 1
  {
    var es := CountEntries(keys, vals);
    forall e | e in es ensures e.1 == multiset(vals)[e.0] && e.1 >= 1 {
      var i :| 0 <= i < |es| && es[i] == e;
      assert keys[i] in vals;
    }
  }

  /** Sorting keeps the set of first components. */
  lemma SortKeys<K(!new), V(!new)>(es: seq<(K, V)>, score: ((K, V)) -> Option<real>, k: K)
    ensures k in Column(SortDesc(es, score), Fst) <==> k in Column(es, Fst)
  {
    var vc := SortDesc(es, score);
    if k in Column(vc, Fst) {
      var j :| 0 <= j < |vc| && Column(vc, Fst)[j] == k;
      assert vc[j] in multiset(es);
      var i :| 0 <= i < |es| && es[i] == vc[j];
      assert Column(es, Fst)[i] == k;
    }
    if k in Column(es, Fst) {
      var i :| 0 <= i < |es| && Column(es, Fst)[i] == k;
      assert es[i] in multiset(vc);
      var j :| 0 <= j < |vc| && vc[j] == es[i];
      assert Column(vc, Fst)[j] == k;
    }
  }

  /** `Series.value_counts()`: one (value, count) pair per distinct non-missing
      value, most frequent first. */
  function ValueCounts<K(==,!new)>(col: seq<Option<K>>): (vc: seq<(K, nat)>)
    ensures DistinctBy(vc, Fst)
    ensures forall k :: k in Column(vc, Fst) <==> Some(k) in col
    ensures forall e :: e in vc ==> e.1 == multiset(Present(col))[e.0] && e.1 >= 1
    ensures Descending(vc, CountScore)
    ensures SumBy(vc, CountOf) == |Present(col)| as real
    ensures |vc| <= |Present(col)|
  {
    var es := CountTable(col);
    var vc := SortDesc(es, CountScore);
    assert |vc| == |multiset(vc)| == |multiset(es)| == |es|;
    SortDistinctBy(es, CountScore, Fst);
    SortSum(es, CountScore, CountOf);
    forall k ensures k in Column(vc, Fst) <==> Some(k) in col {
      SortKeys(es, CountScore, k);
    }
    assert forall e :: e in vc ==> e in multiset(es);
    vc
  }

  /** Each (value, count) pair with its count divided by `total`. */
  function Scaled<K(!new)>(vc: seq<(K, nat)>, total: real): (fr: seq<(K, real)>)
    requires total > 0.0
    ensures |fr| == |vc|
    ensures forall i :: 0 <= i < |vc| ==> fr[i] == (vc[i].0, vc[i].1 as real / total)
  {
    if vc == [] then [] else [(vc[0].0, vc[0].1 as real / total)] + Scaled(vc[1..], total)
  }

  lemma {:induction false} ScaledSum<K(!new)>(vc: seq<(K, nat)>, total: real)
    requires total > 0.0
    ensures SumBy(Scaled(vc, total), Snd) == SumBy(vc, CountOf) / total
  {
    if vc != [] {
      ScaledSum(vc[1..], total);
      assert Scaled(vc, total)[1..] == Scaled(vc[1..], total);
    }
  }

  /** `value_counts(normalize=True)`: the counts as fractions of the number of
      non-missing values; empty when there are none. */
  function NormalizedValueCounts<K(==,!new)>(col: seq<Option<K>>): (fr: seq<(K, real)>)
    ensures |fr| == |ValueCounts(col)|
    ensures forall i :: 0 <= i < |fr| ==>
              fr[i].0 == ValueCounts(col)[i].0 &&
              fr[i].1 == ValueCounts(col)[i].1 as real / |Present(col)| as real
    ensures Present(col) != [] ==> SumBy(fr, Snd) == 1.0
  {
    var vc := ValueCounts(col);
    var n := |Present(col)|;
    if n == 0 then
      []
    else
      ScaledSum(vc, n as real);
      DivSelf(n as real);
      Scaled(vc, n as real)
  }

  lemma DivSelf(x: real)
    requires x > 0.0
    ensures x / x == 1.0
  {
  }

  /** A column with no missing cell loses nothing to `Present`. */
  lemma {:induction false} PresentAllSome<T(!new)>(col: seq<Option<T>>)
    requires forall i :: 0 <= i < |col| ==> col[i].Some?
    ensures |Present(col)| == |col|
    ensures forall i :: 0 <= i < |col| ==> Present(col)[i] == col[i].value
  {
    if col != [] {
      PresentAllSome(col[1..]);
    }
  }

  /** A subset is no larger than its superset. */
  lemma SubsetCard<T>(a: set<T>, b: set<T>)
    requires a <= b
    ensures |a| <= |b|
  {
    assert b == a + (b - a);
  }

  lemma {:induction false} ColumnTail<R(!new), T(!new)>(rows: seq<R>, f: R -> T)
    requires rows != []
    ensures Column(rows, f) == [f(rows[0])] + Column(rows[1..], f)
  {
  }

  /** One entry of `value_counts(normalize=True)`: a present value and the
      fraction of the present values equal to it. */
  lemma NormalizedEntry<K(!new)>(col: seq<Option<K>>, i: int)
    requires 0 <= i < |NormalizedValueCounts(col)|
    ensures var e := NormalizedValueCounts(col)[i];
      && multiset(Present(col))[e.0] >= 1
      && e.1 == multiset(Present(col))[e.0] as real / |Present(col)| as real
  {
    var vc := ValueCounts(col);
    assert vc[i] in vc;
  }

  /** A sequence without repeats drawn from a finite set is no longer than the set. */
  lemma NoDupBound<T(!new)>(s: seq<T>, universe: set<T>)
    requires NoDup(s)
    requires forall i :: 0 <= i < |s| ==> s[i] in universe
    ensures |s| <= |universe|
  {
    NoDupCard(s);
    SubsetCard((set x | x in s), universe);
  }

  /** Sorting neither adds nor loses rows. */
  lemma SortMembers<T(!new)>(s: seq<T>, score: T -> Option<real>)
    ensures |SortDesc(s, score)| == |s|
    ensures forall x :: x in SortDesc(s, score) <==> x in s
  {
    var r := SortDesc(s, score);
    assert |multiset(r)| == |multiset(s)|;
    forall x ensures x in r <==> x in s {
      assert x in r <==> x in multiset(r);
    }
  }

  /** The different keys of the rows of `s`. */
  function KeySet<T(==,!new), K(!new)>(s: seq<T>, key: T -> K): set<K> {
    set x | x in s :: key(x)
  }

  /** Keeping the first row per key keeps one row for every key of the input. */
  lemma DedupKeyCount<T(!new), K(!new)>(s: seq<T>, key: T -> K)
    ensures |DedupBy(s, key, {})| == |KeySet(s, key)|
  {
    var d := DedupBy(s, key, {});
    DistinctByCard(d, key);
    var kept := set x | x in d :: key(x);
    var all := set x | x in s :: key(x);
    forall k | k in all ensures k in kept {
      var y :| y in s && key(y) == k;
      DedupComplete(s, key, {}, y);
    }
    assert kept == all;
  }

  /** After sorting descending, keeping the first row per key and taking n:
      a key that did not make it means n rows were kept, none scoring below
      any row of the missing key. */
  lemma DedupTopOmitted<T(!new), K(!new)>(s: seq<T>, key: T -> K, score: T -> Option<real>, n: nat, y: T)
    requires Descending(s, score) && y in s
    requires key(y) !in Column(Take(DedupBy(s, key, {}), n), key)
    ensures |Take(DedupBy(s, key, {}), n)| == n
    ensures forall x :: x in Take(DedupBy(s, key, {}), n) ==> ScoreLe(score(y), score(x))
  {
    var d := DedupBy(s, key, {});
    var top := Take(d, n);
    DedupKeepsMax(s, key, {}, score);
    DedupComplete(s, key, {}, y);
    var z :| z in d && key(z) == key(y);
    var k :| 0 <= k < |d| && d[k] == z;
    NotInColumn(top, key, z);
    NotInPrefix(d, |top|, k);
    assert ScoreLe(score(y), score(z));
    forall x | x in top ensures ScoreLe(score(y), score(x)) {
      var i :| 0 <= i < |top| && top[i] == x;
      assert d[i] == x;
      ScoreLeTrans(score(y), score(z), score(x));
    }
  }

  lemma NotInColumn<T(!new), K(!new)>(top: seq<T>, key: T -> K, z: T)
    requires key(z) !in Column(top, key)
    ensures z !in top
  {
    forall i | 0 <= i < |top| ensures top[i] != z {
      assert Column(top, key)[i] == key(top[i]);
    }
  }

  lemma NotInPrefix<T>(d: seq<T>, m: nat, k: int)
    requires m <= |d| && 0 <= k < |d| && d[k] !in d[..m]
    ensures k >= m
  {
    assert forall i :: 0 <= i < m ==> d[..m][i] == d[i];
  }

  /** On a descending sequence `head(n)` leaves out only rows that score no
      higher than every row it keeps, and only when it keeps n rows. */
  lemma TakeDescending<T(!new)>(s: seq<T>, score: T -> Option<real>, n: nat)
    requires Descending(s, score)
    ensures forall e :: e in s && e !in Take(s, n) ==>
              |Take(s, n)| == n && forall x :: x in Take(s, n) ==> ScoreLe(score(e), score(x))
  {
    var top := Take(s, n);
    forall e | e in s && e !in top
      ensures |top| == n && forall x :: x in top ==> ScoreLe(score(e), score(x))
    {
      var k :| 0 <= k < |s| && s[k] == e;
      assert k >= |top|;
      forall x | x in top ensures ScoreLe(score(e), score(x)) {
        var i :| 0 <= i < |top| && top[i] == x;
        assert s[i] == x;
      }
    }
  }

  /** A mask no row can pass selects nothing. */
  lemma {:induction false} FilterNone<R(!new)>(rows: seq<R>, keep: R -> bool)
    requires forall x :: !keep(x)
    ensures Filter(rows, keep) == []
  {
    if rows != [] {
      FilterNone(rows[1..], keep);
    }
  }
}
