/** The query semantics shared by every Spring Data repository of the model.
    A table is a sequence of rows; a derived query is a predicate on rows. */
module Tables {
  import opened Common

  /** Outcome of a query declared to return `Optional<T>`: no row, exactly one
      row (at `index`), or several rows, which Spring Data reports by throwing
      IncorrectResultSizeDataAccessException. */
  datatype Lookup = Missing | Found(index: nat) | NonUnique

  /** Indices of the rows that satisfy `p`, in table order. */
  function Matching<T>(rows: seq<T>, p: T -> bool): (r: seq<nat>)
    ensures forall k :: 0 <= k < |r| ==> r[k] < |rows| && p(rows[r[k]])
    ensures forall i :: 0 <= i < |rows| && p(rows[i]) ==> i in r
    ensures forall k, l :: 0 <= k < l < |r| ==> r[k] < r[l]
    ensures |r| <= |rows|
  {
    if rows == [] then []
    else
      var n := |rows| - 1;
      var front := Matching(rows[..n], p);
      assert forall i :: 0 <= i < n ==> rows[..n][i] == rows[i];
      if p(rows[n]) then front + [n] else front
  }

  /** The rows that satisfy `p`, in table order (a derived `findBy…` query
      returning a list). */
  function Filter<T>(rows: seq<T>, p: T -> bool): (r: seq<T>)
    ensures |r| == |Matching(rows, p)|
    ensures forall k :: 0 <= k < |r| ==> r[k] == rows[Matching(rows, p)[k]]
    ensures forall x :: x in r ==> x in rows && p(x)
    ensures forall i :: 0 <= i < |rows| && p(rows[i]) ==> rows[i] in r
  {
    var m := Matching(rows, p);
    var r := seq(|m|, k requires 0 <= k < |m| => rows[m[k]]);
    assert forall i :: 0 <= i < |rows| && p(rows[i]) ==> rows[i] in r by {
      forall i | 0 <= i < |rows| && p(rows[i]) ensures rows[i] in r {
        var k :| 0 <= k < |m| && m[k] == i;
        assert r[k] == rows[i];
      }
    }
    r
  }

  /** Filtering a table with one more row adds that row at the end exactly
      when it satisfies `p`. */
  lemma FilterAppend<T>(rows: seq<T>, x: T, p: T -> bool)
    ensures Filter(rows + [x], p) == Filter(rows, p) + (if p(x) then [x] else [])
  {
    assert (rows + [x])[..|rows|] == rows;
    assert Matching(rows + [x], p) == Matching(rows, p) + (if p(x) then [|rows|] else []);
  }

  /** A filter that every row passes returns the table unchanged. */
  lemma {:induction false} FilterKeepsAll<T>(rows: seq<T>, p: T -> bool)
    requires forall i :: 0 <= i < |rows| ==> p(rows[i])
    ensures Filter(rows, p) == rows
  {
    if rows != [] {
      var n := |rows| - 1;
      var front, last := rows[..n], rows[n];
      assert rows == front + [last];
      assert forall i :: 0 <= i < n ==> p(front[i]) by {
        forall i | 0 <= i < n ensures p(front[i]) {
          assert front[i] == rows[i];
        }
      }
      FilterKeepsAll(front, p);
      FilterAppend(front, last, p);
    }
  }

  /** Number of rows that satisfy `p` (a derived `countBy…` query). */
  function CountWhere<T>(rows: seq<T>, p: T -> bool): (r: nat)
    ensures r <= |rows|
    ensures r == 0 <==> forall i :: 0 <= i < |rows| ==> !p(rows[i])
  {
    if rows == [] then 0
    else
      var n := |rows| - 1;
      assert forall i :: 0 <= i < n ==> rows[..n][i] == rows[i];
      CountWhere(rows[..n], p) + (if p(rows[n]) then 1 else 0)
  }

  /** Appending a row adds one to a count exactly when the row is counted. */
  lemma CountWhereAppend<T>(rows: seq<T>, x: T, p: T -> bool)
    ensures CountWhere(rows + [x], p) == CountWhere(rows, p) + (if p(x) then 1 else 0)
  {
    assert (rows + [x])[..|rows|] == rows;
  }

  /** Replacing a row by one that the predicate judges the same way leaves a
      count unchanged. */
  lemma {:induction false} CountWhereUpdate<T>(rows: seq<T>, i: nat, x: T, p: T -> bool)
    requires i < |rows| && p(x) == p(rows[i])
    ensures CountWhere(rows[i := x], p) == CountWhere(rows, p)
  {
    var n := |rows| - 1;
    if i < n {
      assert rows[i := x][..n] == rows[..n][i := x];
      CountWhereUpdate(rows[..n], i, x, p);
    } else {
      assert rows[i := x][..n] == rows[..n];
    }
  }

  /** A query that returns `Optional<T>` over a column that need not be unique. */
  function FindUnique<T>(rows: seq<T>, p: T -> bool): (r: Lookup)
    ensures r.Missing? <==> forall i :: 0 <= i < |rows| ==> !p(rows[i])
    ensures r.Found? ==> r.index < |rows| && p(rows[r.index])
    ensures r.Found? ==> forall j :: 0 <= j < |rows| && j != r.index ==> !p(rows[j])
    ensures r.NonUnique? <==> exists i, j :: 0 <= i < j < |rows| && p(rows[i]) && p(rows[j])
  {
    var m := Matching(rows, p);
    if |m| == 0 then Missing
    else if |m| == 1 then
      assert forall j :: 0 <= j < |rows| && p(rows[j]) ==> j == m[0];
      Found(m[0])
    else
      assert m[0] < m[1] && p(rows[m[0]]) && p(rows[m[1]]);
      NonUnique
  }

  /** A single-result query finds the one row that satisfies it. */
  lemma FindUniqueSingle<T>(rows: seq<T>, i: nat, p: T -> bool)
    requires i < |rows| && p(rows[i])
    requires forall j :: 0 <= j < |rows| && j != i ==> !p(rows[j])
    ensures FindUnique(rows, p) == Found(i)
  {
  }

  /** Replacing a row by one that the predicate judges the same way leaves a
      single-result query's outcome unchanged. */
  lemma FindUniqueUpdate<T>(rows: seq<T>, i: nat, x: T, p: T -> bool)
    requires i < |rows| && p(x) == p(rows[i])
    ensures FindUnique(rows[i := x], p) == FindUnique(rows, p)
  {
    var after := rows[i := x];
    assert forall j :: 0 <= j < |rows| ==> p(after[j]) == p(rows[j]);
    if FindUnique(rows, p).NonUnique? {
      var a, b :| 0 <= a < b < |rows| && p(rows[a]) && p(rows[b]);
      assert p(after[a]) && p(after[b]);
    }
    if FindUnique(after, p).NonUnique? {
      var a, b :| 0 <= a < b < |rows| && p(after[a]) && p(after[b]);
      assert p(rows[a]) && p(rows[b]);
    }
  }

  /** A lookup by primary key: the first row that satisfies `p`. */
  function FindFirst<T>(rows: seq<T>, p: T -> bool): (r: Option<nat>)
    ensures r.None? <==> forall i :: 0 <= i < |rows| ==> !p(rows[i])
    ensures r.Some? ==> r.value < |rows| && p(rows[r.value])
    ensures r.Some? ==> forall j :: 0 <= j < r.value ==> !p(rows[j])
  {
    if rows == [] then None
    else if p(rows[0]) then Some(0)
    else
      var rest := FindFirst(rows[1..], p);
      assert forall i :: 1 <= i < |rows| ==> rows[1..][i - 1] == rows[i];
      if rest.Some? then Some(rest.value + 1) else None
  }
}
