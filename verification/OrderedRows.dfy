/** Filtering and sorting rows by an integer position: filtering a sorted list is sorting the
    filtered one, and what lies above an element of a sorted list is the rest of the list. */
module OrderedRows {
  import opened Truth

  type Position = Row -> int

  ghost function Filter(p: Row -> bool, rows: seq<Row>): seq<Row> {
    if rows == [] then []
    else if p(rows[0]) then [rows[0]] + Filter(p, rows[1..])
    else Filter(p, rows[1..])
  }

  function Insert(f: Position, row: Row, rows: seq<Row>): seq<Row> {
    if rows == [] || f(row) < f(rows[0]) then [row] + rows
    else [rows[0]] + Insert(f, row, rows[1..])
  }

  function Sort(f: Position, rows: seq<Row>): seq<Row> {
    if rows == [] then [] else Insert(f, rows[0], Sort(f, rows[1..]))
  }

  /** Strictly increasing positions, all above `low`. */
  predicate IncreasingFrom(f: Position, rows: seq<Row>, low: int) {
    rows == [] || (low < f(rows[0]) && IncreasingFrom(f, rows[1..], f(rows[0])))
  }

  predicate Increasing(f: Position, rows: seq<Row>) {
    rows == [] || IncreasingFrom(f, rows[1..], f(rows[0]))
  }

  /** No row shares the position. */
  predicate Fresh(f: Position, at: int, rows: seq<Row>) {
    rows == [] || (f(rows[0]) != at && Fresh(f, at, rows[1..]))
  }

  /** No two rows share a position. */
  predicate Apart(f: Position, rows: seq<Row>) {
    rows == [] || (Fresh(f, f(rows[0]), rows[1..]) && Apart(f, rows[1..]))
  }

  // ----- filters -----

  lemma {:induction false} FilterSame(p: Row -> bool, q: Row -> bool, rows: seq<Row>)
    requires forall i :: 0 <= i < |rows| ==> p(rows[i]) == q(rows[i])
    ensures Filter(p, rows) == Filter(q, rows)
    decreases |rows|
  {
    if rows != [] {
      FilterSame(p, q, rows[1..]);
    }
  }

  lemma {:induction false} FilterBoth(p: Row -> bool, q: Row -> bool, both: Row -> bool, rows: seq<Row>)
    requires forall i :: 0 <= i < |rows| ==> both(rows[i]) == (p(rows[i]) && q(rows[i]))
    ensures Filter(both, rows) == Filter(q, Filter(p, rows))
    decreases |rows|
  {
    if rows != [] {
      FilterBoth(p, q, both, rows[1..]);
      if p(rows[0]) {
        assert Filter(p, rows)[1..] == Filter(p, rows[1..]);
      }
    }
  }

  lemma {:induction false} FilterAll(p: Row -> bool, rows: seq<Row>)
    requires forall i :: 0 <= i < |rows| ==> p(rows[i])
    ensures Filter(p, rows) == rows
    decreases |rows|
  {
    if rows != [] {
      FilterAll(p, rows[1..]);
    }
  }

  lemma {:induction false} FilterMembers(p: Row -> bool, rows: seq<Row>, i: nat)
    requires i < |Filter(p, rows)|
    ensures Filter(p, rows)[i] in rows && p(Filter(p, rows)[i])
    decreases |rows|
  {
    if p(rows[0]) {
      if i > 0 {
        FilterMembers(p, rows[1..], i - 1);
      }
    } else {
      FilterMembers(p, rows[1..], i);
    }
  }

  lemma {:induction false} FreshFilter(f: Position, at: int, p: Row -> bool, rows: seq<Row>)
    requires Fresh(f, at, rows)
    ensures Fresh(f, at, Filter(p, rows))
    decreases |rows|
  {
    if rows != [] {
      FreshFilter(f, at, p, rows[1..]);
    }
  }

  lemma {:induction false} ApartFilter(f: Position, p: Row -> bool, rows: seq<Row>)
    requires Apart(f, rows)
    ensures Apart(f, Filter(p, rows))
    decreases |rows|
  {
    if rows != [] {
      ApartFilter(f, p, rows[1..]);
      FreshFilter(f, f(rows[0]), p, rows[1..]);
    }
  }

  // ----- sorting -----

  lemma {:induction false} InsertIsPermutation(f: Position, row: Row, rows: seq<Row>)
    ensures multiset(Insert(f, row, rows)) == multiset{row} + multiset(rows)
    decreases |rows|
  {
    if rows != [] && f(row) >= f(rows[0]) {
      InsertIsPermutation(f, row, rows[1..]);
      assert rows == [rows[0]] + rows[1..];
    }
  }

  lemma {:induction false} SortIsPermutation(f: Position, rows: seq<Row>)
    ensures multiset(Sort(f, rows)) == multiset(rows)
    decreases |rows|
  {
    if rows != [] {
      SortIsPermutation(f, rows[1..]);
      InsertIsPermutation(f, rows[0], Sort(f, rows[1..]));
      assert rows == [rows[0]] + rows[1..];
    }
  }

  lemma {:induction false} FreshInsert(f: Position, at: int, row: Row, rows: seq<Row>)
    requires Fresh(f, at, rows) && f(row) != at
    ensures Fresh(f, at, Insert(f, row, rows))
    decreases |rows|
  {
    if rows != [] && f(row) >= f(rows[0]) {
      FreshInsert(f, at, row, rows[1..]);
    }
  }

  lemma {:induction false} FreshSort(f: Position, at: int, rows: seq<Row>)
    requires Fresh(f, at, rows)
    ensures Fresh(f, at, Sort(f, rows))
    decreases |rows|
  {
    if rows != [] {
      FreshSort(f, at, rows[1..]);
      FreshInsert(f, at, rows[0], Sort(f, rows[1..]));
    }
  }

  lemma {:induction false} InsertIncreasing(f: Position, row: Row, rows: seq<Row>, low: int)
    requires IncreasingFrom(f, rows, low) && low < f(row) && Fresh(f, f(row), rows)
    ensures IncreasingFrom(f, Insert(f, row, rows), low)
    decreases |rows|
  {
    if rows != [] {
      if f(row) < f(rows[0]) {
        assert ([row] + rows)[1..] == rows;
      } else {
        InsertIncreasing(f, row, rows[1..], f(rows[0]));
        assert Insert(f, row, rows)[1..] == Insert(f, row, rows[1..]);
      }
    }
  }

  lemma {:induction false} SortIncreasing(f: Position, rows: seq<Row>)
    requires Apart(f, rows)
    ensures Increasing(f, Sort(f, rows))
    decreases |rows|
  {
    if rows != [] {
      SortIncreasing(f, rows[1..]);
      FreshSort(f, f(rows[0]), rows[1..]);
      var s := Sort(f, rows[1..]);
      var low := if s == [] then f(rows[0]) - 1 else (if f(s[0]) < f(rows[0]) then f(s[0]) else f(rows[0])) - 1;
      InsertIncreasing(f, rows[0], s, low);
    }
  }

  lemma {:induction false} InsertBelow(f: Position, row: Row, p: Row -> bool, rows: seq<Row>)
    requires IncreasingFrom(f, rows, f(row))
    ensures Insert(f, row, Filter(p, rows)) == [row] + Filter(p, rows)
    decreases |rows|
  {
    if rows != [] && !p(rows[0]) {
      Lower(f, rows[1..], f(rows[0]), f(row));
      InsertBelow(f, row, p, rows[1..]);
    }
  }

  lemma Lower(f: Position, rows: seq<Row>, low: int, lower: int)
    requires IncreasingFrom(f, rows, low) && lower <= low
    ensures IncreasingFrom(f, rows, lower)
  {
  }

  lemma {:induction false} FilterInsert(f: Position, p: Row -> bool, row: Row, rows: seq<Row>, low: int)
    requires IncreasingFrom(f, rows, low)
    ensures Filter(p, Insert(f, row, rows)) == if p(row) then Insert(f, row, Filter(p, rows)) else Filter(p, rows)
    decreases |rows|
  {
    if rows == [] || f(row) < f(rows[0]) {
      assert ([row] + rows)[1..] == rows;
      if p(row) {
        InsertBelow(f, row, p, rows);
      }
    } else {
      FilterInsert(f, p, row, rows[1..], f(rows[0]));
      assert Insert(f, row, rows)[1..] == Insert(f, row, rows[1..]);
      if p(rows[0]) {
        assert Filter(p, rows)[1..] == Filter(p, rows[1..]);
      }
    }
  }

  /** Filtering commutes with sorting. */
  lemma {:induction false} FilterSort(f: Position, p: Row -> bool, rows: seq<Row>)
    requires Apart(f, rows)
    ensures Sort(f, Filter(p, rows)) == Filter(p, Sort(f, rows))
    decreases |rows|
  {
    if rows != [] {
      FilterSort(f, p, rows[1..]);
      SortIncreasing(f, rows[1..]);
      var s := Sort(f, rows[1..]);
      FilterInsert(f, p, rows[0], s, if s == [] then 0 else f(s[0]) - 1);
      if p(rows[0]) {
        assert Filter(p, rows)[1..] == Filter(p, rows[1..]);
      }
    }
  }

  lemma {:induction false} AllAbove(f: Position, rows: seq<Row>, low: int, above: Row -> bool, at: int)
    requires IncreasingFrom(f, rows, low) && at <= low
    requires forall i :: 0 <= i < |rows| ==> above(rows[i]) == (at < f(rows[i]))
    ensures Filter(above, rows) == rows
    decreases |rows|
  {
    if rows != [] {
      AllAbove(f, rows[1..], f(rows[0]), above, at);
    }
  }

  lemma {:induction false} AboveFrom(f: Position, rows: seq<Row>, low: int, i: nat)
    requires IncreasingFrom(f, rows, low) && i < |rows|
    ensures low < f(rows[i])
    decreases i
  {
    if i > 0 {
      AboveFrom(f, rows[1..], f(rows[0]), i - 1);
    }
  }

  /** What lies above an element of an increasing list is the rest of the list. */
  lemma {:induction false} RestIsAbove(f: Position, rows: seq<Row>, i: nat, above: Row -> bool)
    requires Increasing(f, rows) && i < |rows|
    requires forall j :: 0 <= j < |rows| ==> above(rows[j]) == (f(rows[i]) < f(rows[j]))
    ensures Filter(above, rows) == rows[i + 1..]
    decreases i
  {
    if i == 0 {
      AllAbove(f, rows[1..], f(rows[0]), above, f(rows[0]));
    } else {
      AboveFrom(f, rows[1..], f(rows[0]), i - 1);
      RestIsAbove(f, rows[1..], i - 1, above);
      assert rows[1..][i..] == rows[i + 1..];
    }
  }

  lemma {:induction false} InsertLength(f: Position, row: Row, rows: seq<Row>)
    ensures |Insert(f, row, rows)| == |rows| + 1
    decreases |rows|
  {
    if rows != [] && f(row) >= f(rows[0]) {
      InsertLength(f, row, rows[1..]);
    }
  }

  lemma {:induction false} SortLength(f: Position, rows: seq<Row>)
    ensures |Sort(f, rows)| == |rows|
    decreases |rows|
  {
    if rows != [] {
      SortLength(f, rows[1..]);
      InsertLength(f, rows[0], Sort(f, rows[1..]));
    }
  }

  lemma {:induction false} FilterLonger(p: Row -> bool, q: Row -> bool, rows: seq<Row>)
    requires forall i :: 0 <= i < |rows| && p(rows[i]) ==> q(rows[i])
    ensures |Filter(p, rows)| <= |Filter(q, rows)|
    decreases |rows|
  {
    if rows != [] {
      FilterLonger(p, q, rows[1..]);
    }
  }

  lemma {:induction false} FilterNone(p: Row -> bool, rows: seq<Row>)
    requires forall i :: 0 <= i < |rows| ==> !p(rows[i])
    ensures Filter(p, rows) == []
    decreases |rows|
  {
    if rows != [] {
      FilterNone(p, rows[1..]);
    }
  }

  /** What lies at or below a bound is a prefix of an increasing list. */
  lemma {:induction false} BelowIsPrefix(f: Position, rows: seq<Row>, low: Row -> bool, bound: int)
    requires Increasing(f, rows) && forall i :: 0 <= i < |rows| ==> low(rows[i]) == (f(rows[i]) <= bound)
    ensures |Filter(low, rows)| <= |rows| && Filter(low, rows) == rows[..|Filter(low, rows)|]
    ensures forall i :: 0 <= i < |rows| ==> (i < |Filter(low, rows)| <==> f(rows[i]) <= bound)
    decreases |rows|
  {
    if rows != [] {
      if f(rows[0]) <= bound {
        IncreasingTail(f, rows);
        BelowIsPrefix(f, rows[1..], low, bound);
      } else {
        forall i | 0 <= i < |rows| ensures bound < f(rows[i]) {
          if i > 0 {
            AboveFrom(f, rows[1..], f(rows[0]), i - 1);
          }
        }
        FilterNone(low, rows);
      }
    }
  }

  lemma IncreasingTail(f: Position, rows: seq<Row>)
    requires Increasing(f, rows) && rows != []
    ensures Increasing(f, rows[1..])
  {
  }

  lemma {:induction false} IncreasingAt(f: Position, rows: seq<Row>, i: nat, j: nat)
    requires Increasing(f, rows) && i < j < |rows|
    ensures f(rows[i]) < f(rows[j])
    decreases i
  {
    if i == 0 {
      AboveFrom(f, rows[1..], f(rows[0]), j - 1);
    } else {
      IncreasingTail(f, rows);
      IncreasingAt(f, rows[1..], i - 1, j - 1);
    }
  }
}
