/** When following cursors enumerates the result, and when it does not: base filters that fail or are
    joined by OR, and records without the order field. */
module WalkExactness {
  import opened Results
  import opened QueryAst
  import opened Truth
  import opened QueryMeaning
  import opened Pagination
  import opened OrderedRows
  import opened MeaningPreserved
  import opened SqlStatements
  import opened StatementMeaning
  import opened KeptFlags
  import opened KeysetWalk
  import Columns
  import SqlCompiler

  // ----- a filter that fails -----

  /** The first page is an error exactly when the filter does not compile, or to no search condition. */
  lemma FirstPageExactly(src: Source, base: Query, limit: nat)
    requires PaginatorQuery(base)
    ensures Turns(src, base, limit)(NoCursor).Ok? <==> Served(src.entity, base.where)
    ensures !Served(src.entity, base.where) ==> !HasWalk(src, base, limit)
  {
    FirstQuery(base, limit);
    AnswerIs(src, Paged(base).(limit := Some(limit + 1)));
  }

  // ----- a filter that the cursor condition widens -----

  /** How the database chooses rows once a cursor condition has joined an OR. */
  lemma WidenedSelects(src: Source, where: Option<WhereClause>, c: Condition, row: Row)
    requires CursorLike(c) && Readable(where) && !Narrows(where)
    ensures Selected(src, AppendCondition(where, c), row)
       <==> Selected(src, where, row) || (Selected(src, None, row) && LeafTruth(src.db, src.entity, c, row) == True)
  {
    AppendedSelects(src, where, c, row);
    KeptIs(where);
    EmptySaysNothing(src.db, src.entity, Kept(where), row);
  }

  lemma SamePrefix(f: Position, p: Row -> bool, q: Row -> bool, low: Row -> bool, bound: int, table: seq<Row>)
    requires Apart(f, table) && forall row :: low(row) == (f(row) <= bound)
    requires forall i :: 0 <= i < |table| ==> (p(table[i]) && low(table[i])) == (q(table[i]) && low(table[i]))
    ensures Filter(low, Sort(f, Filter(p, table))) == Filter(low, Sort(f, Filter(q, table)))
  {
    var both := (row: Row) => p(row) && low(row);
    FilterBoth(p, low, both, table);
    FilterBoth(q, low, both, table);
    ApartFilter(f, p, table);
    ApartFilter(f, q, table);
    FilterSort(f, low, Filter(p, table));
    FilterSort(f, low, Filter(q, table));
  }

  /** Two increasing lists with the same elements up to the position of row `k` of the first begin
      with the same `k + 1` rows. */
  lemma PrefixAgrees(f: Position, rows: seq<Row>, others: seq<Row>, low: Row -> bool, k: nat)
    requires Increasing(f, rows) && Increasing(f, others) && k < |rows|
    requires forall row :: low(row) == (f(row) <= f(rows[k]))
    requires Filter(low, rows) == Filter(low, others)
    ensures k < |others| && rows[..k + 1] == others[..k + 1]
  {
    BelowIsPrefix(f, rows, low, f(rows[k]));
    BelowIsPrefix(f, others, low, f(rows[k]));
    var n := |Filter(low, rows)|;
    assert k < n && rows[..n][..k + 1] == rows[..k + 1] && others[..n][..k + 1] == others[..k + 1];
  }

  /** Under an OR the query narrowed by the cursor of record `k` starts again with the first rows. */
  lemma RestartedByKey(src: Source, base: Query, k: nat)
    requires Pageable(src, base) && !Narrows(base.where) && k < |Full(src, base)|
    ensures var again := Ordered(src, NarrowedAt(src, base, k));
      |Rows(src, base)| <= |again| && Rows(src, base)[..k + 1] == again[..k + 1]
  {
    var rows, f, table := Rows(src, base), PositionBy(src, Orders(base)[0]), src.table;
    var at := rows[k];
    var c := FollowingCondition(RecordOf(src, base, at), Orders(base));
    var p, q := Selects(src, base.where), Selects(src, AppendCondition(base.where, c));
    var low := (row: Row) => f(row) <= f(at);
    RowsFromTable(src, base, k);
    FullAt(src, base, k);
    forall i | 0 <= i < |table|
      ensures (p(table[i]) && low(table[i])) == (q(table[i]) && low(table[i])) && (p(table[i]) ==> q(table[i]))
    {
      CursorSelects(src, base, table[i], at);
      WidenedSelects(src, base.where, c, table[i]);
    }
    Restarts(f, p, q, low, table, k);
  }

  lemma Restarts(f: Position, p: Row -> bool, q: Row -> bool, low: Row -> bool, table: seq<Row>, k: nat)
    requires Apart(f, table) && k < |Sort(f, Filter(p, table))|
    requires forall row :: low(row) == (f(row) <= f(Sort(f, Filter(p, table))[k]))
    requires forall i :: 0 <= i < |table| ==>
      (p(table[i]) && low(table[i])) == (q(table[i]) && low(table[i])) && (p(table[i]) ==> q(table[i]))
    ensures var rows, again := Sort(f, Filter(p, table)), Sort(f, Filter(q, table));
      |rows| <= |again| && rows[..k + 1] == again[..k + 1]
  {
    var rows, again := Sort(f, Filter(p, table)), Sort(f, Filter(q, table));
    SamePrefix(f, p, q, low, f(rows[k]), table);
    ApartFilter(f, p, table);
    ApartFilter(f, q, table);
    SortIncreasing(f, Filter(p, table));
    SortIncreasing(f, Filter(q, table));
    SortLength(f, Filter(p, table));
    SortLength(f, Filter(q, table));
    FilterLonger(p, q, table);
    PrefixAgrees(f, rows, again, low, k);
  }

  /** No record holds a value under the order field's own name, so every cursor holds Null. */
  predicate Blind(src: Source, base: Query) {
    && Orders(base)[0].field != ""
    && forall row :: row in src.table ==> Column(RecordOf(src, base, row), Orders(base)[0].field) == Null
  }

  /** No row compares with Null. */
  lemma BlindCondition(src: Source, base: Query, k: nat, row: Row)
    requires Blind(src, base) && k < |Full(src, base)|
    ensures var c := FollowingCondition(Full(src, base)[k], Orders(base));
      CursorLike(c) && LeafTruth(src.db, src.entity, c, row) != True
  {
    RowsFromTable(src, base, k);
    FullAt(src, base, k);
  }

  lemma RestartedBlindly(src: Source, base: Query, k: nat)
    requires Blind(src, base) && Readable(base.where) && !Narrows(base.where) && k < |Full(src, base)|
    ensures Ordered(src, NarrowedAt(src, base, k)) == Rows(src, base)
  {
    var c := FollowingCondition(Full(src, base)[k], Orders(base));
    var p, q := Selects(src, base.where), Selects(src, AppendCondition(base.where, c));
    forall i | 0 <= i < |src.table|
      ensures p(src.table[i]) == q(src.table[i])
    {
      BlindCondition(src, base, k, src.table[i]);
      WidenedSelects(src, base.where, c, src.table[i]);
    }
    FilterSame(p, q, src.table);
  }

  /** A query that selects other columns than the order field's. */
  lemma UnselectedIsBlind(src: Source, base: Query)
    requires PaginatorQuery(base) && OwnName(src.entity, base) && !KeySelected(src.entity, base)
    ensures Blind(src, base)
  {
    forall row | row in src.table
      ensures Column(RecordOf(src, base, row), Orders(base)[0].field) == Null
    {
      ScannedHolds(ColumnNames(src.entity, base.fields), row, Orders(base)[0].field);
    }
  }

  lemma Restarted(src: Source, base: Query, k: nat)
    requires Orderly(src, base) && !Narrows(base.where) && k < |Full(src, base)|
    ensures var again := Shown(src, base, Ordered(src, NarrowedAt(src, base, k)));
      |Full(src, base)| <= |again| && Full(src, base)[..k + 1] == again[..k + 1]
  {
    if KeySelected(src.entity, base) {
      RestartedByKey(src, base, k);
      var again := Ordered(src, NarrowedAt(src, base, k));
      SamePrefixShown(ProjectionOf(base, src.entity), Rows(src, base), again, k + 1);
    } else {
      UnselectedIsBlind(src, base);
      RestartedBlindly(src, base, k);
    }
  }

  lemma SamePrefixShown(p: Projection, rows: seq<Row>, others: seq<Row>, n: nat)
    requires n <= |rows| && n <= |others| && rows[..n] == others[..n]
    ensures Records(p, rows)[..n] == Records(p, others)[..n]
  {
    RecordsSlice(p, rows, 0, n);
    RecordsSlice(p, others, 0, n);
    assert rows[0..n] == rows[..n] && others[0..n] == others[..n];
  }

  // ----- the walk goes round -----

  lemma SameStart(full: seq<Row>, again: seq<Row>, limit: nat)
    requires 0 < limit < |full| <= |again| && full[..limit] == again[..limit]
    ensures full[limit - 1] == again[limit - 1]
  {
    assert full[..limit][limit - 1] == again[..limit][limit - 1];
  }

  lemma FirstPage(src: Source, base: Query, limit: nat)
    requires PaginatorQuery(base) && Served(src.entity, base.where) && 1 <= limit < |Full(src, base)|
    ensures var first := Turns(src, base, limit)(NoCursor);
      first.Ok? && first.value.data == Full(src, base)[..limit]
      && first.value.info.nextCursor == BuildCursor(Full(src, base)[limit - 1], Orders(base))
  {
    FirstPageFrom(src, base, limit);
  }

  /** The page holds the first of the records, and a cursor to its last if there are more. */
  predicate IsFetched(r: Result<PageResponse, PageError>, rows: seq<Row>, limit: nat, orders: seq<OrderClause>) {
    r.Ok? && r.value.data == rows[..Min(limit, |rows|)]
    && r.value.info.nextCursor == if 0 < limit < |rows| then BuildCursor(rows[limit - 1], orders) else NoCursor
  }

  lemma FetchedPage(base: Query, limit: nat, cursor: CursorText, run: Executor, q: Query, rows: seq<Row>)
    requires CursorQuery(base, Forward(limit, cursor)) == Ok(q) && q.orderBy == Orders(base)
    requires run(q) == Some(Window(rows, None, Some(limit + 1)))
    ensures IsFetched(CursorPage(base, Forward(limit, cursor), run), rows, limit, Orders(base))
  {
    WholeTail(rows);
    CutWindow(rows, 0, limit);
  }

  lemma NarrowedRecords(src: Source, base: Query, limit: nat, k: nat)
    requires PaginatorQuery(base) && Served(src.entity, base.where) && Orders(base)[0].field != ""
    requires k < |Full(src, base)|
    ensures Answer(src, NarrowedAt(src, base, k).(limit := Some(limit + 1)))
         == Some(Window(Shown(src, base, Ordered(src, NarrowedAt(src, base, k))), None, Some(limit + 1)))
  {
    var rows := Ordered(src, NarrowedAt(src, base, k));
    NarrowedAnswer(src, base, limit, k);
    WholeTail(rows);
    WholeTail(Shown(src, base, rows));
    RecordsWindow(ProjectionOf(base, src.entity), rows, 0, limit + 1);
  }

  /** The page of a cursor holds the first records of the narrowed query's answer. */
  lemma NextPage(src: Source, base: Query, limit: nat, k: nat, rows: seq<Row>)
    requires PaginatorQuery(base) && Served(src.entity, base.where) && Orders(base)[0].field != ""
    requires k < |Full(src, base)| && rows == Shown(src, base, Ordered(src, NarrowedAt(src, base, k)))
    ensures IsFetched(Turns(src, base, limit)(BuildCursor(Full(src, base)[k], Orders(base))), rows, limit, Orders(base))
  {
    ForwardQuery(src, base, limit, k);
    NarrowedRecords(src, base, limit, k);
    FetchedPage(base, limit, BuildCursor(Full(src, base)[k], Orders(base)), Executes(src),
                NarrowedAt(src, base, k).(limit := Some(limit + 1)), rows);
  }

  lemma SecondPage(src: Source, base: Query, limit: nat)
    requires Orderly(src, base) && !Narrows(base.where) && 1 <= limit < |Full(src, base)|
    ensures var next := BuildCursor(Full(src, base)[limit - 1], Orders(base));
      var second := Turns(src, base, limit)(next);
      second.Ok? && second.value.data == Full(src, base)[..limit] && second.value.info.nextCursor == next
  {
    var again := Shown(src, base, Ordered(src, NarrowedAt(src, base, limit - 1)));
    Restarted(src, base, limit - 1);
    NextPage(src, base, limit, limit - 1, again);
    FetchedAgain(Turns(src, base, limit)(BuildCursor(Full(src, base)[limit - 1], Orders(base))),
                 Full(src, base), again, limit, Orders(base));
  }

  lemma FetchedAgain(
    r: Result<PageResponse, PageError>, full: seq<Row>, again: seq<Row>, limit: nat, orders: seq<OrderClause>)
    requires IsFetched(r, again, limit, orders) && 0 < limit < |full| <= |again| && full[..limit] == again[..limit]
    ensures r.Ok? && r.value.data == full[..limit] && r.value.info.nextCursor == BuildCursor(full[limit - 1], orders)
  {
    SameStart(full, again, limit);
  }

  /** Under an OR that leaves more rows than a page holds, the cursor of the first page leads back to
      the first page. */
  lemma OrRootedRestarts(src: Source, base: Query, limit: nat)
    requires Orderly(src, base) && !Narrows(base.where) && 1 <= limit < |Full(src, base)|
    ensures var next := CursorAt(Full(src, base), Orders(base), limit);
      var first, second := Turns(src, base, limit)(NoCursor), Turns(src, base, limit)(next);
      next != NoCursor && first.Ok? && second.Ok?
      && first.value.data == second.value.data == Full(src, base)[..limit]
      && first.value.info.nextCursor == second.value.info.nextCursor == next
  {
    FirstPage(src, base, limit);
    SecondPage(src, base, limit);
  }

  /** A cursor whose page hands out the same cursor again is on no walk. */
  lemma {:induction false} NoWalkRound(turn: Turn, cursor: CursorText, pages: seq<PageResponse>)
    requires turn(cursor).Ok? && turn(cursor).value.info.nextCursor == cursor != NoCursor
    ensures !IsWalk(turn, cursor, pages)
    decreases |pages|
  {
    if pages != [] {
      NoWalkRound(turn, cursor, pages[1..]);
    }
  }

  ghost predicate HasWalk(src: Source, base: Query, limit: nat) {
    exists pages :: IsWalk(Turns(src, base, limit), NoCursor, pages)
  }

  lemma OnePageWalk(src: Source, base: Query, limit: nat) returns (page: PageResponse)
    requires PaginatorQuery(base) && Served(src.entity, base.where) && 1 <= limit && |Full(src, base)| <= limit
    ensures IsWalk(Turns(src, base, limit), NoCursor, [page]) && page.data == Full(src, base)
    ensures Turns(src, base, limit)(NoCursor) == Ok(page) && page.info.nextCursor == NoCursor
  {
    FirstPageFrom(src, base, limit);
    WholeTail(Full(src, base));
    page := Turns(src, base, limit)(NoCursor).value;
  }

  // ----- records that hold no key -----

  lemma BlindAnswer(src: Source, base: Query, k: nat)
    requires Blind(src, base) && Readable(base.where) && Narrows(base.where) && k < |Full(src, base)|
    ensures Shown(src, base, Ordered(src, NarrowedAt(src, base, k))) == []
  {
    var c := FollowingCondition(Full(src, base)[k], Orders(base));
    var q := Selects(src, AppendCondition(base.where, c));
    forall i | 0 <= i < |src.table|
      ensures !q(src.table[i])
    {
      BlindCondition(src, base, k, src.table[i]);
      NarrowedSelects(src, base.where, c, src.table[i]);
    }
    FilterNone(q, src.table);
  }

  /** The first page hands out a cursor whose page is empty and hands out none. */
  lemma BlindSecondPage(src: Source, base: Query, limit: nat)
    requires PaginatorQuery(base) && Served(src.entity, base.where) && Blind(src, base) && Narrows(base.where)
    requires 1 <= limit < |Full(src, base)|
    ensures var second := Turns(src, base, limit)(BuildCursor(Full(src, base)[limit - 1], Orders(base)));
      second.Ok? && second.value.data == [] && second.value.info.nextCursor == NoCursor
  {
    BlindAnswer(src, base, limit - 1);
    NextPage(src, base, limit, limit - 1, []);
  }

  lemma TwoPages(turn: Turn, pages: seq<PageResponse>)
    requires IsWalk(turn, NoCursor, pages) && turn(NoCursor).Ok?
    requires turn(NoCursor).value.info.nextCursor != NoCursor
    requires turn(turn(NoCursor).value.info.nextCursor).Ok?
    requires turn(turn(NoCursor).value.info.nextCursor).value.data == []
    requires turn(turn(NoCursor).value.info.nextCursor).value.info.nextCursor == NoCursor
    ensures Concat(pages) == turn(NoCursor).value.data
  {
    var rest := pages[1..];
    assert IsWalk(turn, pages[0].info.nextCursor, rest);
    assert rest[0].data == [] && rest[1..] == [];
    assert Concat(rest) == [] && pages[0].data + [] == pages[0].data;
  }

  lemma TwoPageWalk(turn: Turn) returns (pages: seq<PageResponse>)
    requires turn(NoCursor).Ok? && turn(NoCursor).value.info.nextCursor != NoCursor
    requires turn(turn(NoCursor).value.info.nextCursor).Ok?
    requires turn(turn(NoCursor).value.info.nextCursor).value.info.nextCursor == NoCursor
    ensures IsWalk(turn, NoCursor, pages)
  {
    var first := turn(NoCursor).value;
    var second := turn(first.info.nextCursor).value;
    pages := [first, second];
    assert pages[1..] == [second];
    assert IsWalk(turn, first.info.nextCursor, [second]);
  }

  lemma BlindWalk(src: Source, base: Query, limit: nat) returns (pages: seq<PageResponse>)
    requires PaginatorQuery(base) && Served(src.entity, base.where) && Blind(src, base) && Narrows(base.where)
    requires 1 <= limit
    ensures IsWalk(Turns(src, base, limit), NoCursor, pages)
  {
    if limit < |Full(src, base)| {
      FirstPage(src, base, limit);
      BlindSecondPage(src, base, limit);
      pages := TwoPageWalk(Turns(src, base, limit));
    } else {
      var page := OnePageWalk(src, base, limit);
      pages := [page];
    }
  }

  /** The walk stops after one page of records: a second page, if one is promised, is empty. */
  lemma BlindStops(src: Source, base: Query, limit: nat, pages: seq<PageResponse>)
    requires PaginatorQuery(base) && Served(src.entity, base.where) && Blind(src, base) && Narrows(base.where)
    requires 1 <= limit && IsWalk(Turns(src, base, limit), NoCursor, pages)
    ensures Concat(pages) == Full(src, base)[..Min(limit, |Full(src, base)|)]
    ensures Concat(pages) == Full(src, base) <==> |Full(src, base)| <= limit
  {
    if limit < |Full(src, base)| {
      FirstPage(src, base, limit);
      BlindSecondPage(src, base, limit);
      TwoPages(Turns(src, base, limit), pages);
    } else {
      var page := OnePageWalk(src, base, limit);
      assert pages == [page] && pages[1..] == [] && page.data + [] == page.data;
    }
  }

  /** No row has a column of the order field's own name, because it is stored under another. */
  predicate HiddenName(src: Source, base: Query) {
    && Orders(base)[0].field != ""
    && forall row :: row in src.table ==> Orders(base)[0].field !in row
  }

  /** Whatever columns are selected, a walk along an order field stored under another name shows its
      first page alone. */
  lemma HiddenNameStops(src: Source, base: Query, limit: nat, pages: seq<PageResponse>)
    requires PaginatorQuery(base) && Served(src.entity, base.where) && HiddenName(src, base) && Narrows(base.where)
    requires 1 <= limit && IsWalk(Turns(src, base, limit), NoCursor, pages)
    ensures Concat(pages) == Full(src, base)[..Min(limit, |Full(src, base)|)]
    ensures Concat(pages) == Full(src, base) <==> |Full(src, base)| <= limit
  {
    forall row | row in src.table
      ensures Column(RecordOf(src, base, row), Orders(base)[0].field) == Null
    {
      ScannedHolds(ColumnNames(src.entity, base.fields), row, Orders(base)[0].field);
    }
    BlindStops(src, base, limit, pages);
  }

  // ----- exactly when walks exist, and when they are whole -----

  /** Following cursors comes to an end exactly when the filter is absent, all required or empty, or
      the result fits one page. */
  lemma WalkExistsExactly(src: Source, base: Query, limit: nat)
    requires Orderly(src, base) && 1 <= limit
    ensures HasWalk(src, base, limit) <==> Narrows(base.where) || |Full(src, base)| <= limit
  {
    if |Full(src, base)| <= limit {
      var page := OnePageWalk(src, base, limit);
    } else if Narrows(base.where) {
      if KeySelected(src.entity, base) {
        var pages := WalkExists(src, base, limit);
      } else {
        UnselectedIsBlind(src, base);
        var pages := BlindWalk(src, base, limit);
      }
    } else {
      OrRootedRestarts(src, base, limit);
      forall pages
        ensures !IsWalk(Turns(src, base, limit), NoCursor, pages)
      {
        if pages != [] {
          NoWalkRound(Turns(src, base, limit), CursorAt(Full(src, base), Orders(base), limit), pages[1..]);
        }
      }
    }
  }

  /** A walk that comes to an end has shown the whole ordered result exactly when all columns or the
      order field's are selected, or the result fits one page; otherwise it has shown the first page. */
  lemma WalkWholeExactly(src: Source, base: Query, limit: nat, pages: seq<PageResponse>)
    requires Orderly(src, base) && 1 <= limit && IsWalk(Turns(src, base, limit), NoCursor, pages)
    ensures Concat(pages) == Full(src, base) <==> KeySelected(src.entity, base) || |Full(src, base)| <= limit
    ensures !KeySelected(src.entity, base) ==> Concat(pages) == Full(src, base)[..Min(limit, |Full(src, base)|)]
  {
    WalkExistsExactly(src, base, limit);
    if !Narrows(base.where) {
      var page := OnePageWalk(src, base, limit);
      assert pages == [page] && pages[1..] == [];
    } else if KeySelected(src.entity, base) {
      WalkEnumerates(src, base, limit, pages);
    } else {
      UnselectedIsBlind(src, base);
      BlindStops(src, base, limit, pages);
    }
  }

  // ----- pages before a cursor -----

  /** The query with the condition of the rows before record `i` appended. */
  ghost function BeforeAt(src: Source, base: Query, i: nat): Query
    requires i < |Full(src, base)|
  {
    Paged(base).(where := AppendCondition(base.where, PrecedingCondition(Full(src, base)[i], Orders(base))))
  }

  function PrecedingCondition(at: Row, orders: seq<OrderClause>): Condition {
    CursorCondition(BuildCursor(at, orders).cursor, orders, true)
  }

  lemma PrecedingSelects(src: Source, base: Query, row: Row, at: Row)
    requires Pageable(src, base) && row in src.table && at in src.table
    ensures var f := PositionBy(src, Orders(base)[0]);
      var c := PrecedingCondition(RecordOf(src, base, at), Orders(base));
      CursorLike(c) && (LeafTruth(src.db, src.entity, c, row) == True <==> f(row) < f(at))
  {
    assert Compares(src, Orders(base)[0], row, at) && Compares(src, Orders(base)[0], at, row);
    RecordHoldsKey(src, base, at);
  }

  lemma BelowRow(f: Position, rows: seq<Row>, below: Row -> bool, i: nat)
    requires Increasing(f, rows) && i < |rows| && forall row :: below(row) == (f(row) < f(rows[i]))
    ensures Filter(below, rows) == rows[..i]
  {
    BelowIsPrefix(f, rows, below, f(rows[i]) - 1);
    if i > 0 {
      IncreasingAt(f, rows, i - 1, i);
    }
  }

  lemma BeforeCursor(src: Source, base: Query, i: nat)
    requires Pageable(src, base) && Narrows(base.where) && i < |Full(src, base)|
    ensures Ordered(src, BeforeAt(src, base, i)) == Rows(src, base)[..i]
  {
    var rows, f := Rows(src, base), PositionBy(src, Orders(base)[0]);
    var at := rows[i];
    var c := PrecedingCondition(RecordOf(src, base, at), Orders(base));
    RowsFromTable(src, base, i);
    FullAt(src, base, i);
    var p, both := Selects(src, base.where), Selects(src, AppendCondition(base.where, c));
    var below := (row: Row) => f(row) < f(at);
    forall j | 0 <= j < |src.table|
      ensures both(src.table[j]) == (p(src.table[j]) && below(src.table[j]))
    {
      PrecedingSelects(src, base, src.table[j], at);
      NarrowedSelects(src, base.where, c, src.table[j]);
    }
    FilterBoth(p, below, both, src.table);
    ApartFilter(f, p, src.table);
    FilterSort(f, below, Filter(p, src.table));
    SortIncreasing(f, Filter(p, src.table));
    BelowRow(f, rows, below, i);
  }

  function Backward(limit: int, cursor: CursorText): PageRequest {
    PageRequest(ByCursor, 1, limit, NoCursor, NoCursor, cursor)
  }

  /** What a cursor leads back to. */
  ghost function BackTurns(src: Source, base: Query, limit: int): Turn {
    (cursor: CursorText) => CursorPage(base, Backward(limit, cursor), Executes(src))
  }

  lemma BackwardQuery(src: Source, base: Query, limit: nat, i: nat)
    requires i < |Full(src, base)|
    ensures CursorQuery(base, Backward(limit, BuildCursor(Full(src, base)[i], Orders(base))))
         == Ok(BeforeAt(src, base, i).(limit := Some(limit + 1)))
  {
  }

  lemma BeforeAnswer(src: Source, base: Query, limit: nat, i: nat)
    requires Pageable(src, base) && Narrows(base.where) && i < |Full(src, base)|
    ensures Answer(src, BeforeAt(src, base, i).(limit := Some(limit + 1)))
         == Some(Window(Full(src, base)[..i], None, Some(limit + 1)))
  {
    var p, rows := ProjectionOf(base, src.entity), Rows(src, base);
    RowsFromTable(src, base, i);
    FullAt(src, base, i);
    PrecedingSelects(src, base, rows[i], rows[i]);
    AppendServed(src.entity, base.where, PrecedingCondition(Full(src, base)[i], Orders(base)));
    BoundedAnswer(src, BeforeAt(src, base, i), None, Some(limit + 1));
    BeforeCursor(src, base, i);
    BeforeWindow(p, rows, i, limit + 1);
  }

  lemma BeforeWindow(p: Projection, rows: seq<Row>, i: nat, limit: nat)
    requires i <= |rows|
    ensures Records(p, Window(rows[..i], None, Some(limit))) == Window(Records(p, rows)[..i], None, Some(limit))
  {
    RecordsWindow(p, rows[..i], 0, limit);
    RecordsSlice(p, rows, 0, i);
    assert rows[0..i] == rows[..i] && Records(p, rows)[0..i] == Records(p, rows)[..i];
    WholeTail(rows[..i]);
    WholeTail(Records(p, rows)[..i]);
  }

  lemma BackwardPage(base: Query, limit: nat, cursor: CursorText, run: Executor, q: Query, rows: seq<Row>)
    requires CursorQuery(base, Backward(limit, cursor)) == Ok(q) && q.orderBy == Orders(base)
    requires run(q) == Some(Window(rows, None, Some(limit + 1)))
    ensures IsFetched(CursorPage(base, Backward(limit, cursor), run), rows, limit, Orders(base))
  {
    WholeTail(rows);
    CutWindow(rows, 0, limit);
  }

  /** The page before record `i` holds the first records of the result, as far as `i`, and a cursor to
      the last of them if it does not reach `i`. */
  lemma BeforePage(src: Source, base: Query, limit: nat, i: nat)
    requires Pageable(src, base) && Narrows(base.where) && 1 <= limit && i < |Full(src, base)|
    ensures IsFetched(BackTurns(src, base, limit)(BuildCursor(Full(src, base)[i], Orders(base))),
                      Full(src, base)[..i], limit, Orders(base))
  {
    BackwardQuery(src, base, limit, i);
    BeforeAnswer(src, base, limit, i);
    BackwardPage(base, limit, BuildCursor(Full(src, base)[i], Orders(base)), Executes(src),
                 BeforeAt(src, base, i).(limit := Some(limit + 1)), Full(src, base)[..i]);
  }

  /** Records of different rows are different. */
  lemma RecordsDiffer(src: Source, base: Query, i: nat, j: nat)
    requires Pageable(src, base) && i < j < |Full(src, base)|
    ensures Full(src, base)[i] != Full(src, base)[j]
  {
    var f, rows := PositionBy(src, Orders(base)[0]), Filter(Selects(src, base.where), src.table);
    ApartFilter(f, Selects(src, base.where), src.table);
    SortIncreasing(f, rows);
    IncreasingAt(f, Rows(src, base), i, j);
    FullAt(src, base, i);
    FullAt(src, base, j);
    RecordHoldsKey(src, base, Rows(src, base)[i]);
    RecordHoldsKey(src, base, Rows(src, base)[j]);
  }

  /** That is the previous page, the last `limit` records before record `i`, exactly when no more than
      a page comes before it. */
  lemma PreviousPageExactly(src: Source, base: Query, limit: nat, i: nat)
    requires Pageable(src, base) && Narrows(base.where) && 1 <= limit && i < |Full(src, base)|
    ensures IsPrevious(BackTurns(src, base, limit)(BuildCursor(Full(src, base)[i], Orders(base))),
                       Full(src, base), limit, i)
       <==> i <= limit
  {
    BeforePage(src, base, limit, i);
    StartsDiffer(src, base, limit, i);
    FirstOrPrevious(Full(src, base), limit, i, Orders(base),
                    BackTurns(src, base, limit)(BuildCursor(Full(src, base)[i], Orders(base))));
  }

  /** The last `limit` records before record `i`. */
  predicate IsPrevious(r: Result<PageResponse, PageError>, full: seq<Row>, limit: nat, i: nat)
    requires i <= |full|
  {
    r.Ok? && r.value.data == full[if i > limit then i - limit else 0..i]
  }

  lemma StartsDiffer(src: Source, base: Query, limit: nat, i: nat)
    requires Pageable(src, base) && 1 <= limit && i < |Full(src, base)|
    ensures i > limit ==> Full(src, base)[0] != Full(src, base)[i - limit]
  {
    if i > limit {
      RecordsDiffer(src, base, 0, i - limit);
    }
  }

  lemma FirstOrPrevious(
    full: seq<Row>, limit: nat, i: nat, orders: seq<OrderClause>, r: Result<PageResponse, PageError>)
    requires 1 <= limit && i < |full| && IsFetched(r, full[..i], limit, orders)
    requires i > limit ==> full[0] != full[i - limit]
    ensures IsPrevious(r, full, limit, i) <==> i <= limit
  {
    var data := r.value.data;
    if i > limit {
      assert data[0] == full[0] && full[i - limit..i][0] == full[i - limit];
    }
  }

  // ----- over all tables -----

  ghost predicate AlwaysWalks(entity: EntityMeta, base: Query, limit: nat) {
    forall src: Source :: src.entity == entity && Orderly(src, base) ==> HasWalk(src, base, limit)
  }

  /** Some table holds more rows that pass the filter than a page does. */
  ghost predicate Overflows(entity: EntityMeta, base: Query, limit: nat) {
    exists src: Source :: src.entity == entity && Orderly(src, base) && |Full(src, base)| > limit
  }

  /** On every table the walk ends, exactly when the filter narrows or never passes more than a page. */
  lemma AlwaysWalksExactly(entity: EntityMeta, base: Query, limit: nat)
    requires 1 <= limit
    ensures AlwaysWalks(entity, base, limit) <==> Narrows(base.where) || !Overflows(entity, base, limit)
  {
    forall src: Source | src.entity == entity && Orderly(src, base)
      ensures HasWalk(src, base, limit) <==> Narrows(base.where) || |Full(src, base)| <= limit
    {
      WalkExistsExactly(src, base, limit);
    }
    if Overflows(entity, base, limit) {
      var src: Source :| src.entity == entity && Orderly(src, base) && |Full(src, base)| > limit;
      assert HasWalk(src, base, limit) <==> Narrows(base.where);
    }
  }

  /** A comparison with a value, on a column that is neither the order field's nor the soft-delete
      column. */
  predicate Comparable(entity: EntityMeta, base: Query, c: Condition) {
    && c.nested.None? && !c.negated && c.field != "" && c.value != Null
    && c.operator in {OpEquals, OpNotEquals, OpGreaterThan, OpGreaterThanOrEqual, OpLessThan, OpLessThanOrEqual}
    && Columns.FieldColumn(entity, c.field) !in {Orders(base)[0].field, entity.softDelete}
  }

  /** A database in which every value but a number satisfies the operator. */
  function Agreeable(op: CompareOp): Interp {
    Interp(
      (v: Value, a: Arg) => op != OpNotEquals,
      (v: Value, a: Arg) => if v.Int? && a.Val? && a.v.Int? then v.n < a.v.n else true,
      (v: Value, a: Arg) => if v.Int? && a.Val? && a.v.Int? then v.n > a.v.n else true,
      (v: Value, a: Arg, b: bool) => true,
      (v: Value, a: Arg, b: bool) => true,
      (v: Value, a: Arg, k: SearchKind) => true)
  }

  function Numbered(key: string, col: string, i: int): Row {
    map[col := Bool(true)][key := Int(i)]
  }

  function NumberedRows(key: string, col: string, from: int, n: nat): seq<Row>
    decreases n
  {
    if n == 0 then [] else [Numbered(key, col, from)] + NumberedRows(key, col, from + 1, n - 1)
  }

  function Rank(v: Value): int {
    if v.Int? then v.n else 0
  }

  function NumberedSource(entity: EntityMeta, base: Query, c: Condition, n: nat): Source {
    Source(entity, Agreeable(c.operator), Rank,
           NumberedRows(Orders(base)[0].field, Columns.FieldColumn(entity, c.field), 0, n))
  }

  lemma {:induction false} NumberedRowsAre(key: string, col: string, from: int, n: nat)
    ensures |NumberedRows(key, col, from, n)| == n
    ensures forall i :: 0 <= i < n ==> NumberedRows(key, col, from, n)[i] == Numbered(key, col, from + i)
    decreases n
  {
    if n > 0 {
      NumberedRowsAre(key, col, from + 1, n - 1);
    }
  }

  lemma {:induction false} FreshBy(f: Position, at: int, rows: seq<Row>)
    requires forall i :: 0 <= i < |rows| ==> f(rows[i]) != at
    ensures Fresh(f, at, rows)
    decreases |rows|
  {
    if rows != [] {
      FreshBy(f, at, rows[1..]);
    }
  }

  lemma {:induction false} ApartBy(f: Position, rows: seq<Row>)
    requires forall i, j :: 0 <= i < j < |rows| ==> f(rows[i]) != f(rows[j])
    ensures Apart(f, rows)
    decreases |rows|
  {
    if rows != [] {
      FreshBy(f, f(rows[0]), rows[1..]);
      ApartBy(f, rows[1..]);
    }
  }

  lemma NumberedKey(entity: EntityMeta, base: Query, c: Condition, n: nat, i: nat)
    requires OwnName(entity, base) && i < n
    ensures |NumberedSource(entity, base, c, n).table| == n
    ensures Key(NumberedSource(entity, base, c, n), Orders(base)[0], NumberedSource(entity, base, c, n).table[i])
         == Int(i)
  {
    NumberedRowsAre(Orders(base)[0].field, Columns.FieldColumn(entity, c.field), 0, n);
  }

  lemma NumberedCompare(entity: EntityMeta, base: Query, c: Condition, n: nat, i: nat, j: nat)
    requires OwnName(entity, base) && i < n && j < n
    ensures |NumberedSource(entity, base, c, n).table| == n
    ensures Compares(NumberedSource(entity, base, c, n), Orders(base)[0],
                     NumberedSource(entity, base, c, n).table[i], NumberedSource(entity, base, c, n).table[j])
  {
    NumberedKey(entity, base, c, n, i);
    NumberedKey(entity, base, c, n, j);
  }

  lemma NumberedApart(entity: EntityMeta, base: Query, c: Condition, n: nat)
    requires OwnName(entity, base)
    ensures Apart(PositionBy(NumberedSource(entity, base, c, n), Orders(base)[0]),
                  NumberedSource(entity, base, c, n).table)
  {
    var src := NumberedSource(entity, base, c, n);
    var f := PositionBy(src, Orders(base)[0]);
    forall i, j | 0 <= i < j < |src.table|
      ensures f(src.table[i]) != f(src.table[j])
    {
      NumberedRowsAre(Orders(base)[0].field, Columns.FieldColumn(entity, c.field), 0, n);
      NumberedKey(entity, base, c, n, i);
      NumberedKey(entity, base, c, n, j);
    }
    ApartBy(f, src.table);
  }

  lemma NumberedOrderly(entity: EntityMeta, base: Query, c: Condition, n: nat)
    requires PaginatorQuery(base) && Served(entity, base.where) && OwnName(entity, base)
    ensures Orderly(NumberedSource(entity, base, c, n), base)
  {
    var src := NumberedSource(entity, base, c, n);
    NumberedRowsAre(Orders(base)[0].field, Columns.FieldColumn(entity, c.field), 0, n);
    NumberedApart(entity, base, c, n);
    forall a, b | a in src.table && b in src.table
      ensures Compares(src, Orders(base)[0], a, b)
    {
      var i :| 0 <= i < n && src.table[i] == a;
      var j :| 0 <= j < n && src.table[j] == b;
      NumberedCompare(entity, base, c, n, i, j);
    }
  }

  lemma {:induction false} TruthsHold(db: Interp, entity: EntityMeta, cs: seq<Condition>, i: nat, row: Row)
    requires i < |cs| && cs[i].nested.None?
    ensures Negate(cs[i].negated, LeafTruth(db, entity, cs[i], row)) in Truths(db, entity, cs, row)
    decreases |cs|
  {
    if i > 0 {
      TruthsHold(db, entity, cs[1..], i - 1, row);
    }
  }

  lemma {:induction false} KeptAt(cs: seq<Condition>, i: nat)
    requires i < |cs|
    ensures KeptAll(cs)[i] == KeptCondition(cs[i])
    decreases i
  {
    if i > 0 {
      KeptAt(cs[1..], i - 1);
    }
  }

  lemma ComparisonHolds(entity: EntityMeta, base: Query, c: Condition, n: int)
    requires Comparable(entity, base, c)
    ensures LeafTruth(Agreeable(c.operator), entity, c,
                      Numbered(Orders(base)[0].field, Columns.FieldColumn(entity, c.field), n)) == True
  {
  }

  lemma NumberedPasses(entity: EntityMeta, base: Query, i: nat, n: int, src: Source)
    requires OwnName(entity, base) && Orders(base)[0].field != entity.softDelete
    requires base.where.Some? && base.where.value.operator == LogicalOr
    requires i < |base.where.value.conditions| && Comparable(entity, base, base.where.value.conditions[i])
    requires src.entity == entity && src.db == Agreeable(base.where.value.conditions[i].operator)
    ensures Selected(src, base.where, Numbered(
      Orders(base)[0].field, Columns.FieldColumn(entity, base.where.value.conditions[i].field), n))
  {
    var cs := base.where.value.conditions;
    var row := Numbered(Orders(base)[0].field, Columns.FieldColumn(entity, cs[i].field), n);
    ComparisonHolds(entity, base, cs[i], n);
    KeptAt(cs, i);
    TruthsHold(src.db, entity, KeptAll(cs), i, row);
  }

  lemma AllPass(src: Source, base: Query)
    requires forall row :: row in src.table ==> Selected(src, base.where, row)
    ensures |Full(src, base)| == |src.table|
  {
    FilterAll(Selects(src, base.where), src.table);
    SortLength(PositionBy(src, Orders(base)[0]), src.table);
  }

  lemma NumberedFull(entity: EntityMeta, base: Query, i: nat, n: nat)
    requires OwnName(entity, base) && Orders(base)[0].field != entity.softDelete
    requires base.where.Some? && base.where.value.operator == LogicalOr
    requires i < |base.where.value.conditions| && Comparable(entity, base, base.where.value.conditions[i])
    ensures |Full(NumberedSource(entity, base, base.where.value.conditions[i], n), base)| == n
  {
    var c := base.where.value.conditions[i];
    var src := NumberedSource(entity, base, c, n);
    NumberedRowsAre(Orders(base)[0].field, Columns.FieldColumn(entity, c.field), 0, n);
    forall row | row in src.table
      ensures Selected(src, base.where, row)
    {
      var j :| 0 <= j < n && src.table[j] == row;
      NumberedPasses(entity, base, i, j, src);
    }
    AllPass(src, base);
  }

  lemma OverflowStops(src: Source, base: Query, limit: nat)
    requires Orderly(src, base) && 1 <= limit < |Full(src, base)| && !Narrows(base.where)
    ensures Overflows(src.entity, base, limit) && !AlwaysWalks(src.entity, base, limit)
  {
    WalkExistsExactly(src, base, limit);
  }

  /** An OR with one comparison on another column, whatever its other conditions, goes round on some
      table for every page size. */
  lemma OrOverflows(entity: EntityMeta, base: Query, limit: nat, i: nat)
    requires PaginatorQuery(base) && Served(entity, base.where) && OwnName(entity, base)
    requires Orders(base)[0].field != entity.softDelete && 1 <= limit
    requires base.where.Some? && base.where.value.operator == LogicalOr
    requires i < |base.where.value.conditions| && Comparable(entity, base, base.where.value.conditions[i])
    ensures Overflows(entity, base, limit) && !AlwaysWalks(entity, base, limit)
  {
    var c := base.where.value.conditions[i];
    NumberedOrderly(entity, base, c, limit + 1);
    NumberedFull(entity, base, i, limit + 1);
    NotNarrows(base.where.value, i);
    OverflowStops(NumberedSource(entity, base, c, limit + 1), base, limit);
  }

  lemma NotNarrows(w: WhereClause, i: nat)
    requires w.operator == LogicalOr && i < |w.conditions| && w.conditions[i].nested.None?
    ensures !Narrows(Some(w))
  {
    NotAbsent(w.conditions, i);
  }

  /** For filters of comparisons with other columns the paginator can tell beforehand: every table is
      enumerated exactly when the filter is absent, an AND, or empty. */
  lemma ComparisonsWalkExactly(entity: EntityMeta, base: Query, limit: nat)
    requires PaginatorQuery(base) && OwnName(entity, base)
    requires Orders(base)[0].field != entity.softDelete && 1 <= limit
    requires base.where.Some? ==> forall c :: c in base.where.value.conditions ==> Comparable(entity, base, c)
    ensures AlwaysWalks(entity, base, limit)
       <==> base.where.None? || base.where.value.operator == LogicalAnd || base.where.value.conditions == []
  {
    if base.where.Some? && base.where.value.operator == LogicalOr && base.where.value.conditions != [] {
      assert base.where.value.conditions[0] in base.where.value.conditions;
      ComparableServed(base.where.value.conditions, entity, base, 0);
      OrOverflows(entity, base, limit, 0);
    } else {
      assert Narrows(base.where);
      AlwaysWalksExactly(entity, base, limit);
    }
  }

  lemma {:induction false} ComparableServed(cs: seq<Condition>, entity: EntityMeta, base: Query, n: nat)
    requires forall c :: c in cs ==> Comparable(entity, base, c)
    ensures SqlCompiler.CompileConditions(cs, entity, n).Ok? && AllReadable(cs)
    decreases |cs|
  {
    if cs != [] {
      assert Comparable(entity, base, cs[0]);
      ComparableServed(cs[1..], entity, base, n + |SqlCompiler.CompileCondition(cs[0], entity, n).value.args|);
    }
  }

  lemma {:induction false} NotAbsent(cs: seq<Condition>, i: nat)
    requires i < |cs| && cs[i].nested.None?
    ensures !AllAbsent(cs)
    decreases |cs|
  {
    if i > 0 {
      NotAbsent(cs[1..], i - 1);
    }
  }

  /** An OR of memberships in empty lists, which no row passes, is no obstacle. */
  lemma EmptyOrAlwaysWalks(entity: EntityMeta, base: Query, limit: nat, field: string)
    requires 1 <= limit && field != ""
    requires base.where == Some(WhereClause([Condition(field, OpIn, List([]), false, None)], LogicalOr))
    ensures Served(entity, base.where) && !Narrows(base.where) && AlwaysWalks(entity, base, limit)
  {
    forall src: Source | src.entity == entity && Orderly(src, base)
      ensures Full(src, base) == []
    {
      forall i | 0 <= i < |src.table|
        ensures !Selects(src, base.where)(src.table[i])
      {
        NeverMember(src, base.where, field, src.table[i]);
      }
      FilterNone(Selects(src, base.where), src.table);
    }
    AlwaysWalksExactly(entity, base, limit);
    NotAbsent(base.where.value.conditions, 0);
    EmptyInServed(entity, base.where.value.conditions[0]);
  }

  lemma OneReadable(c: Condition)
    requires c.nested.None?
    ensures AllReadable([c])
  {
    assert [c][0] == c && [c][1..] == [] && AllReadable([]);
  }

  lemma EmptyInServed(entity: EntityMeta, c: Condition)
    requires c.nested.None? && c.operator == OpIn && c.value == List([]) && c.field != ""
    ensures Served(entity, Some(WhereClause([c], LogicalOr)))
  {
    assert [c][1..] == [] && SqlCompiler.CompileConditions([], entity, 0).Ok?;
    var p := SqlCompiler.CompileCondition(c, entity, 0);
    assert p.Ok? && p.value.args == [];
    assert SqlCompiler.CompileConditions([c], entity, 0).Ok?;
    OneReadable(c);
  }

  lemma NeverMember(src: Source, where: Option<WhereClause>, field: string, row: Row)
    requires field != "" && where == Some(WhereClause([Condition(field, OpIn, List([]), false, None)], LogicalOr))
    ensures !Selected(src, where, row)
  {
    var cs := where.value.conditions;
    assert cs[1..] == [] && LeafTruth(src.db, src.entity, cs[0], row) == False;
    assert KeptAll(cs) == cs;
    assert Truths(src.db, src.entity, cs, row) == [False];
  }
}
