/** Walking cursors over an unchanging table: the pages are those of offset paging, and together
    they are the ordered result with every row once. */
module KeysetWalk {
  import opened Results
  import opened QueryAst
  import opened Truth
  import opened QueryMeaning
  import opened Pagination
  import opened MeaningPreserved
  import opened SqlStatements
  import opened StatementMeaning
  import opened KeptFlags
  import opened OrderedRows
  import Columns
  import SqlCompiler
  import StatementExactness

  /** A table, how the database compares values in conditions, and how it orders them: `rank`
      numbers the values in ascending order, as any strict total order of finitely many can be. */
  datatype Source = Source(entity: EntityMeta, db: Interp, rank: Value -> int, table: seq<Row>)

  // ----- the database's answer -----

  /** Where ORDER BY a column puts a row. */
  function PositionIn(src: Source, col: string, descending: bool): Position {
    (row: Row) => if descending then -src.rank(Column(row, col)) else src.rank(Column(row, col))
  }

  function Min(a: int, b: int): int {
    if a < b then a else b
  }

  /** OFFSET and LIMIT; negative bounds do not occur. */
  function Window(rows: seq<Row>, offset: Option<int>, limit: Option<int>): seq<Row> {
    var from := if offset.Some? && offset.value > 0 then Min(offset.value, |rows|) else 0;
    var rest := rows[from..];
    if limit.Some? && 0 <= limit.value then rest[..Min(limit.value, |rest|)] else rest
  }

  /** ORDER BY; on a unique first column further ones cannot matter. */
  function SortedBy(src: Source, orders: seq<Ordering>, rows: seq<Row>): seq<Row> {
    if orders == [] then rows else Sort(PositionIn(src, orders[0].col, orders[0].descending), rows)
  }

  /** The columns of a row, under their own names. */
  function Scanned(names: seq<string>, row: Row): Row {
    if names == [] then map[] else Scanned(names[1..], row)[names[0] := Column(row, names[0])]
  }

  /** The record scanned from a row. */
  function Record(p: Projection, row: Row): Row {
    if p.Columns? then Scanned(p.names, row) else row
  }

  lemma {:induction false} ScannedHolds(names: seq<string>, row: Row, name: string)
    ensures name in Scanned(names, row) <==> name in names
    ensures name in names ==> Scanned(names, row)[name] == Column(row, name)
    decreases |names|
  {
    if names != [] {
      ScannedHolds(names[1..], row, name);
    }
  }

  function Records(p: Projection, rows: seq<Row>): (records: seq<Row>)
    ensures |records| == |rows|
  {
    if rows == [] then [] else [Record(p, rows[0])] + Records(p, rows[1..])
  }

  lemma {:induction false} RecordsAt(p: Projection, rows: seq<Row>, i: nat)
    requires i < |rows|
    ensures Records(p, rows)[i] == Record(p, rows[i])
    decreases i
  {
    if i > 0 {
      RecordsAt(p, rows[1..], i - 1);
    }
  }

  /** What a SELECT of columns, without grouping, returns. */
  function RunSelect(src: Source, s: Statement, args: seq<Arg>): Option<seq<Row>> {
    if s.Select? && (s.projection.AllColumns? || s.projection.Columns?) && s.groupBy == [] && s.having.None?
    then
      var rows := SortedBy(src, s.orderBy, Picked(src.db, s.where, args, src.table));
      Some(Records(s.projection, Window(rows, s.offset, s.limit)))
    else None
  }

  /** A query is compiled, and its text read and run; text that the compiler or the database rejects
      is an error. */
  function Answer(src: Source, q: Query): Option<seq<Row>> {
    var p :- SqlCompiler.CompileFor(q, src.entity).ToOption();
    var s :- ReadStatement(p.sql);
    RunSelect(src, s, p.args)
  }

  function Executes(src: Source): Executor {
    (q: Query) => Answer(src, q)
  }

  // ----- the answer, in the query's own terms -----

  /** A query a paginator can hold: a SELECT without grouping. */
  predicate PlainSelect(q: Query) {
    q.kind == QuerySelect && q.groupBy == [] && q.having == None
  }

  /** The filter compiles, and to a search condition. */
  predicate Served(entity: EntityMeta, where: Option<WhereClause>) {
    SqlCompiler.CompileFilter(where, entity, 0).Ok? && Readable(where)
  }

  /** The clause, without the Not flags that its text loses, and the soft-delete test are true. */
  ghost predicate Selected(src: Source, where: Option<WhereClause>, row: Row) {
    FilterTruth(src.db, src.entity, Kept(where), row) == True
  }

  ghost function Selects(src: Source, where: Option<WhereClause>): Row -> bool {
    (row: Row) => Selected(src, where, row)
  }

  /** The value of the order field, in the column that stores it. */
  function Key(src: Source, o: OrderClause, row: Row): Value {
    Column(row, Columns.FieldColumn(src.entity, o.field))
  }

  function PositionBy(src: Source, o: OrderClause): Position {
    PositionIn(src, Columns.FieldColumn(src.entity, o.field), o.direction == Descending)
  }

  ghost function Ordered(src: Source, q: Query): seq<Row> {
    var rows := Filter(Selects(src, q.where), src.table);
    if q.orderBy == [] then rows else Sort(PositionBy(src, q.orderBy[0]), rows)
  }

  function Shown(src: Source, q: Query, rows: seq<Row>): seq<Row> {
    Records(ProjectionOf(q, src.entity), rows)
  }

  lemma {:induction false} PickedIs(
    src: Source, e: Option<SqlReader.SqlExpr>, args: seq<Arg>, p: Row -> bool, rows: seq<Row>)
    requires forall row :: Chosen(src.db, e, args, row) <==> p(row)
    ensures Picked(src.db, e, args, rows) == Filter(p, rows)
    decreases |rows|
  {
    if rows != [] {
      PickedIs(src, e, args, p, rows[1..]);
    }
  }

  /** The database answers exactly the queries whose filter is served, with the records of the selected
      rows in their order. */
  lemma AnswerIs(src: Source, q: Query)
    requires PlainSelect(q)
    ensures Answer(src, q)
         == if Served(src.entity, q.where) then Some(Shown(src, q, Window(Ordered(src, q), q.offset, q.limit)))
           else None
  {
    if SqlCompiler.CompileFor(q, src.entity).Ok? {
      StatementExactness.StatementReadsExactly(q, src.entity);
      if Readable(q.where) {
        RunIs(src, q);
      }
    }
  }

  lemma RunIs(src: Source, q: Query)
    requires PlainSelect(q) && SqlCompiler.CompileFor(q, src.entity).Ok? && Readable(q.where)
    ensures RunSelect(src, StatementOf(q, src.entity), SqlCompiler.CompileFor(q, src.entity).value.args)
         == Some(Shown(src, q, Window(Ordered(src, q), q.offset, q.limit)))
  {
    var s, args := StatementOf(q, src.entity), SqlCompiler.CompileFor(q, src.entity).value.args;
    forall row
      ensures Chosen(src.db, s.where, args, row) <==> Selects(src, q.where)(row)
    {
      KeptMeaning(q, src.entity, src.db, row);
    }
    PickedIs(src, s.where, args, Selects(src, q.where), src.table);
  }

  // ----- what the order field must be -----

  /** The database's comparisons of two keys agree with its order. */
  predicate Compares(src: Source, o: OrderClause, a: Row, b: Row) {
    && Key(src, o, a) != Null
    && src.db.lt(Key(src, o, a), Val(Key(src, o, b))) == (src.rank(Key(src, o, a)) < src.rank(Key(src, o, b)))
    && src.db.gt(Key(src, o, a), Val(Key(src, o, b))) == (src.rank(Key(src, o, b)) < src.rank(Key(src, o, a)))
  }

  /** A query a paginator can hold, which sets no bounds itself. */
  predicate PaginatorQuery(base: Query) {
    PlainSelect(base) && base.limit == None && base.offset == None
  }

  /** The first order field is stored under its own name. */
  predicate OwnName(entity: EntityMeta, base: Query) {
    Orders(base)[0].field != "" && Columns.FieldColumn(entity, Orders(base)[0].field) == Orders(base)[0].field
  }

  /** The selected columns include one named like the first order field. */
  predicate KeySelected(entity: EntityMeta, base: Query) {
    base.fields == [] || Orders(base)[0].field in ColumnNames(entity, base.fields)
  }

  /** The database serves the filter, and the order field is non-null, unique, and stored under its own
      name. */
  ghost predicate Orderly(src: Source, base: Query) {
    && PaginatorQuery(base) && Served(src.entity, base.where) && OwnName(src.entity, base)
    && Apart(PositionBy(src, Orders(base)[0]), src.table)
    && forall a, b :: a in src.table && b in src.table ==> Compares(src, Orders(base)[0], a, b)
  }

  /** Besides, the records hold the order field, so that their cursors hold their keys. */
  ghost predicate Pageable(src: Source, base: Query) {
    Orderly(src, base) && KeySelected(src.entity, base)
  }

  /** No base filter, or one whose conditions are all required. */
  predicate AndRooted(where: Option<WhereClause>) {
    where.Some? ==> where.value.operator == LogicalAnd
  }

  /** A condition appended to the clause restricts it. */
  predicate Narrows(where: Option<WhereClause>) {
    AndRooted(where) || EmptyClause(where)
  }

  // ----- the cursor condition -----

  lemma {:induction false} TruthsAppend(db: Interp, entity: EntityMeta, cs: seq<Condition>, c: Condition, row: Row)
    ensures Truths(db, entity, cs + [c], row) == Truths(db, entity, cs, row) + ConditionTruth(db, entity, c, row)
    decreases |cs|
  {
    if cs == [] {
      assert cs + [c] == [c] && [c][1..] == [];
    } else {
      assert (cs + [c])[1..] == cs[1..] + [c];
      TruthsAppend(db, entity, cs[1..], c, row);
    }
  }

  lemma AllOfAppend(ts: seq<Truth>, t: Truth)
    ensures AllOf(ts + [t]) == True <==> AllOf(ts) == True && t == True
    ensures AnyOf(ts + [t]) == True <==> AnyOf(ts) == True || t == True
  {
    assert forall x :: x in ts + [t] <==> x in ts || x == t;
  }

  /** A comparison with a value, as a cursor becomes one. */
  predicate CursorLike(c: Condition) {
    c.nested.None? && !c.negated && c.field != "" && c.operator in {OpGreaterThan, OpLessThan}
  }

  lemma {:induction false} KeptAppend(cs: seq<Condition>, c: Condition)
    requires CursorLike(c)
    ensures KeptAll(cs + [c]) == KeptAll(cs) + [c]
    decreases |cs|
  {
    if cs == [] {
      assert cs + [c] == [c] && [c][1..] == [];
    } else {
      assert (cs + [c])[1..] == cs[1..] + [c];
      KeptAppend(cs[1..], c);
    }
  }

  lemma AppendedTruth(db: Interp, entity: EntityMeta, w: WhereClause, c: Condition, row: Row)
    requires c.nested.None? && !c.negated
    ensures var t := LeafTruth(db, entity, c, row);
      ClauseTruth(db, entity, Some(WhereClause(w.conditions + [c], w.operator)), row) == Some(True) <==>
        if w.operator == LogicalAnd then AllOf(Truths(db, entity, w.conditions, row)) == True && t == True
        else AnyOf(Truths(db, entity, w.conditions, row)) == True || t == True
    ensures ClauseTruth(db, entity, Some(WhereClause(w.conditions + [c], w.operator)), row).Some?
  {
    TruthsAppend(db, entity, w.conditions, c, row);
    AllOfAppend(Truths(db, entity, w.conditions, row), LeafTruth(db, entity, c, row));
  }

  /** How the appended condition combines with the base filter, by the clause's own operator. */
  lemma AppendedSelects(src: Source, where: Option<WhereClause>, c: Condition, row: Row)
    requires CursorLike(c)
    ensures var t := LeafTruth(src.db, src.entity, c, row);
      Selected(src, AppendCondition(where, c), row) <==>
        if AndRooted(where) then Selected(src, where, row) && t == True
        else Selected(src, None, row) && (t == True || ClauseTruth(src.db, src.entity, Kept(where), row) == Some(True))
  {
    var cs := if where.Some? then where.value.conditions else [];
    KeptAppend(cs, c);
    AppendedTruth(src.db, src.entity, WhereClause(KeptAll(cs), AppendCondition(where, c).value.operator), c, row);
    assert Kept(AppendCondition(where, c)).value.conditions == KeptAll(cs) + [c];
  }

  lemma {:induction false} EmptySaysNothing(db: Interp, entity: EntityMeta, where: Option<WhereClause>, row: Row)
    requires Readable(where)
    ensures ClauseTruth(db, entity, where, row) == None <==> EmptyClause(where)
    decreases where
  {
    if where.Some? {
      AbsentSayNothing(db, entity, where.value.conditions, row);
    }
  }

  lemma {:induction false} AbsentSayNothing(db: Interp, entity: EntityMeta, cs: seq<Condition>, row: Row)
    requires AllReadable(cs)
    ensures Truths(db, entity, cs, row) == [] <==> AllAbsent(cs)
    decreases cs
  {
    if cs != [] {
      AbsentSayNothing(db, entity, cs[1..], row);
      if cs[0].nested.Some? {
        EmptySaysNothing(db, entity, cs[0].nested, row);
      }
    }
  }

  lemma NarrowedSelects(src: Source, where: Option<WhereClause>, c: Condition, row: Row)
    requires CursorLike(c) && Readable(where) && Narrows(where)
    ensures Selected(src, AppendCondition(where, c), row)
       <==> Selected(src, where, row) && LeafTruth(src.db, src.entity, c, row) == True
  {
    AppendedSelects(src, where, c, row);
    KeptIs(where);
    EmptySaysNothing(src.db, src.entity, Kept(where), row);
  }

  lemma {:induction false} ConditionsServed(cs: seq<Condition>, entity: EntityMeta, n: nat, c: Condition)
    requires CursorLike(c) && SqlCompiler.CompileConditions(cs, entity, n).Ok? && AllReadable(cs)
    ensures SqlCompiler.CompileConditions(cs + [c], entity, n).Ok? && AllReadable(cs + [c])
    decreases |cs|
  {
    if cs == [] {
      assert cs + [c] == [c] && [c][1..] == [];
    } else {
      assert (cs + [c])[1..] == cs[1..] + [c];
      ConditionsServed(cs[1..], entity, n + |SqlCompiler.CompileCondition(cs[0], entity, n).value.args|, c);
    }
  }

  /** What the database serves it serves with a cursor's condition. */
  lemma AppendServed(entity: EntityMeta, where: Option<WhereClause>, c: Condition)
    requires CursorLike(c) && Served(entity, where)
    ensures Served(entity, AppendCondition(where, c))
  {
    var cs := if where.Some? then where.value.conditions else [];
    ConditionsServed(cs, entity, 0, c);
    assert AppendCondition(where, c).value.conditions == cs + [c];
  }

  /** The condition that follows a record. */
  function FollowingCondition(at: Row, orders: seq<OrderClause>): Condition {
    CursorCondition(BuildCursor(at, orders).cursor, orders, false)
  }

  /** The record of a row of the ordered result. */
  function RecordOf(src: Source, base: Query, row: Row): Row {
    Record(ProjectionOf(base, src.entity), row)
  }

  /** The cursor of a record holds the row's key. */
  lemma RecordHoldsKey(src: Source, base: Query, at: Row)
    requires PlainSelect(base) && OwnName(src.entity, base) && KeySelected(src.entity, base)
    ensures Column(RecordOf(src, base, at), Orders(base)[0].field) == Key(src, Orders(base)[0], at)
  {
    ScannedHolds(ColumnNames(src.entity, base.fields), at, Orders(base)[0].field);
  }

  lemma CursorSelects(src: Source, base: Query, row: Row, at: Row)
    requires Pageable(src, base) && row in src.table && at in src.table
    ensures var f := PositionBy(src, Orders(base)[0]);
      var c := FollowingCondition(RecordOf(src, base, at), Orders(base));
      CursorLike(c) && (LeafTruth(src.db, src.entity, c, row) == True <==> f(at) < f(row))
  {
    assert Compares(src, Orders(base)[0], row, at) && Compares(src, Orders(base)[0], at, row);
    RecordHoldsKey(src, base, at);
  }

  // ----- the ordered result -----

  ghost function Rows(src: Source, base: Query): seq<Row> {
    Ordered(src, Paged(base))
  }

  /** The whole ordered result, as records. */
  ghost function Full(src: Source, base: Query): (full: seq<Row>)
    ensures |full| == |Rows(src, base)|
  {
    Shown(src, base, Rows(src, base))
  }

  lemma RowsFromTable(src: Source, base: Query, i: nat)
    requires i < |Rows(src, base)|
    ensures Rows(src, base)[i] in src.table
  {
    var rows := Filter(Selects(src, base.where), src.table);
    var full := Rows(src, base);
    SortIsPermutation(PositionBy(src, Orders(base)[0]), rows);
    assert full[i] in multiset(full);
    assert full[i] in multiset(rows);
    var j :| 0 <= j < |rows| && rows[j] == full[i];
    FilterMembers(Selects(src, base.where), src.table, j);
  }

  lemma FullAt(src: Source, base: Query, i: nat)
    requires i < |Full(src, base)|
    ensures Full(src, base)[i] == RecordOf(src, base, Rows(src, base)[i])
  {
    RecordsAt(ProjectionOf(base, src.entity), Rows(src, base), i);
  }

  /** The query with the cursor condition of record `i` appended. */
  ghost function NarrowedAt(src: Source, base: Query, i: nat): Query
    requires i < |Full(src, base)|
  {
    Paged(base).(where := AppendCondition(base.where, FollowingCondition(Full(src, base)[i], Orders(base))))
  }

  /** The query narrowed by the cursor of record `i` answers with what comes after it. */
  lemma AfterCursor(src: Source, base: Query, i: nat)
    requires Pageable(src, base) && Narrows(base.where) && i < |Full(src, base)|
    ensures Ordered(src, NarrowedAt(src, base, i)) == Rows(src, base)[i + 1..]
  {
    var rows, f := Rows(src, base), PositionBy(src, Orders(base)[0]);
    var at := rows[i];
    var c := FollowingCondition(RecordOf(src, base, at), Orders(base));
    RowsFromTable(src, base, i);
    FullAt(src, base, i);
    var p, both := Selects(src, base.where), Selects(src, AppendCondition(base.where, c));
    var above := (row: Row) => f(at) < f(row);
    forall j | 0 <= j < |src.table|
      ensures both(src.table[j]) == (p(src.table[j]) && above(src.table[j]))
    {
      CursorSelects(src, base, src.table[j], at);
      NarrowedSelects(src, base.where, c, src.table[j]);
    }
    FilterBoth(p, above, both, src.table);
    ApartFilter(f, p, src.table);
    FilterSort(f, above, Filter(p, src.table));
    SortIncreasing(f, Filter(p, src.table));
    RestIsAbove(f, rows, i, above);
  }

  /** Selecting columns commutes with taking a window. */
  lemma RecordsWindow(p: Projection, rows: seq<Row>, from: nat, limit: nat)
    requires from <= |rows|
    ensures Records(p, Window(rows[from..], None, Some(limit))) == Window(Records(p, rows)[from..], None, Some(limit))
  {
    var n := Min(limit, |rows| - from);
    assert rows[from..][0..] == rows[from..] && Records(p, rows)[from..][0..] == Records(p, rows)[from..];
    assert rows[from..][..n] == rows[from..from + n];
    assert Records(p, rows)[from..][..n] == Records(p, rows)[from..from + n];
    RecordsSlice(p, rows, from, from + n);
  }

  lemma RecordsSlice(p: Projection, rows: seq<Row>, from: nat, to: nat)
    requires from <= to <= |rows|
    ensures Records(p, rows[from..to]) == Records(p, rows)[from..to]
  {
    forall i | 0 <= i < to - from
      ensures Records(p, rows[from..to])[i] == Records(p, rows)[from..to][i]
    {
      RecordsAt(p, rows[from..to], i);
      RecordsAt(p, rows, from + i);
    }
  }

  // ----- one page -----

  function Slice(rows: seq<Row>, from: nat, limit: nat): seq<Row>
    requires from <= |rows|
  {
    rows[from..Min(from + limit, |rows|)]
  }

  /** Fetching one row too many and cutting it off. */
  lemma CutWindow(full: seq<Row>, from: nat, limit: nat)
    requires from <= |full|
    ensures var rows := Window(full[from..], None, Some(limit + 1));
      Cut(rows, limit) == Slice(full, from, limit) && (|rows| > limit <==> from + limit < |full|)
  {
    var rest := full[from..];
    assert rest[0..] == rest;
  }

  lemma OffsetWindow(full: seq<Row>, offset: nat, limit: nat)
    ensures Window(full, Some(offset), Some(limit + 1)) == Window(full[Min(offset, |full|)..], None, Some(limit + 1))
  {
    var rest := full[Min(offset, |full|)..];
    assert rest[0..] == rest;
  }

  /** A validated forward request. */
  function Forward(limit: int, cursor: CursorText): PageRequest {
    PageRequest(ByCursor, 1, limit, cursor, NoCursor, NoCursor)
  }

  function NumberedPage(limit: int, page: int): PageRequest {
    PageRequest(ByOffset, page, limit, NoCursor, NoCursor, NoCursor)
  }

  /** A page that starts at row `from` of the ordered result: `limit` rows, and a cursor to the
      last of them exactly when more follow. */
  predicate IsPageFrom(full: seq<Row>, orders: seq<OrderClause>, limit: nat, from: nat, r: PageResponse) {
    && from <= |full|
    && r.data == Slice(full, from, limit)
    && r.info.hasNext == (from + limit < |full|) && r.info.hasPrevious == (from > 0)
    && r.info.nextCursor == CursorAt(full, orders, from + limit)
    && r.info.prevCursor == (if 0 < from < |full| then BuildCursor(full[from], orders) else NoCursor)
    && r.info.limit == limit && r.info.total == None && r.info.page == None
  }

  /** The cursor handed out before row `next`, if there is such a row. */
  function CursorAt(full: seq<Row>, orders: seq<OrderClause>, next: nat): CursorText {
    if 0 < next < |full| then CursorOf(full[next - 1], if orders == [] then "id" else orders[0].field) else NoCursor
  }

  /** The record's id, if it has one, and its entry for the order field. */
  function CursorOf(record: Row, field: string): CursorText {
    Encoded(Cursor(if "id" in record then Some(record["id"]) else None, field,
                   if field in record then record[field] else Null))
  }

  /** Bounds change neither the order nor the columns. */
  lemma Bounded(src: Source, q: Query, offset: Option<int>, limit: Option<int>)
    ensures Ordered(src, q.(offset := offset, limit := limit)) == Ordered(src, q)
    ensures ProjectionOf(q.(offset := offset, limit := limit), src.entity) == ProjectionOf(q, src.entity)
  {
  }

  /** A query with bounds returns a window of what it orders. */
  lemma BoundedAnswer(src: Source, q: Query, offset: Option<int>, limit: Option<int>)
    requires PlainSelect(q) && Served(src.entity, q.where)
    ensures Answer(src, q.(offset := offset, limit := limit))
         == Some(Shown(src, q, Window(Ordered(src, q), offset, limit)))
  {
    Bounded(src, q, offset, limit);
    AnswerIs(src, q.(offset := offset, limit := limit));
  }

  lemma ForwardQuery(src: Source, base: Query, limit: nat, i: nat)
    requires i < |Full(src, base)|
    ensures CursorQuery(base, Forward(limit, BuildCursor(Full(src, base)[i], Orders(base))))
         == Ok(NarrowedAt(src, base, i).(limit := Some(limit + 1)))
  {
  }

  /** What the cursor of record `i` leads to, whatever the filter and the order. */
  lemma NarrowedAnswer(src: Source, base: Query, limit: nat, i: nat)
    requires PaginatorQuery(base) && Served(src.entity, base.where) && Orders(base)[0].field != ""
    requires i < |Full(src, base)|
    ensures Answer(src, NarrowedAt(src, base, i).(limit := Some(limit + 1)))
         == Some(Shown(src, base, Window(Ordered(src, NarrowedAt(src, base, i)), None, Some(limit + 1))))
  {
    AppendServed(src.entity, base.where, FollowingCondition(Full(src, base)[i], Orders(base)));
    BoundedAnswer(src, NarrowedAt(src, base, i), None, Some(limit + 1));
  }

  lemma FirstQuery(base: Query, limit: nat)
    ensures CursorQuery(base, Forward(limit, NoCursor)) == Ok(Paged(base).(limit := Some(limit + 1)))
  {
  }

  lemma FirstAnswer(src: Source, base: Query, limit: nat)
    requires PaginatorQuery(base) && Served(src.entity, base.where)
    ensures Answer(src, Paged(base).(limit := Some(limit + 1))) == Some(Window(Full(src, base), None, Some(limit + 1)))
  {
    BoundedAnswer(src, Paged(base), None, Some(limit + 1));
    WholeTail(Rows(src, base));
    WholeTail(Full(src, base));
    RecordsWindow(ProjectionOf(base, src.entity), Rows(src, base), 0, limit + 1);
  }

  /** The page made of the rows from `from` on, as far as they were fetched. */
  lemma PageIs(base: Query, limit: nat, cursor: CursorText, run: Executor, q: Query, full: seq<Row>, from: nat)
    requires CursorQuery(base, Forward(limit, cursor)) == Ok(q) && q.orderBy == Orders(base)
    requires 1 <= limit && from <= |full| && run(q) == Some(Window(full[from..], None, Some(limit + 1)))
    requires if cursor == NoCursor then from == 0 else 0 < from
    ensures var r := CursorPage(base, Forward(limit, cursor), run);
      r.Ok? && IsPageFrom(full, Orders(base), limit, from, r.value)
  {
    CutWindow(full, from, limit);
  }

  lemma NextAnswer(src: Source, base: Query, limit: nat, i: nat)
    requires Pageable(src, base) && Narrows(base.where) && i < |Full(src, base)|
    ensures Answer(src, NarrowedAt(src, base, i).(limit := Some(limit + 1)))
         == Some(Window(Full(src, base)[i + 1..], None, Some(limit + 1)))
  {
    AfterCursor(src, base, i);
    NarrowedAnswer(src, base, limit, i);
    RecordsWindow(ProjectionOf(base, src.entity), Rows(src, base), i + 1, limit + 1);
  }

  lemma FirstPageFrom(src: Source, base: Query, limit: nat)
    requires PaginatorQuery(base) && Served(src.entity, base.where) && 1 <= limit
    ensures var r := Turns(src, base, limit)(NoCursor);
      r.Ok? && IsPageFrom(Full(src, base), Orders(base), limit, 0, r.value)
  {
    FirstQuery(base, limit);
    FirstAnswer(src, base, limit);
    WholeTail(Full(src, base));
    PageIs(base, limit, NoCursor, Executes(src), Paged(base).(limit := Some(limit + 1)), Full(src, base), 0);
  }

  lemma NextPageFrom(src: Source, base: Query, limit: nat, i: nat)
    requires Pageable(src, base) && Narrows(base.where) && 1 <= limit && i < |Full(src, base)|
    ensures var r := Turns(src, base, limit)(BuildCursor(Full(src, base)[i], Orders(base)));
      r.Ok? && IsPageFrom(Full(src, base), Orders(base), limit, i + 1, r.value)
  {
    ForwardQuery(src, base, limit, i);
    NextAnswer(src, base, limit, i);
    PageIs(base, limit, BuildCursor(Full(src, base)[i], Orders(base)), Executes(src),
           NarrowedAt(src, base, i).(limit := Some(limit + 1)), Full(src, base), i + 1);
  }

  /** Every page is the next one. */
  lemma CursorPageFrom(src: Source, base: Query, limit: nat, from: nat)
    requires Pageable(src, base) && Narrows(base.where) && 1 <= limit
    requires from == 0 || from < |Full(src, base)|
    ensures ServesAt(Turns(src, base, limit), Full(src, base), Orders(base), limit, from)
  {
    if from == 0 {
      FirstPageFrom(src, base, limit);
    } else {
      NextPageFrom(src, base, limit, from - 1);
    }
    ServedFrom(Turns(src, base, limit), Full(src, base), Orders(base), limit, from);
  }

  lemma ServedFrom(turn: Turn, full: seq<Row>, orders: seq<OrderClause>, limit: nat, from: nat)
    requires from == 0 ==> turn(NoCursor).Ok? && IsPageFrom(full, orders, limit, 0, turn(NoCursor).value)
    requires 0 < from < |full| ==>
      var r := turn(BuildCursor(full[from - 1], orders)); r.Ok? && IsPageFrom(full, orders, limit, from, r.value)
    requires from == 0 || from < |full|
    ensures ServesAt(turn, full, orders, limit, from)
  {
  }

  lemma OffsetIs(
    base: Query, entity: string, limit: nat, page: int, run: Executor, count: Counter, full: seq<Row>, from: nat)
    requires from <= |full|
    requires run(OffsetQuery(base, NumberedPage(limit, page))) == Some(Window(full[from..], None, Some(limit + 1)))
    ensures var r := OffsetPage(base, entity, false, NumberedPage(limit, page), run, count);
      r.Ok? && r.value.data == Slice(full, from, limit)
      && r.value.info == PageInfo(None, Some(page), limit, from + limit < |full|, page > 1, NoCursor, NoCursor)
  {
    CutWindow(full, from, limit);
  }

  lemma OffsetAnswer(src: Source, base: Query, offset: nat, limit: nat)
    requires PaginatorQuery(base) && Served(src.entity, base.where)
    ensures var full := Shown(src, base, Ordered(src, base));
      Answer(src, base.(offset := Some(offset), limit := Some(limit + 1)))
      == Some(Window(full[Min(offset, |full|)..], None, Some(limit + 1)))
  {
    var rows := Ordered(src, base);
    BoundedAnswer(src, base, Some(offset), Some(limit + 1));
    OffsetWindow(rows, offset, limit);
    RecordsWindow(ProjectionOf(base, src.entity), rows, Min(offset, |rows|), limit + 1);
  }

  lemma OffsetQueryIs(base: Query, limit: nat, page: nat, offset: nat)
    requires 1 <= page && offset == (page - 1) * limit
    ensures OffsetQuery(base, NumberedPage(limit, page)) == base.(offset := Some(offset), limit := Some(limit + 1))
  {
  }

  lemma OffsetPageAt(src: Source, base: Query, entity: string, limit: nat, offset: nat, page: nat, count: Counter)
    requires PaginatorQuery(base) && Served(src.entity, base.where) && 1 <= page && offset == (page - 1) * limit
    ensures var r := OffsetPage(base, entity, false, NumberedPage(limit, page), Executes(src), count);
      var full := Shown(src, base, Ordered(src, base)); var from := Min(offset, |full|);
      r.Ok? && r.value.data == Slice(full, from, limit)
      && r.value.info == PageInfo(None, Some(page), limit, from + limit < |full|, page > 1, NoCursor, NoCursor)
  {
    var full := Shown(src, base, Ordered(src, base));
    OffsetAnswer(src, base, offset, limit);
    OffsetQueryIs(base, limit, page, offset);
    OffsetIs(base, entity, limit, page, Executes(src), count, full, Min(offset, |full|));
  }

  // ----- the total -----

  /** The number a COUNT returns. */
  function CountAnswer(src: Source, q: Query): Option<int> {
    var p :- SqlCompiler.CompileFor(q, src.entity).ToOption();
    var s :- ReadStatement(p.sql);
    if s.Select? && s.projection.CountAll? && s.groupBy == [] && s.having.None?
    then Some(|Picked(src.db, s.where, p.args, src.table)|) else None
  }

  function Counts(src: Source): Counter {
    (q: Query) => CountAnswer(src, q)
  }

  lemma CountIs(src: Source, q: Query)
    requires q.kind == QueryCount && Served(src.entity, q.where)
    ensures CountAnswer(src, q) == Some(|Filter(Selects(src, q.where), src.table)|)
  {
    StatementExactness.StatementReadsExactly(q, src.entity);
    var s, args := StatementOf(q, src.entity), SqlCompiler.CompileFor(q, src.entity).value.args;
    forall row
      ensures Chosen(src.db, s.where, args, row) <==> Selects(src, q.where)(row)
    {
      KeptMeaning(q, src.entity, src.db, row);
    }
    PickedIs(src, s.where, args, Selects(src, q.where), src.table);
  }

  lemma OrderedLength(src: Source, q: Query)
    ensures |Ordered(src, q)| == |Filter(Selects(src, q.where), src.table)|
  {
    if q.orderBy != [] {
      SortLength(PositionBy(src, q.orderBy[0]), Filter(Selects(src, q.where), src.table));
    }
  }

  /** The total that offset paging reports is the number of rows its pages hold together. */
  lemma TotalIsCount(src: Source, base: Query, entity: string, limit: nat, page: nat)
    requires PaginatorQuery(base) && Served(src.entity, base.where) && 1 <= page
    ensures var r := OffsetPage(base, entity, true, NumberedPage(limit, page), Executes(src), Counts(src));
      var bare := OffsetPage(base, entity, false, NumberedPage(limit, page), Executes(src), Counts(src));
      r.Ok? && bare.Ok? && r.value == bare.value.(info := bare.value.info.(total := Some(|Ordered(src, base)|)))
  {
    OffsetPageAt(src, base, entity, limit, (page - 1) * limit, page, Counts(src));
    CountIs(src, CountQuery(base, entity));
    OrderedLength(src, base);
    WithTotal(base, entity, NumberedPage(limit, page), Executes(src), Counts(src));
  }

  lemma WithTotal(base: Query, entity: string, r: PageRequest, run: Executor, count: Counter)
    requires OffsetPage(base, entity, false, r, run, count).Ok? && count(CountQuery(base, entity)).Some?
    ensures var bare := OffsetPage(base, entity, false, r, run, count).value;
      OffsetPage(base, entity, true, r, run, count)
      == Ok(bare.(info := bare.info.(total := count(CountQuery(base, entity)))))
  {
  }

  // ----- requests -----

  /** Between 1 and 100 rows to a page, 20 if less than one is asked for. */
  function Clamped(limit: int): int {
    if limit < 1 then 20 else if limit > 100 then 100 else limit
  }

  /** Any cursor makes a request one by cursor; `cursor` goes before `after`. */
  lemma CursorRequest(
    base: Query, entity: string, total: bool, kind: PageKind, page: int, limit: int, cursor: CursorText,
    after: CursorText, before: CursorText, run: Executor, count: Counter)
    requires kind == ByCursor || cursor != NoCursor || after != NoCursor || before != NoCursor
    ensures Page(base, entity, total, PageRequest(kind, page, limit, cursor, after, before), run, count)
         == CursorPage(base, Forward(Clamped(limit), if cursor != NoCursor then cursor else after).(before := before),
             run)
  {
  }

  /** Without one it is served by offset, from the first page on. */
  lemma OffsetRequest(
    base: Query, entity: string, total: bool, page: int, limit: int, run: Executor, count: Counter)
    ensures Page(base, entity, total, PageRequest(ByOffset, page, limit, NoCursor, NoCursor, NoCursor), run, count)
         == OffsetPage(base, entity, total, NumberedPage(Clamped(limit), if page < 1 then 1 else page), run, count)
  {
  }

  lemma SameRows(
    r: PageResponse, full: seq<Row>, orders: seq<OrderClause>, limit: nat, from: nat,
    b: Result<PageResponse, PageError>)
    requires IsPageFrom(full, orders, limit, from, r) && b.Ok?
    requires b.value.data == Slice(full, Min(from, |full|), limit)
    requires b.value.info.hasNext == (Min(from, |full|) + limit < |full|)
    ensures SamePage(r, b)
  {
  }

  lemma OffsetPageFrom(
    src: Source, base: Query, entity: string, limit: nat, from: nat, page: nat, r: PageResponse, count: Counter)
    requires PaginatorQuery(base) && Served(src.entity, base.where) && 1 <= page && from == (page - 1) * limit
    requires IsPageFrom(Full(src, base), Orders(base), limit, from, r)
    ensures SamePage(r, OffsetPage(Paged(base), entity, false, NumberedPage(limit, page), Executes(src), count))
  {
    OffsetPageAt(src, Paged(base), entity, limit, from, page, count);
    SameRows(r, Full(src, base), Orders(base), limit, from,
             OffsetPage(Paged(base), entity, false, NumberedPage(limit, page), Executes(src), count));
  }

  predicate SamePage(a: PageResponse, b: Result<PageResponse, PageError>) {
    b.Ok? && a.data == b.value.data && a.info.hasNext == b.value.info.hasNext
  }

  // ----- the walk -----

  /** What a cursor leads to. */
  type Turn = CursorText -> Result<PageResponse, PageError>

  ghost function Turns(src: Source, base: Query, limit: int): Turn {
    (cursor: CursorText) => CursorPage(base, Forward(limit, cursor), Executes(src))
  }

  /** Responses obtained by following NextCursor from `start` until there is none. */
  ghost predicate IsWalk(turn: Turn, start: CursorText, pages: seq<PageResponse>)
    decreases |pages|
  {
    && pages != [] && turn(start) == Ok(pages[0])
    && var next := pages[0].info.nextCursor;
       if next == NoCursor then |pages| == 1 else IsWalk(turn, next, pages[1..])
  }

  /** Every cursor handed out leads to the page it promises. */
  ghost predicate Serves(turn: Turn, full: seq<Row>, orders: seq<OrderClause>, limit: nat) {
    forall from: nat | from == 0 || from < |full| :: ServesAt(turn, full, orders, limit, from)
  }

  ghost predicate ServesAt(turn: Turn, full: seq<Row>, orders: seq<OrderClause>, limit: nat, from: nat) {
    var r := turn(CursorAt(full, orders, from));
    r.Ok? && IsPageFrom(full, orders, limit, from, r.value)
  }

  lemma TurnsServe(src: Source, base: Query, limit: nat)
    requires Pageable(src, base) && Narrows(base.where) && 1 <= limit
    ensures Serves(Turns(src, base, limit), Full(src, base), Orders(base), limit)
  {
    var full := Full(src, base);
    forall from: nat | from == 0 || from < |full|
      ensures ServesAt(Turns(src, base, limit), full, Orders(base), limit, from)
    {
      CursorPageFrom(src, base, limit, from);
    }
  }

  function PageCount(n: nat, limit: nat): nat
    requires limit > 0
  {
    if n <= limit then 1 else 1 + PageCount(n - limit, limit)
  }

  /** The page count is max(1, ceil(n / limit)). */
  lemma {:induction false} PageCountIsCeiling(n: nat, limit: nat)
    requires limit > 0
    ensures n <= PageCount(n, limit) * limit
    ensures n > 0 ==> (PageCount(n, limit) - 1) * limit < n
    decreases n
  {
    if n > limit {
      PageCountIsCeiling(n - limit, limit);
    }
  }

  function Concat(pages: seq<PageResponse>): seq<Row> {
    if pages == [] then [] else pages[0].data + Concat(pages[1..])
  }

  /** A walk from row `from` on: its pages tile the rest of the result. */
  lemma {:induction false} WalkTiles(turn: Turn, full: seq<Row>, orders: seq<OrderClause>, limit: nat, from: nat,
                                     pages: seq<PageResponse>)
    requires limit > 0 && Serves(turn, full, orders, limit) && (from == 0 || from < |full|)
    requires IsWalk(turn, CursorAt(full, orders, from), pages)
    ensures |pages| == PageCount(|full| - from, limit)
    ensures Concat(pages) == full[from..]
    decreases |pages|
  {
    assert ServesAt(turn, full, orders, limit, from);
    if from + limit < |full| {
      WalkTiles(turn, full, orders, limit, from + limit, pages[1..]);
      assert full[from..] == full[from..from + limit] + full[from + limit..];
    } else {
      assert pages[1..] == [] && pages[0].data + [] == pages[0].data;
    }
  }

  lemma {:induction false} WalkAt(turn: Turn, full: seq<Row>, orders: seq<OrderClause>, limit: nat, from: nat,
                                  pages: seq<PageResponse>, i: nat)
    requires limit > 0 && Serves(turn, full, orders, limit) && (from == 0 || from < |full|)
    requires IsWalk(turn, CursorAt(full, orders, from), pages) && i < |pages|
    ensures IsPageFrom(full, orders, limit, from + i * limit, pages[i])
    decreases |pages|
  {
    assert ServesAt(turn, full, orders, limit, from);
    if i > 0 {
      WalkAt(turn, full, orders, limit, from + limit, pages[1..], i - 1);
      assert from + limit + (i - 1) * limit == from + i * limit;
    }
  }

  /** The walk exists: following cursors does come to an end. */
  lemma {:induction false} WalkFrom(turn: Turn, full: seq<Row>, orders: seq<OrderClause>, limit: nat, from: nat)
    returns (pages: seq<PageResponse>)
    requires limit > 0 && Serves(turn, full, orders, limit) && (from == 0 || from < |full|)
    ensures IsWalk(turn, CursorAt(full, orders, from), pages)
    decreases |full| - from
  {
    assert ServesAt(turn, full, orders, limit, from);
    var first := turn(CursorAt(full, orders, from)).value;
    pages := [first];
    if from + limit < |full| {
      var rest := WalkFrom(turn, full, orders, limit, from + limit);
      pages := [first] + rest;
      assert pages[1..] == rest;
    }
  }

  lemma WalkExists(src: Source, base: Query, limit: nat) returns (pages: seq<PageResponse>)
    requires Pageable(src, base) && Narrows(base.where) && 1 <= limit
    ensures IsWalk(Turns(src, base, limit), NoCursor, pages)
  {
    TurnsServe(src, base, limit);
    pages := WalkFrom(Turns(src, base, limit), Full(src, base), Orders(base), limit, 0);
  }

  /** Following cursors from the first page: together the pages are the whole ordered result, each
      selected row once, in max(1, ceil(n / limit)) pages. */
  lemma WalkEnumerates(src: Source, base: Query, limit: nat, pages: seq<PageResponse>)
    requires Pageable(src, base) && Narrows(base.where) && 1 <= limit
    requires IsWalk(Turns(src, base, limit), NoCursor, pages)
    ensures |pages| == PageCount(|Full(src, base)|, limit)
    ensures Concat(pages) == Full(src, base)
    ensures multiset(Concat(pages)) == multiset(Shown(src, base, Filter(Selects(src, base.where), src.table)))
  {
    TurnsServe(src, base, limit);
    WalkWhole(Turns(src, base, limit), Full(src, base), Orders(base), limit, pages);
    FullIsPermutation(src, base);
  }

  lemma WalkWhole(turn: Turn, full: seq<Row>, orders: seq<OrderClause>, limit: nat, pages: seq<PageResponse>)
    requires limit > 0 && Serves(turn, full, orders, limit) && IsWalk(turn, NoCursor, pages)
    ensures |pages| == PageCount(|full|, limit) && Concat(pages) == full
  {
    WalkTiles(turn, full, orders, limit, 0, pages);
    WholeTail(full);
  }

  lemma WholeTail(full: seq<Row>)
    ensures full[0..] == full
  {
  }

  lemma RecordsPush(p: Projection, row: Row, rows: seq<Row>)
    ensures Records(p, [row] + rows) == [Record(p, row)] + Records(p, rows)
  {
    assert ([row] + rows)[1..] == rows;
  }

  lemma SameBags(x: Row, a: seq<Row>, b: seq<Row>, added: Row)
    requires multiset(a) == multiset{added} + multiset(b)
    ensures multiset([x] + a) == multiset{added} + multiset([x] + b)
  {
  }

  lemma {:induction false} RecordsInsert(p: Projection, f: Position, row: Row, rows: seq<Row>)
    ensures multiset(Records(p, Insert(f, row, rows))) == multiset{Record(p, row)} + multiset(Records(p, rows))
    decreases |rows|
  {
    if rows == [] || f(row) < f(rows[0]) {
      RecordsPush(p, row, rows);
    } else {
      var more := Insert(f, row, rows[1..]);
      RecordsInsert(p, f, row, rows[1..]);
      RecordsPush(p, rows[0], more);
      SameBags(Record(p, rows[0]), Records(p, more), Records(p, rows[1..]), Record(p, row));
    }
  }

  lemma {:induction false} RecordsSort(p: Projection, f: Position, rows: seq<Row>)
    ensures multiset(Records(p, Sort(f, rows))) == multiset(Records(p, rows))
    decreases |rows|
  {
    if rows != [] {
      RecordsSort(p, f, rows[1..]);
      RecordsInsert(p, f, rows[0], Sort(f, rows[1..]));
    }
  }

  lemma FullIsPermutation(src: Source, base: Query)
    ensures multiset(Full(src, base)) == multiset(Shown(src, base, Filter(Selects(src, base.where), src.table)))
  {
    RecordsSort(ProjectionOf(base, src.entity), PositionBy(src, Orders(base)[0]),
                Filter(Selects(src, base.where), src.table));
  }

  lemma PageStart(turn: Turn, full: seq<Row>, orders: seq<OrderClause>, limit: nat, pages: seq<PageResponse>, i: nat)
    returns (from: nat)
    requires limit > 0 && Serves(turn, full, orders, limit) && IsWalk(turn, NoCursor, pages) && i < |pages|
    ensures from == (i + 1 - 1) * limit && IsPageFrom(full, orders, limit, from, pages[i])
  {
    WalkAt(turn, full, orders, limit, 0, pages, i);
    from := i * limit;
  }

  /** Page by page, the cursors show the rows that offset paging shows of the same query, in the
      order that cursors follow. */
  lemma WalkIsOffsetPaging(
    src: Source, base: Query, entity: string, limit: nat, pages: seq<PageResponse>, i: nat, count: Counter)
    requires Pageable(src, base) && Narrows(base.where) && 1 <= limit
    requires IsWalk(Turns(src, base, limit), NoCursor, pages) && i < |pages|
    ensures SamePage(pages[i],
                     OffsetPage(Paged(base), entity, false, NumberedPage(limit, i + 1), Executes(src), count))
  {
    TurnsServe(src, base, limit);
    var from := PageStart(Turns(src, base, limit), Full(src, base), Orders(base), limit, pages, i);
    OffsetPageFrom(src, base, entity, limit, from, i + 1, pages[i], count);
  }
}
