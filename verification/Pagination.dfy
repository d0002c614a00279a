/** The paginator (internal/pagination): how a page request becomes a query, and the response built
    from its rows. Executing a query is a function handed in by the caller; it may fail. */
module Pagination {
  import opened Results
  import opened QueryAst
  import opened Truth

  const DEFAULT_LIMIT: int := 20
  const MAX_LIMIT: int := 100
  const MIN_LIMIT: int := 1

  datatype PageKind = ByOffset | ByCursor

  datatype Cursor = Cursor(id: Option<Value>, field: string, value: Value)

  /** A cursor string: empty, not decodable, or the encoding of a cursor (assumed lossless). */
  datatype CursorText = NoCursor | Garbled | Encoded(cursor: Cursor)

  datatype PageRequest = PageRequest(
    kind: PageKind, page: int, limit: int, cursor: CursorText, after: CursorText, before: CursorText)

  datatype PageInfo = PageInfo(
    total: Option<int>, page: Option<int>, limit: int, hasNext: bool, hasPrevious: bool,
    nextCursor: CursorText, prevCursor: CursorText)

  datatype PageResponse = PageResponse(data: seq<Row>, info: PageInfo)

  datatype PageError = QueryFailed | CountFailed | InvalidCursor | InvalidBeforeCursor

  /** Runs a query, or fails. */
  type Executor = Query -> Option<seq<Row>>

  /** Runs a COUNT query, or fails. */
  type Counter = Query -> Option<int>

  // ----- requests -----

  function Validated(r: PageRequest): (v: PageRequest)
    ensures MIN_LIMIT <= v.limit <= MAX_LIMIT && 1 <= v.page
    ensures MIN_LIMIT <= r.limit <= MAX_LIMIT && 1 <= r.page ==> v == r
  {
    var limit := if r.limit < MIN_LIMIT then DEFAULT_LIMIT else r.limit;
    r.(limit := if limit > MAX_LIMIT then MAX_LIMIT else limit, page := if r.page < 1 then 1 else r.page)
  }

  function Offset(r: PageRequest): int {
    (r.page - 1) * r.limit
  }

  function ForwardCursor(r: PageRequest): CursorText {
    if r.cursor != NoCursor then r.cursor else r.after
  }

  predicate UsesCursor(r: PageRequest) {
    r.kind == ByCursor || r.cursor != NoCursor || r.after != NoCursor || r.before != NoCursor
  }

  // ----- queries -----

  function OrderField(orders: seq<OrderClause>): string {
    if orders == [] then "id" else orders[0].field
  }

  /** The condition that keeps the rows after (or before) the cursor's row. */
  function CursorCondition(c: Cursor, orders: seq<OrderClause>, before: bool): Condition {
    var field := if c.field != "" then c.field else OrderField(orders);
    var descending := orders != [] && orders[0].direction == Descending;
    Condition(field, if before == descending then OpGreaterThan else OpLessThan, c.value, false, None)
  }

  /** The condition joins the existing clause under the clause's own operator. */
  function AppendCondition(where: Option<WhereClause>, c: Condition): Option<WhereClause> {
    match where
    case None => Some(WhereClause([c], LogicalAnd))
    case Some(w) => Some(WhereClause(w.conditions + [c], w.operator))
  }

  function BuildCursor(record: Row, orders: seq<OrderClause>): CursorText {
    var field := OrderField(orders);
    Encoded(Cursor(if "id" in record then Some(record["id"]) else None, field, Column(record, field)))
  }

  function Narrowed(q: Query, cursor: CursorText, before: bool, error: PageError): Result<Query, PageError> {
    match cursor
    case NoCursor => Ok(q)
    case Garbled => Err(error)
    case Encoded(c) => Ok(q.(where := AppendCondition(q.where, CursorCondition(c, q.orderBy, before))))
  }

  /** The order a cursor follows: by id when the query asks for none. */
  function Orders(base: Query): (orders: seq<OrderClause>)
    ensures orders != []
  {
    if base.orderBy == [] then [OrderClause("id", Ascending)] else base.orderBy
  }

  function Paged(base: Query): Query {
    base.(orderBy := Orders(base))
  }

  function CursorQuery(base: Query, r: PageRequest): Result<Query, PageError> {
    var q := Paged(base);
    var forward :- Narrowed(q, ForwardCursor(r), false, InvalidCursor);
    var both :- Narrowed(forward, r.before, true, InvalidBeforeCursor);
    Ok(both.(limit := Some(r.limit + 1)))
  }

  function OffsetQuery(base: Query, r: PageRequest): Query {
    base.(offset := Some(Offset(r)), limit := Some(r.limit + 1))
  }

  function CountQuery(base: Query, entity: string): Query {
    Blank(QueryCount).(entity := entity, where := base.where)
  }

  // ----- responses -----

  /** One row more than the page was fetched to see whether another page follows. */
  function Cut(rows: seq<Row>, limit: int): seq<Row> {
    if |rows| > limit >= 0 then rows[..limit] else rows
  }

  function OffsetPage(base: Query, entity: string, includeTotal: bool, r: PageRequest, run: Executor, count: Counter)
    : Result<PageResponse, PageError>
  {
    match run(OffsetQuery(base, r))
    case None => Err(QueryFailed)
    case Some(rows) =>
      if includeTotal && count(CountQuery(base, entity)).None? then Err(CountFailed) else
      Ok(PageResponse(Cut(rows, r.limit), PageInfo(
        if includeTotal then count(CountQuery(base, entity)) else None,
        Some(r.page), r.limit, |rows| > r.limit, r.page > 1, NoCursor, NoCursor)))
  }

  function CursorPage(base: Query, r: PageRequest, run: Executor): Result<PageResponse, PageError> {
    var q :- CursorQuery(base, r);
    match run(q)
    case None => Err(QueryFailed)
    case Some(rows) =>
      var data, hasNext, forward := Cut(rows, r.limit), |rows| > r.limit, ForwardCursor(r);
      Ok(PageResponse(data, PageInfo(
        None, None, r.limit, hasNext, forward != NoCursor,
        if hasNext && data != [] then BuildCursor(data[|data| - 1], q.orderBy) else NoCursor,
        if data != [] && forward != NoCursor then BuildCursor(data[0], q.orderBy) else NoCursor)))
  }

  function Page(base: Query, entity: string, includeTotal: bool, request: PageRequest, run: Executor, count: Counter)
    : Result<PageResponse, PageError>
  {
    var r := Validated(request);
    if UsesCursor(r) then CursorPage(base, r, run) else OffsetPage(base, entity, includeTotal, r, run, count)
  }

  // ----- the paginator object -----

  class Paginator {
    const entity: string
    var baseQuery: Query
    var includeTotal: bool

    constructor (entity: string)
      ensures this.entity == entity && baseQuery == Blank(QuerySelect).(entity := entity) && includeTotal
    {
      this.entity := entity;
      baseQuery := Blank(QuerySelect).(entity := entity);
      includeTotal := true;
    }

    method WithWhere(where: Option<WhereClause>)
      modifies this`baseQuery
      ensures baseQuery == old(baseQuery).(where := where)
    {
      baseQuery := baseQuery.(where := where);
    }

    method WithOrderBy(orderBy: seq<OrderClause>)
      modifies this`baseQuery
      ensures baseQuery == old(baseQuery).(orderBy := orderBy)
    {
      baseQuery := baseQuery.(orderBy := orderBy);
    }

    method WithInclude(includes: seq<string>)
      modifies this`baseQuery
      ensures baseQuery == old(baseQuery).(includes := includes)
    {
      baseQuery := baseQuery.(includes := includes);
    }

    method WithFields(fields: seq<string>)
      modifies this`baseQuery
      ensures baseQuery == old(baseQuery).(fields := fields)
    {
      baseQuery := baseQuery.(fields := fields);
    }

    method WithTotal(include_: bool)
      modifies this`includeTotal
      ensures includeTotal == include_
    {
      includeTotal := include_;
    }

    /** Changes nothing: the base query serves every request unmutated. */
    method Execute(request: PageRequest, run: Executor, count: Counter) returns (r: Result<PageResponse, PageError>)
      ensures r == Page(baseQuery, entity, includeTotal, request, run, count)
    {
      var req := request;
      if req.limit < MIN_LIMIT {
        req := req.(limit := DEFAULT_LIMIT);
      }
      if req.limit > MAX_LIMIT {
        req := req.(limit := MAX_LIMIT);
      }
      if req.page < 1 {
        req := req.(page := 1);
      }
      assert req == Validated(request);
      if UsesCursor(req) {
        r := ExecuteCursor(req, run);
      } else {
        r := ExecuteOffset(req, run, count);
      }
    }

    method ExecuteOffset(req: PageRequest, run: Executor, count: Counter) returns (r: Result<PageResponse, PageError>)
      ensures r == OffsetPage(baseQuery, entity, includeTotal, req, run, count)
    {
      var q := baseQuery;
      q := q.(offset := Some(Offset(req)));
      q := q.(limit := Some(req.limit + 1));
      assert q == OffsetQuery(baseQuery, req);
      var results := run(q);
      if results.None? {
        return Err(QueryFailed);
      }
      var hasNext := |results.value| > req.limit;
      var data := Cut(results.value, req.limit);
      var total: Option<int> := None;
      if includeTotal {
        total := count(CountQuery(baseQuery, entity));
        if total.None? {
          return Err(CountFailed);
        }
      }
      r := Ok(PageResponse(
        data, PageInfo(total, Some(req.page), req.limit, hasNext, req.page > 1, NoCursor, NoCursor)));
    }

    method ExecuteCursor(req: PageRequest, run: Executor) returns (r: Result<PageResponse, PageError>)
      ensures r == CursorPage(baseQuery, req, run)
    {
      var q := baseQuery;
      if |q.orderBy| == 0 {
        q := q.(orderBy := [OrderClause("id", Ascending)]);
      }
      var cursor := ForwardCursor(req);
      if cursor != NoCursor {
        if cursor == Garbled {
          return Err(InvalidCursor);
        }
        q := q.(where := AppendCondition(q.where, CursorCondition(cursor.cursor, q.orderBy, false)));
      }
      if req.before != NoCursor {
        if req.before == Garbled {
          return Err(InvalidBeforeCursor);
        }
        q := q.(where := AppendCondition(q.where, CursorCondition(req.before.cursor, q.orderBy, true)));
      }
      q := q.(limit := Some(req.limit + 1));
      assert Ok(q) == CursorQuery(baseQuery, req);
      var results := run(q);
      if results.None? {
        return Err(QueryFailed);
      }
      var hasNext := |results.value| > req.limit;
      var data := Cut(results.value, req.limit);
      var nextCursor, prevCursor := NoCursor, NoCursor;
      if hasNext && |data| > 0 {
        nextCursor := BuildCursor(data[|data| - 1], q.orderBy);
      }
      if |data| > 0 && cursor != NoCursor {
        prevCursor := BuildCursor(data[0], q.orderBy);
      }
      r := Ok(PageResponse(data, PageInfo(None, None, req.limit, hasNext, cursor != NoCursor, nextCursor, prevCursor)));
    }
  }
}
