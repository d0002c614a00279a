/** An independent reader of the emitted statements, and what executing one does to a table. */
module SqlStatements {
  import opened Results
  import opened Truth
  import opened SqlReader
  import QueryAst

  datatype Projection =
    | AllColumns
    | Columns(names: seq<string>)
    | CountAll
    | Aggregate(f: Func, col: string)

  datatype AssignKind = AssignValue | AddTo | SubtractFrom | AppendTo | RemoveFrom

  datatype Assignment =
    | Assign(col: string, kind: AssignKind, ph: nat)
    | AssignNow(col: string)

  datatype Ordering = Ordering(col: string, descending: bool)

  datatype Statement =
    | Select(
        projection: Projection, table: string, where: Option<SqlExpr>, groupBy: seq<string>,
        having: Option<SqlExpr>, orderBy: seq<Ordering>, limit: Option<int>, offset: Option<int>)
    | Update(table: string, sets: seq<Assignment>, where: Option<SqlExpr>)
    | Delete(table: string, where: Option<SqlExpr>)

  // ----- reading -----

  function ReadNames(ts: Sql): (r: Option<(seq<string>, Sql)>)
    ensures r.Some? ==> |r.value.1| < |ts|
  {
    if ts == [] || !ts[0].Ident? then None
    else if |ts| >= 2 && ts[1] == Comma then
      var more :- ReadNames(ts[2..]);
      Some(([ts[0].name] + more.0, more.1))
    else Some(([ts[0].name], ts[1..]))
  }

  function ReadProjection(ts: Sql): Option<(Projection, Sql)> {
    if ts != [] && ts[0] == Star then Some((AllColumns, ts[1..]))
    else if |ts| >= 4 && ts[0].FuncName? then
      if ts[1] != LParen || ts[3] != RParen then None
      else if ts[0].f == Count && ts[2] == Star then Some((CountAll, ts[4..]))
      else if ts[2].Ident? then Some((Aggregate(ts[0].f, ts[2].name), ts[4..]))
      else None
    else
      var names :- ReadNames(ts);
      Some((Columns(names.0), names.1))
  }

  /** An optional clause: the keyword, then a search condition. */
  function ReadClause(keyword: Tok, ts: Sql): Option<(Option<SqlExpr>, Sql)> {
    if ts != [] && ts[0] == keyword then
      var e :- ReadCondition(ts[1..]);
      Some((Some(e.0), e.1))
    else Some((None, ts))
  }

  function ReadGroupBy(ts: Sql): Option<(seq<string>, Sql)> {
    if |ts| >= 2 && ts[0] == KwGroup && ts[1] == KwBy then ReadNames(ts[2..]) else Some(([], ts))
  }

  function ReadOrderings(ts: Sql): (r: Option<(seq<Ordering>, Sql)>)
    ensures r.Some? ==> |r.value.1| < |ts|
  {
    if |ts| < 2 || !ts[0].Ident? || ts[1] !in {KwAsc, KwDesc} then None else
    var first := Ordering(ts[0].name, ts[1] == KwDesc);
    if |ts| >= 3 && ts[2] == Comma then
      var more :- ReadOrderings(ts[3..]);
      Some(([first] + more.0, more.1))
    else Some(([first], ts[2..]))
  }

  function ReadOrderBy(ts: Sql): Option<(seq<Ordering>, Sql)> {
    if |ts| >= 2 && ts[0] == KwOrder && ts[1] == KwBy then ReadOrderings(ts[2..]) else Some(([], ts))
  }

  function ReadNumber(keyword: Tok, ts: Sql): Option<(Option<int>, Sql)> {
    if ts != [] && ts[0] == keyword then
      if |ts| >= 2 && ts[1].Number? then Some((Some(ts[1].n), ts[2..])) else None
    else Some((None, ts))
  }

  function ReadAssignment(ts: Sql): (r: Option<(Assignment, Sql)>)
    ensures r.Some? ==> |r.value.1| < |ts|
  {
    if |ts| < 3 || !ts[0].Ident? || ts[1] != Cmp(Equal) then None else
    var col := ts[0].name;
    match ts[2]
    case Ph(i) => Some((Assign(col, AssignValue, i), ts[3..]))
    case Ident(same) =>
      if |ts| >= 5 && same == col && ts[3] in {Plus, Minus} && ts[4].Ph?
      then Some((Assign(col, if ts[3] == Plus then AddTo else SubtractFrom, ts[4].index), ts[5..])) else None
    case FuncName(f) =>
      if f == Now && |ts| >= 5 && ts[3] == LParen && ts[4] == RParen then Some((AssignNow(col), ts[5..]))
      else if f in {ArrayAppend, ArrayRemove} && |ts| >= 8 && ts[3] == LParen && ts[4] == Ident(col)
              && ts[5] == Comma && ts[6].Ph? && ts[7] == RParen
      then Some((Assign(col, if f == ArrayAppend then AppendTo else RemoveFrom, ts[6].index), ts[8..]))
      else None
    case _ => None
  }

  function ReadAssignments(ts: Sql): (r: Option<(seq<Assignment>, Sql)>)
    ensures r.Some? ==> |r.value.1| < |ts|
  {
    var first :- ReadAssignment(ts);
    if first.1 != [] && first.1[0] == Comma then
      var more :- ReadAssignments(first.1[1..]);
      Some(([first.0] + more.0, more.1))
    else Some(([first.0], first.1))
  }

  function ReadSelectTail(p: Projection, table: string, ts: Sql): Option<Statement> {
    var where :- ReadClause(KwWhere, ts);
    var group :- ReadGroupBy(where.1);
    var having :- ReadClause(KwHaving, group.1);
    var order :- ReadOrderBy(having.1);
    var limit :- ReadNumber(KwLimit, order.1);
    var offset :- ReadNumber(KwOffset, limit.1);
    if offset.1 != [] then None
    else Some(Select(p, table, where.0, group.0, having.0, order.0, limit.0, offset.0))
  }

  function ReadStatement(ts: Sql): Option<Statement> {
    if ts == [] then None else
    match ts[0]
    case KwSelect =>
      var p :- ReadProjection(ts[1..]);
      if |p.1| < 2 || p.1[0] != KwFrom || !p.1[1].Ident? then None
      else ReadSelectTail(p.0, p.1[1].name, p.1[2..])
    case KwUpdate =>
      if |ts| < 3 || !ts[1].Ident? || ts[2] != KwSet then None else
      var sets :- ReadAssignments(ts[3..]);
      var where :- ReadClause(KwWhere, sets.1);
      if where.1 != [] then None else Some(Update(ts[1].name, sets.0, where.0))
    case KwDelete =>
      if |ts| < 3 || ts[1] != KwFrom || !ts[2].Ident? then None else
      var where :- ReadClause(KwWhere, ts[3..]);
      if where.1 != [] then None else Some(Delete(ts[2].name, where.0))
    case _ => None
  }

  // ----- executing -----

  /** How the database computes an assigned value, and the time NOW() yields. */
  datatype Store = Store(assign: (AssignKind, QueryAst.Value, Arg) -> QueryAst.Value, now: QueryAst.Value)

  predicate Chosen(db: Interp, where: Option<SqlExpr>, args: seq<Arg>, row: Row) {
    where.Some? ==> Eval(db, where.value, row, args) == True
  }

  /** The rows a WHERE keeps, in table order. */
  function Picked(db: Interp, where: Option<SqlExpr>, args: seq<Arg>, rows: seq<Row>): seq<Row> {
    if rows == [] then []
    else (if Chosen(db, where, args, rows[0]) then [rows[0]] else []) + Picked(db, where, args, rows[1..])
  }

  function Unpicked(db: Interp, where: Option<SqlExpr>, args: seq<Arg>, rows: seq<Row>): seq<Row> {
    if rows == [] then []
    else (if Chosen(db, where, args, rows[0]) then [] else [rows[0]]) + Unpicked(db, where, args, rows[1..])
  }

  function Assigned(st: Store, a: Assignment, row: Row, args: seq<Arg>): QueryAst.Value {
    match a
    case Assign(col, kind, ph) => st.assign(kind, Column(row, col), Bound(args, ph))
    case AssignNow(_) => st.now
  }

  /** Every right-hand side is computed on the row as it was. */
  function ApplySets(st: Store, sets: seq<Assignment>, row: Row, args: seq<Arg>): Row {
    if sets == [] then row
    else ApplySets(st, sets[..|sets| - 1], row, args)
         [sets[|sets| - 1].col := Assigned(st, sets[|sets| - 1], row, args)]
  }

  function Rewritten(
    db: Interp, st: Store, sets: seq<Assignment>, where: Option<SqlExpr>, args: seq<Arg>, rows: seq<Row>)
    : (r: seq<Row>)
    ensures |r| == |rows|
  {
    seq(|rows|, i requires 0 <= i < |rows| =>
      if Chosen(db, where, args, rows[i]) then ApplySets(st, sets, rows[i], args) else rows[i])
  }

  /** The table after a statement. */
  function Execute(db: Interp, st: Store, s: Statement, args: seq<Arg>, rows: seq<Row>): seq<Row> {
    match s
    case Select(_, _, _, _, _, _, _, _) => rows
    case Update(_, sets, where) => Rewritten(db, st, sets, where, args, rows)
    case Delete(_, where) => Unpicked(db, where, args, rows)
  }
}
