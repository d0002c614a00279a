/** Soft deletion refines real deletion. Each compiled query is read back from its text and
    executed; seen through the rows not yet soft-deleted, the table evolves as a table of the
    same entity without a soft-delete column would. */
module SoftDelete {
  import opened Results
  import opened QueryAst
  import opened Truth
  import opened SqlReader
  import opened SqlCompiler
  import Columns
  import opened SqlStatements
  import opened StatementMeaning
  import opened StatementExactness

  // ----- running compiled queries -----

  /** Send a query to the database: text the compiler or the database rejects changes nothing. */
  function Step(db: Interp, st: Store, entity: EntityMeta, q: Query, rows: seq<Row>): seq<Row> {
    match CompileFor(q, entity)
    case Err(_) => rows
    case Ok(p) =>
      match ReadStatement(p.sql)
      case None => rows
      case Some(s) => Execute(db, st, s, p.args, rows)
  }

  /** The statement without its WHERE. */
  function Unfiltered(s: Statement): Statement {
    match s
    case Select(columns, table, _, group, having, order, limit, offset) =>
      Select(columns, table, None, group, having, order, limit, offset)
    case Update(table, sets, _) => Update(table, sets, None)
    case Delete(table, _) => Delete(table, None)
  }

  /** The rows a SELECT, COUNT or aggregate is computed over, with the rest of the statement. */
  function Answer(db: Interp, entity: EntityMeta, q: Query, rows: seq<Row>): Option<(seq<Row>, Statement)> {
    var p :- CompileFor(q, entity).ToOption();
    var s :- ReadStatement(p.sql);
    if s.Select? then Some((Picked(db, s.where, p.args, rows), Unfiltered(s))) else None
  }

  datatype Request = Request(q: Query, store: Store)

  function Run(db: Interp, entity: EntityMeta, rs: seq<Request>, rows: seq<Row>): seq<Row> {
    if rs == [] then rows
    else Run(db, entity, rs[1..], Step(db, rs[0].store, entity, rs[0].q, rows))
  }

  // ----- the view -----

  predicate Alive(col: string, row: Row) {
    Column(row, col) == Null
  }

  /** The rows not soft-deleted, in order. */
  function View(col: string, rows: seq<Row>): seq<Row> {
    if rows == [] then [] else (if Alive(col, rows[0]) then [rows[0]] else []) + View(col, rows[1..])
  }

  function Hard(entity: EntityMeta): EntityMeta {
    entity.(softDelete := "")
  }

  /** The query does not assign the soft-delete column itself. */
  predicate LeavesColumn(q: Query, entity: EntityMeta) {
    forall i :: 0 <= i < |q.updates| ==> Columns.FieldColumn(entity, q.updates[i].field) != entity.softDelete
  }

  predicate Allowed(r: Request, entity: EntityMeta) {
    LeavesColumn(r.q, entity) && r.store.now != Null
  }

  // ----- the two compilations -----

  lemma {:induction false} SameCondition(c: Condition, entity: EntityMeta, n: nat)
    ensures CompileCondition(c, Hard(entity), n) == CompileCondition(c, entity, n)
    decreases c
  {
    if c.nested.Some? {
      SameWhere(c.nested, entity, n);
    }
  }

  lemma {:induction false} SameConditions(cs: seq<Condition>, entity: EntityMeta, n: nat)
    ensures CompileConditions(cs, Hard(entity), n) == CompileConditions(cs, entity, n)
    decreases cs
  {
    if cs != [] {
      SameCondition(cs[0], entity, n);
      if CompileCondition(cs[0], entity, n).Ok? {
        SameConditions(cs[1..], entity, n + |CompileCondition(cs[0], entity, n).value.args|);
      }
    }
  }

  lemma {:induction false} SameWhere(where: Option<WhereClause>, entity: EntityMeta, n: nat)
    ensures CompileWhere(where, Hard(entity), n) == CompileWhere(where, entity, n)
    decreases where
  {
    if where.Some? {
      SameConditions(where.value.conditions, entity, n);
    }
  }

  lemma SameFilter(where: Option<WhereClause>, entity: EntityMeta, n: nat)
    ensures CompileFilter(where, entity, n).Ok? == CompileFilter(where, Hard(entity), n).Ok?
    ensures CompileFilter(where, entity, n).Ok?
      ==> CompileFilter(where, entity, n).value.args == CompileFilter(where, Hard(entity), n).value.args
  {
    SameWhere(where, entity, n);
  }

  lemma SameParts(q: Query, entity: EntityMeta)
    ensures SetParts(q.updates, Hard(entity)) == SetParts(q.updates, entity)
    ensures Assignments(q.updates, Hard(entity)) == Assignments(q.updates, entity)
    ensures ColumnNames(Hard(entity), q.fields) == ColumnNames(entity, q.fields)
    ensures ColumnNames(Hard(entity), q.groupBy) == ColumnNames(entity, q.groupBy)
    ensures Orderings(Hard(entity), q.orderBy) == Orderings(entity, q.orderBy)
  {
  }

  /** Both compile or neither does, with the same arguments. */
  lemma SameArgs(q: Query, entity: EntityMeta)
    ensures CompileFor(q, entity).Ok? == CompileFor(q, Hard(entity)).Ok?
    ensures CompileFor(q, entity).Ok? ==> CompileFor(q, entity).value.args == CompileFor(q, Hard(entity)).value.args
  {
    var n := if q.kind == QueryUpdate then |q.updates| else 0;
    SameFilter(q.where, entity, n);
    if CompileFilter(q.where, entity, n).Ok? {
      SameWhere(q.having, entity, |CompileFilter(q.where, entity, n).value.args|);
    }
  }

  ghost predicate Guarded(col: string, soft: Option<SqlExpr>, hard: Option<SqlExpr>) {
    soft == Some(match hard case None => EIsNull(col, false) case Some(e) => EAnd(e, EIsNull(col, false)))
  }

  lemma FilterGuarded(where: Option<WhereClause>, entity: EntityMeta, n: nat)
    requires entity.softDelete != ""
    ensures Guarded(entity.softDelete, FilterExpr(where, entity, n), FilterExpr(where, Hard(entity), n))
  {
    SameWhere(where, entity, n);
  }

  /** The soft statement chooses the alive rows among those the hard one chooses. */
  lemma GuardedChosen(db: Interp, col: string, soft: Option<SqlExpr>, hard: Option<SqlExpr>, args: seq<Arg>, row: Row)
    requires Guarded(col, soft, hard)
    ensures Chosen(db, soft, args, row) <==> Alive(col, row) && Chosen(db, hard, args, row)
  {
    assert Eval(db, EIsNull(col, false), row, args) == FromBool(Alive(col, row));
    if hard.Some? {
      assert Eval(db, soft.value, row, args) == And(Eval(db, hard.value, row, args), FromBool(Alive(col, row)));
    }
  }

  lemma ViewFirst(col: string, rows: seq<Row>)
    requires rows != []
    ensures Alive(col, rows[0]) ==> View(col, rows)[0] == rows[0] && View(col, rows)[1..] == View(col, rows[1..])
    ensures !Alive(col, rows[0]) ==> View(col, rows) == View(col, rows[1..])
  {
  }

  // ----- the view of each statement -----

  lemma {:induction false} PickedView(
    db: Interp, col: string, soft: Option<SqlExpr>, hard: Option<SqlExpr>, args: seq<Arg>, rows: seq<Row>)
    requires Guarded(col, soft, hard)
    ensures Picked(db, soft, args, rows) == Picked(db, hard, args, View(col, rows))
    decreases |rows|
  {
    if rows != [] {
      GuardedChosen(db, col, soft, hard, args, rows[0]);
      PickedView(db, col, soft, hard, args, rows[1..]);
      ViewFirst(col, rows);
    }
  }

  lemma {:induction false} SetsLeaveColumn(st: Store, sets: seq<Assignment>, row: Row, args: seq<Arg>, col: string)
    requires forall a :: a in sets ==> a.col != col
    ensures Column(ApplySets(st, sets, row, args), col) == Column(row, col)
    decreases |sets|
  {
    if sets != [] {
      SetsLeaveColumn(st, sets[..|sets| - 1], row, args, col);
    }
  }

  lemma {:induction false} UpdateView(
    db: Interp, st: Store, col: string, sets: seq<Assignment>, soft: Option<SqlExpr>, hard: Option<SqlExpr>,
    args: seq<Arg>, rows: seq<Row>)
    requires Guarded(col, soft, hard) && forall a :: a in sets ==> a.col != col
    ensures View(col, Rewritten(db, st, sets, soft, args, rows)) == Rewritten(db, st, sets, hard, args, View(col, rows))
    decreases |rows|
  {
    if rows != [] {
      GuardedChosen(db, col, soft, hard, args, rows[0]);
      SetsLeaveColumn(st, sets, rows[0], args, col);
      UpdateView(db, st, col, sets, soft, hard, args, rows[1..]);
      assert Rewritten(db, st, sets, soft, args, rows)[1..] == Rewritten(db, st, sets, soft, args, rows[1..]);
      var kept := View(col, rows[1..]);
      assert Rewritten(db, st, sets, hard, args, [rows[0]] + kept)
          == Rewritten(db, st, sets, hard, args, [rows[0]]) + Rewritten(db, st, sets, hard, args, kept);
    }
  }

  lemma StampedDies(st: Store, col: string, row: Row, args: seq<Arg>)
    requires st.now != Null
    ensures !Alive(col, ApplySets(st, [AssignNow(col)], row, args))
  {
    assert [AssignNow(col)][..0] == [];
  }

  lemma {:induction false} DeleteView(
    db: Interp, st: Store, col: string, soft: Option<SqlExpr>, hard: Option<SqlExpr>, args: seq<Arg>, rows: seq<Row>)
    requires Guarded(col, soft, hard) && st.now != Null
    ensures View(col, Rewritten(db, st, [AssignNow(col)], soft, args, rows))
         == Unpicked(db, hard, args, View(col, rows))
    decreases |rows|
  {
    if rows != [] {
      GuardedChosen(db, col, soft, hard, args, rows[0]);
      DeleteView(db, st, col, soft, hard, args, rows[1..]);
      ViewFirst(col, rows);
      var after := Rewritten(db, st, [AssignNow(col)], soft, args, rows);
      ViewFirst(col, after);
      assert after[1..] == Rewritten(db, st, [AssignNow(col)], soft, args, rows[1..]);
      StampedDies(st, col, rows[0], args);
    }
  }

  // ----- main results -----

  lemma StatementCommutes(db: Interp, st: Store, entity: EntityMeta, q: Query, args: seq<Arg>, rows: seq<Row>)
    requires entity.softDelete != "" && Allowed(Request(q, st), entity)
    ensures View(entity.softDelete, Execute(db, st, StatementOf(q, entity), args, rows))
         == Execute(db, st, StatementOf(q, Hard(entity)), args, View(entity.softDelete, rows))
  {
    SameParts(q, entity);
    if q.kind == QueryUpdate {
      var n := |q.updates|;
      FilterGuarded(q.where, entity, n);
      UpdateView(db, st, entity.softDelete, Assignments(q.updates, entity),
                 FilterExpr(q.where, entity, n), FilterExpr(q.where, Hard(entity), n), args, rows);
    } else if q.kind == QueryDelete {
      FilterGuarded(q.where, entity, 0);
      DeleteView(db, st, entity.softDelete, FilterExpr(q.where, entity, 0), FilterExpr(q.where, Hard(entity), 0),
                 args, rows);
    }
  }

  /** One query, executed from its text, commutes with the view. */
  lemma StepCommutes(db: Interp, st: Store, entity: EntityMeta, q: Query, rows: seq<Row>)
    requires entity.softDelete != "" && Allowed(Request(q, st), entity)
    ensures View(entity.softDelete, Step(db, st, entity, q, rows))
         == Step(db, st, Hard(entity), q, View(entity.softDelete, rows))
  {
    SameArgs(q, entity);
    if CompileFor(q, entity).Ok? {
      StatementReadsExactly(q, entity);
      StatementReadsExactly(q, Hard(entity));
      StatementCommutes(db, st, entity, q, CompileFor(q, entity).value.args, rows);
    }
  }

  lemma SameSelect(q: Query, entity: EntityMeta)
    requires q.kind !in {QueryUpdate, QueryDelete}
    ensures StatementOf(q, entity).Select? && StatementOf(q, Hard(entity)).Select?
    ensures Unfiltered(StatementOf(q, entity)) == Unfiltered(StatementOf(q, Hard(entity)))
  {
    SameParts(q, entity);
    SameFilter(q.where, entity, 0);
    SameWhere(q.having, entity,
              if CompileFilter(q.where, entity, 0).Ok? then |CompileFilter(q.where, entity, 0).value.args| else 0);
  }

  lemma SelectCommutes(db: Interp, entity: EntityMeta, q: Query, args: seq<Arg>, rows: seq<Row>)
    requires entity.softDelete != "" && q.kind !in {QueryUpdate, QueryDelete}
    ensures var s, h := StatementOf(q, entity), StatementOf(q, Hard(entity));
      s.Select? && h.Select?
      && Picked(db, s.where, args, rows) == Picked(db, h.where, args, View(entity.softDelete, rows))
  {
    FilterGuarded(q.where, entity, 0);
    PickedView(db, entity.softDelete, FilterExpr(q.where, entity, 0), FilterExpr(q.where, Hard(entity), 0), args, rows);
  }

  /** A reading query is computed over the same rows, by the same statement, in the view. */
  lemma AnswerCommutes(db: Interp, entity: EntityMeta, q: Query, rows: seq<Row>)
    requires entity.softDelete != ""
    ensures Answer(db, entity, q, rows) == Answer(db, Hard(entity), q, View(entity.softDelete, rows))
  {
    SameArgs(q, entity);
    if CompileFor(q, entity).Ok? {
      StatementReadsExactly(q, entity);
      StatementReadsExactly(q, Hard(entity));
      if q.kind !in {QueryUpdate, QueryDelete} {
        SameSelect(q, entity);
        SelectCommutes(db, entity, q, CompileFor(q, entity).value.args, rows);
      }
    }
  }

  /** Over any run the view of the soft-deleting table is the really deleting table. */
  lemma {:induction false} RunCommutes(db: Interp, entity: EntityMeta, rs: seq<Request>, rows: seq<Row>)
    requires entity.softDelete != "" && forall r :: r in rs ==> Allowed(r, entity)
    ensures View(entity.softDelete, Run(db, entity, rs, rows))
         == Run(db, Hard(entity), rs, View(entity.softDelete, rows))
    decreases |rs|
  {
    if rs != [] {
      assert rs[0] in rs;
      StepCommutes(db, rs[0].store, entity, rs[0].q, rows);
      RunCommutes(db, entity, rs[1..], Step(db, rs[0].store, entity, rs[0].q, rows));
    }
  }

  /** No run removes a row of a soft-deleting table or touches one already soft-deleted,
      whatever the queries assign. */
  lemma {:induction false} DeadRowsKept(db: Interp, entity: EntityMeta, rs: seq<Request>, rows: seq<Row>, i: nat)
    requires entity.softDelete != "" && i < |rows| && !Alive(entity.softDelete, rows[i])
    ensures |Run(db, entity, rs, rows)| == |rows| && Run(db, entity, rs, rows)[i] == rows[i]
    decreases |rs|
  {
    if rs != [] {
      var q := rs[0].q;
      if CompileFor(q, entity).Ok? {
        StatementReadsExactly(q, entity);
        var n := if q.kind == QueryUpdate then |q.updates| else 0;
        FilterGuarded(q.where, entity, n);
        GuardedChosen(db, entity.softDelete, FilterExpr(q.where, entity, n), FilterExpr(q.where, Hard(entity), n),
                      CompileFor(q, entity).value.args, rows[i]);
      }
      DeadRowsKept(db, entity, rs[1..], Step(db, rs[0].store, entity, q, rows), i);
    }
  }
}
