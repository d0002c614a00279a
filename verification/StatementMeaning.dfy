/** Whole statements: the text of every query reads back as the statement it should be, exactly
    when the query has no empty group under a NOT, no empty HAVING and, for UPDATE, something to set. */
module StatementMeaning {
  import opened Results
  import opened QueryAst
  import opened Truth
  import opened SqlReader
  import opened SqlCompiler
  import opened SqlStatements
  import opened QueryMeaning
  import opened MeaningPreserved
  import opened Unreadable
  import Columns

  predicate ReadableHaving(having: Option<WhereClause>) {
    having.Some? ==> Readable(having) && !EmptyClause(having)
  }

  predicate ReadableQuery(q: Query) {
    Readable(q.where)
    && (q.kind == QuerySelect ==> ReadableHaving(q.having))
    && (q.kind == QueryUpdate ==> q.updates != [])
  }

  // ----- the statement a query should become -----

  /** The expression the clause's text reads as, if it has any text. */
  function ClauseExpr(where: Option<WhereClause>, entity: EntityMeta, n: nat): Option<SqlExpr> {
    var p :- CompileWhere(where, entity, n).ToOption();
    if p.sql == [] then None else
    var e :- ReadFactor(p.sql);
    Some(e.0)
  }

  function FilterExpr(where: Option<WhereClause>, entity: EntityMeta, n: nat): Option<SqlExpr> {
    var alive := EIsNull(entity.softDelete, false);
    match ClauseExpr(where, entity, n)
    case None => if entity.softDelete == "" then None else Some(alive)
    case Some(e) => Some(if entity.softDelete == "" then e else EAnd(e, alive))
  }

  function ColumnNames(entity: EntityMeta, names: seq<string>): (cols: seq<string>)
    ensures |cols| == |names|
  {
    seq(|names|, i requires 0 <= i < |names| => Columns.FieldColumn(entity, names[i]))
  }

  function Orderings(entity: EntityMeta, orders: seq<OrderClause>): (os: seq<Ordering>)
    ensures |os| == |orders|
  {
    seq(|orders|, i requires 0 <= i < |orders| =>
      Ordering(Columns.FieldColumn(entity, orders[i].field), orders[i].direction == Descending))
  }

  function AssignmentOf(u: UpdateSet, entity: EntityMeta, i: nat): Assignment {
    Assign(Columns.FieldColumn(entity, u.field),
           match u.op
           case SetValue => AssignValue
           case Increment => AddTo
           case Decrement => SubtractFrom
           case Append => AppendTo
           case Remove => RemoveFrom,
           i)
  }

  function Assignments(us: seq<UpdateSet>, entity: EntityMeta): (sets: seq<Assignment>)
    ensures |sets| == |us|
  {
    seq(|us|, i requires 0 <= i < |us| => AssignmentOf(us[i], entity, i + 1))
  }

  function ProjectionOf(q: Query, entity: EntityMeta): Projection {
    match q.kind
    case QuerySelect => if q.fields == [] then AllColumns else Columns(ColumnNames(entity, q.fields))
    case QueryCount => CountAll
    case QueryAvg => Aggregate(Avg, Columns.FieldColumn(entity, q.aggField))
    case QueryMin => Aggregate(Min, Columns.FieldColumn(entity, q.aggField))
    case QueryMax => Aggregate(Max, Columns.FieldColumn(entity, q.aggField))
    case _ => Aggregate(Sum, Columns.FieldColumn(entity, q.aggField))
  }

  /** Only SELECT keeps its grouping, ordering and bounds; DELETE stamps a soft-deleting table. */
  function StatementOf(q: Query, entity: EntityMeta): Statement {
    match q.kind
    case QuerySelect =>
      var filter := FilterExpr(q.where, entity, 0);
      var n := match CompileFilter(q.where, entity, 0) case Ok(w) => |w.args| case Err(_) => 0;
      Select(ProjectionOf(q, entity), entity.tableName, filter, ColumnNames(entity, q.groupBy),
             ClauseExpr(q.having, entity, n), Orderings(entity, q.orderBy), q.limit, q.offset)
    case QueryUpdate =>
      Update(entity.tableName, Assignments(q.updates, entity), FilterExpr(q.where, entity, |q.updates|))
    case QueryDelete =>
      if entity.softDelete == "" then Delete(entity.tableName, FilterExpr(q.where, entity, 0))
      else Update(entity.tableName, [AssignNow(entity.softDelete)], FilterExpr(q.where, entity, 0))
    case _ =>
      Select(ProjectionOf(q, entity), entity.tableName, FilterExpr(q.where, entity, 0), [], None, [], None, None)
  }

  // ----- reading the parts -----

  /** Tokens that may follow a WHERE or HAVING, or the end of the statement. */
  predicate EndsClause(rest: Sql) {
    rest == [] || rest[0] in {KwGroup, KwHaving, KwOrder, KwLimit, KwOffset}
  }

  lemma ClauseReads(where: Option<WhereClause>, entity: EntityMeta, n: nat)
    requires CompileWhere(where, entity, n).Ok? && Readable(where)
    ensures CompileWhere(where, entity, n).value.sql == [] <==> ClauseExpr(where, entity, n).None?
    ensures EmptyClause(where) <==> ClauseExpr(where, entity, n).None?
    ensures !EmptyClause(where)
      ==> IsFactor(CompileWhere(where, entity, n).value.sql, ClauseExpr(where, entity, n).value)
  {
    var e := WhereReads(where, entity, n);
    if !EmptyClause(where) {
      WholeFactor(CompileWhere(where, entity, n).value.sql, e);
    }
  }

  lemma ReadKeyword(keyword: Tok, s: Sql, e: SqlExpr, rest: Sql)
    requires ReadCondition(s + rest) == Some((e, rest))
    ensures ReadClause(keyword, [keyword] + s + rest) == Some((Some(e), rest))
  {
    assert ([keyword] + s + rest)[1..] == s + rest;
  }

  lemma FilterReads(where: Option<WhereClause>, entity: EntityMeta, n: nat, rest: Sql)
    requires CompileFilter(where, entity, n).Ok? && Readable(where) && EndsClause(rest)
    ensures ReadClause(KwWhere, CompileFilter(where, entity, n).value.sql + rest)
         == Some((FilterExpr(where, entity, n), rest))
  {
    ClauseReads(where, entity, n);
    var s := CompileWhere(where, entity, n).value.sql;
    var soft := [Ident(entity.softDelete), KwIs, KwNull];
    var full := WithSoftDelete(s, entity.softDelete);
    var f := FilterExpr(where, entity, n);
    if f.None? {
      assert full == [] && [] + rest == rest;
    } else {
      SoftDeleteFactor(entity.softDelete);
      if entity.softDelete == "" {
        assert full == s;
        FactorIsCondition(s, f.value, rest);
      } else if s == [] {
        assert full == soft;
        FactorIsCondition(soft, f.value, rest);
      } else {
        assert [s] + [soft] == [s, soft];
        ConjoinedFactors(s, f.value.left, soft, f.value.right, rest);
      }
      ReadKeyword(KwWhere, full, f.value, rest);
    }
  }

  lemma {:induction false} NamesRead(entity: EntityMeta, names: seq<string>, rest: Sql)
    requires names != [] && (rest == [] || rest[0] != Comma)
    ensures ReadNames(Join(ColumnParts(entity, names), [Comma]) + rest) == Some((ColumnNames(entity, names), rest))
    decreases |names|
  {
    var parts, cols := ColumnParts(entity, names), ColumnNames(entity, names);
    if |names| == 1 {
      LastName(cols[0], rest);
      assert parts == [[Ident(cols[0])]] && cols == [cols[0]];
    } else {
      assert parts[1..] == ColumnParts(entity, names[1..]) && cols[1..] == ColumnNames(entity, names[1..]);
      NamesRead(entity, names[1..], rest);
      CommaSplits(parts, rest);
      NextName(cols, Join(parts[1..], [Comma]) + rest, rest);
    }
  }

  lemma LastName(col: string, rest: Sql)
    requires rest == [] || rest[0] != Comma
    ensures ReadNames([Ident(col)] + rest) == Some(([col], rest))
  {
    assert ([Ident(col)] + rest)[1..] == rest;
  }

  lemma NextName(cols: seq<string>, more: Sql, rest: Sql)
    requires cols != [] && ReadNames(more) == Some((cols[1..], rest))
    ensures ReadNames([Ident(cols[0])] + ([Comma] + more)) == Some((cols, rest))
  {
    assert ([Ident(cols[0])] + ([Comma] + more))[2..] == more;
    assert [cols[0]] + cols[1..] == cols;
  }

  lemma GroupReads(q: Query, entity: EntityMeta, rest: Sql)
    requires rest == [] || rest[0] in {KwHaving, KwOrder, KwLimit, KwOffset}
    ensures ReadGroupBy(GroupPart(q, entity) + rest) == Some((ColumnNames(entity, q.groupBy), rest))
  {
    NonEmptyJoin(ColumnParts(entity, q.groupBy), [Comma]);
    if q.groupBy == [] {
      assert [] + rest == rest;
    } else {
      NamesRead(entity, q.groupBy, rest);
      GroupStep(Join(ColumnParts(entity, q.groupBy), [Comma]), ColumnNames(entity, q.groupBy), rest);
    }
  }

  lemma GroupStep(list: Sql, names: seq<string>, rest: Sql)
    requires ReadNames(list + rest) == Some((names, rest))
    ensures ReadGroupBy([KwGroup, KwBy] + list + rest) == Some((names, rest))
  {
    assert ([KwGroup, KwBy] + list + rest)[2..] == list + rest;
  }

  lemma HavingReads(q: Query, entity: EntityMeta, n: nat, rest: Sql)
    requires CompileHaving(q.having, entity, n).Ok? && ReadableHaving(q.having)
    requires rest == [] || rest[0] in {KwOrder, KwLimit, KwOffset}
    ensures ReadClause(KwHaving, CompileHaving(q.having, entity, n).value.sql + rest)
         == Some((ClauseExpr(q.having, entity, n), rest))
  {
    if q.having.None? {
      assert [] + rest == rest;
    } else {
      ClauseReads(q.having, entity, n);
      var s, e := CompileWhere(q.having, entity, n).value.sql, ClauseExpr(q.having, entity, n).value;
      FactorIsCondition(s, e, rest);
      ReadKeyword(KwHaving, s, e, rest);
    }
  }

  function OrderingText(o: Ordering): Sql {
    [Ident(o.col), if o.descending then KwDesc else KwAsc]
  }

  lemma {:induction false} OrderingsRead(parts: seq<Sql>, os: seq<Ordering>, rest: Sql)
    requires |parts| == |os| > 0 && (rest == [] || rest[0] != Comma)
    requires forall j :: 0 <= j < |parts| ==> parts[j] == OrderingText(os[j])
    ensures ReadOrderings(Join(parts, [Comma]) + rest) == Some((os, rest))
    decreases |parts|
  {
    if |parts| == 1 {
      OrderingReads(os[0], rest);
      assert [os[0]] == os;
    } else {
      var more := Join(parts[1..], [Comma]) + rest;
      OrderingsRead(parts[1..], os[1..], rest);
      CommaSplits(parts, rest);
      NextOrdering(os, more, rest);
    }
  }

  lemma NextOrdering(os: seq<Ordering>, more: Sql, rest: Sql)
    requires os != [] && ReadOrderings(more) == Some((os[1..], rest))
    ensures ReadOrderings(OrderingText(os[0]) + ([Comma] + more)) == Some((os, rest))
  {
    OrderingReads(os[0], [Comma] + more);
    assert ([Comma] + more)[1..] == more;
    assert [os[0]] + os[1..] == os;
  }

  lemma OrdersRead(entity: EntityMeta, orders: seq<OrderClause>, rest: Sql)
    requires orders != [] && (rest == [] || rest[0] != Comma)
    ensures ReadOrderings(Join(OrderParts(entity, orders), [Comma]) + rest) == Some((Orderings(entity, orders), rest))
  {
    OrderingsRead(OrderParts(entity, orders), Orderings(entity, orders), rest);
  }

  lemma OrderingReads(o: Ordering, rest: Sql)
    ensures var ts := OrderingText(o) + rest;
      ReadOrderings(ts) ==
        if rest != [] && rest[0] == Comma then
          match ReadOrderings(rest[1..])
          case None => None
          case Some(more) => Some(([o] + more.0, more.1))
        else Some(([o], rest))
  {
    var ts := OrderingText(o) + rest;
    assert ts[2..] == rest;
    assert rest != [] ==> ts[3..] == rest[1..];
  }

  function LimitPart(q: Query): Sql {
    if q.limit.Some? then [KwLimit, Number(q.limit.value)] else []
  }

  function OffsetPart(q: Query): Sql {
    if q.offset.Some? then [KwOffset, Number(q.offset.value)] else []
  }

  lemma OrderReads(q: Query, entity: EntityMeta, rest: Sql)
    requires rest == [] || rest[0] in {KwLimit, KwOffset}
    ensures ReadOrderBy(Prefixed([KwOrder, KwBy], Join(OrderParts(entity, q.orderBy), [Comma])) + rest)
         == Some((Orderings(entity, q.orderBy), rest))
  {
    NonEmptyJoin(OrderParts(entity, q.orderBy), [Comma]);
    if q.orderBy == [] {
      assert [] + rest == rest;
    } else {
      OrdersRead(entity, q.orderBy, rest);
      ReadOrderList(Join(OrderParts(entity, q.orderBy), [Comma]), rest);
    }
  }

  lemma ReadOrderList(list: Sql, rest: Sql)
    ensures ReadOrderBy([KwOrder, KwBy] + list + rest) == ReadOrderings(list + rest)
  {
    assert ([KwOrder, KwBy] + list + rest)[2..] == list + rest;
  }

  lemma NumberReads(keyword: Tok, n: Option<int>, rest: Sql)
    requires rest == [] || rest[0] != keyword
    ensures ReadNumber(keyword, (if n.Some? then [keyword, Number(n.value)] else []) + rest) == Some((n, rest))
  {
    if n.Some? {
      assert ([keyword, Number(n.value)] + rest)[2..] == rest;
    } else {
      assert [] + rest == rest;
    }
  }

  /** ORDER BY, LIMIT and OFFSET, each read in turn. */
  lemma SelectTailReads(q: Query, entity: EntityMeta)
    ensures var order := Prefixed([KwOrder, KwBy], Join(OrderParts(entity, q.orderBy), [Comma]));
      SelectTail(q, entity) == order + (LimitPart(q) + OffsetPart(q))
    ensures ReadOrderBy(SelectTail(q, entity)) == Some((Orderings(entity, q.orderBy), LimitPart(q) + OffsetPart(q)))
    ensures ReadNumber(KwLimit, LimitPart(q) + OffsetPart(q)) == Some((q.limit, OffsetPart(q)))
    ensures ReadNumber(KwOffset, OffsetPart(q)) == Some((q.offset, []))
    ensures SelectTail(q, entity) == [] || SelectTail(q, entity)[0] in {KwOrder, KwLimit, KwOffset}
  {
    var order := Prefixed([KwOrder, KwBy], Join(OrderParts(entity, q.orderBy), [Comma]));
    Associative(order, LimitPart(q), OffsetPart(q));
    OrderReads(q, entity, LimitPart(q) + OffsetPart(q));
    NumberReads(KwLimit, q.limit, OffsetPart(q));
    NumberReads(KwOffset, q.offset, []);
    assert OffsetPart(q) + [] == OffsetPart(q);
  }

  lemma ProjectionReads(q: Query, entity: EntityMeta, rest: Sql)
    requires q.kind == QuerySelect && rest != [] && rest[0] == KwFrom
    ensures ReadProjection((if q.fields == [] then [Star] else Join(ColumnParts(entity, q.fields), [Comma])) + rest)
         == Some((ProjectionOf(q, entity), rest))
  {
    if q.fields == [] {
      assert ([Star] + rest)[1..] == rest;
    } else {
      NamesRead(entity, q.fields, rest);
      var list := Join(ColumnParts(entity, q.fields), [Comma]);
      JoinStartsWith(ColumnParts(entity, q.fields), [Comma], rest);
    }
  }

  lemma JoinStartsWith(parts: seq<Sql>, sep: Sql, rest: Sql)
    requires parts != [] && parts[0] != []
    ensures Join(parts, sep) + rest != [] && (Join(parts, sep) + rest)[0] == parts[0][0]
  {
  }

  /** Everything after the table name of a SELECT. */
  lemma SelectRestReads(q: Query, entity: EntityMeta, w: Piece, h: Piece)
    requires q.kind == QuerySelect && ReadableQuery(q)
    requires CompileFilter(q.where, entity, 0) == Ok(w) && CompileHaving(q.having, entity, |w.args|) == Ok(h)
    ensures ReadSelectTail(ProjectionOf(q, entity), entity.tableName,
              w.sql + (GroupPart(q, entity) + (h.sql + SelectTail(q, entity))))
         == Some(StatementOf(q, entity))
  {
    var tail := SelectTail(q, entity);
    SelectTailReads(q, entity);
    HavingReads(q, entity, |w.args|, tail);
    HavingStarts(q, entity, |w.args|, tail);
    GroupReads(q, entity, h.sql + tail);
    GroupStarts(q, entity, h.sql + tail);
    FilterReads(q.where, entity, 0, GroupPart(q, entity) + (h.sql + tail));
  }

  lemma HavingStarts(q: Query, entity: EntityMeta, n: nat, rest: Sql)
    requires CompileHaving(q.having, entity, n).Ok?
    requires rest == [] || rest[0] in {KwOrder, KwLimit, KwOffset}
    ensures var ts := CompileHaving(q.having, entity, n).value.sql + rest;
      ts == [] || ts[0] in {KwHaving, KwOrder, KwLimit, KwOffset}
  {
  }

  lemma GroupStarts(q: Query, entity: EntityMeta, rest: Sql)
    requires rest == [] || rest[0] in {KwHaving, KwOrder, KwLimit, KwOffset}
    ensures EndsClause(GroupPart(q, entity) + rest)
  {
    NonEmptyJoin(ColumnParts(entity, q.groupBy), [Comma]);
    if q.groupBy == [] {
      assert [] + rest == rest;
    }
  }

  lemma Regroup(a: Sql, b: Sql, c: Sql, d: Sql, e: Sql, f: Sql, g: Sql)
    ensures a + b + c + d + e + f + g == a + (b + (c + (d + (e + (f + g)))))
  {
  }

  function SelectColumns(q: Query, entity: EntityMeta): Sql {
    if q.fields == [] then [Star] else Join(ColumnParts(entity, q.fields), [Comma])
  }

  lemma SelectText(q: Query, entity: EntityMeta, w: Sql, h: Sql)
    ensures SelectHead(q, entity) + w + GroupPart(q, entity) + h + SelectTail(q, entity)
         == [KwSelect] + (SelectColumns(q, entity) + ([KwFrom, Ident(entity.tableName)]
            + (w + (GroupPart(q, entity) + (h + SelectTail(q, entity))))))
  {
    Regroup([KwSelect], SelectColumns(q, entity), [KwFrom, Ident(entity.tableName)], w, GroupPart(q, entity), h,
            SelectTail(q, entity));
  }

  lemma SelectReads(q: Query, entity: EntityMeta)
    requires q.kind == QuerySelect && ReadableQuery(q) && CompileSelect(q, entity).Ok?
    ensures ReadStatement(CompileSelect(q, entity).value.sql) == Some(StatementOf(q, entity))
  {
    var w := CompileFilter(q.where, entity, 0).value;
    var h := CompileHaving(q.having, entity, |w.args|).value;
    var more := w.sql + (GroupPart(q, entity) + (h.sql + SelectTail(q, entity)));
    SelectText(q, entity, w.sql, h.sql);
    SelectRestReads(q, entity, w, h);
    ProjectionReads(q, entity, [KwFrom, Ident(entity.tableName)] + more);
    SelectFromReads(SelectColumns(q, entity), ProjectionOf(q, entity), entity.tableName, more);
  }

  lemma SelectFromReads(columns: Sql, p: Projection, table: string, more: Sql)
    requires var from := [KwFrom, Ident(table)] + more; ReadProjection(columns + from) == Some((p, from))
    ensures ReadStatement([KwSelect] + (columns + ([KwFrom, Ident(table)] + more))) == ReadSelectTail(p, table, more)
  {
    var from := [KwFrom, Ident(table)] + more;
    assert ([KwSelect] + (columns + from))[1..] == columns + from;
    assert from[2..] == more;
  }

  // ----- UPDATE, DELETE and the aggregates -----

  lemma AssignmentReads(u: UpdateSet, entity: EntityMeta, i: nat, rest: Sql)
    ensures ReadAssignment(SetPart(u, entity, i) + rest) == Some((AssignmentOf(u, entity, i), rest))
  {
    var ts := SetPart(u, entity, i) + rest;
    assert ts[|SetPart(u, entity, i)|..] == rest;
  }

  /** A piece of a SET list: it reads as the assignment, whatever follows. */
  ghost predicate IsAssignment(s: Sql, a: Assignment) {
    forall rest :: ReadAssignment(s + rest) == Some((a, rest))
  }

  lemma {:induction false} AssignmentsRead(parts: seq<Sql>, sets: seq<Assignment>, rest: Sql)
    requires |parts| == |sets| > 0 && (rest == [] || rest[0] != Comma)
    requires forall j :: 0 <= j < |parts| ==> IsAssignment(parts[j], sets[j])
    ensures ReadAssignments(Join(parts, [Comma]) + rest) == Some((sets, rest))
    decreases |parts|
  {
    assert IsAssignment(parts[0], sets[0]);
    if |parts| == 1 {
      assert ReadAssignment(parts[0] + rest) == Some((sets[0], rest));
      assert [sets[0]] == sets;
    } else {
      var more := Join(parts[1..], [Comma]) + rest;
      AssignmentsRead(parts[1..], sets[1..], rest);
      CommaSplits(parts, rest);
      assert ReadAssignment(parts[0] + ([Comma] + more)) == Some((sets[0], [Comma] + more));
      NextAssignment(Join(parts, [Comma]) + rest, sets, more, rest);
    }
  }

  lemma SetPartReads(u: UpdateSet, entity: EntityMeta, i: nat)
    ensures IsAssignment(SetPart(u, entity, i), AssignmentOf(u, entity, i))
  {
    forall rest
      ensures ReadAssignment(SetPart(u, entity, i) + rest) == Some((AssignmentOf(u, entity, i), rest))
    {
      AssignmentReads(u, entity, i, rest);
    }
  }

  lemma SetListReads(us: seq<UpdateSet>, entity: EntityMeta, rest: Sql)
    requires us != [] && (rest == [] || rest[0] != Comma)
    ensures ReadAssignments(Join(SetParts(us, entity), [Comma]) + rest) == Some((Assignments(us, entity), rest))
  {
    var parts, sets := SetParts(us, entity), Assignments(us, entity);
    forall j | 0 <= j < |parts|
      ensures IsAssignment(parts[j], sets[j])
    {
      SetPartReads(us[j], entity, j + 1);
    }
    AssignmentsRead(parts, sets, rest);
  }

  lemma NextAssignment(ts: Sql, sets: seq<Assignment>, more: Sql, rest: Sql)
    requires sets != [] && ReadAssignment(ts) == Some((sets[0], [Comma] + more))
    requires ReadAssignments(more) == Some((sets[1..], rest))
    ensures ReadAssignments(ts) == Some((sets, rest))
  {
    assert ([Comma] + more)[1..] == more;
    assert [sets[0]] + sets[1..] == sets;
  }

  lemma CommaSplits(parts: seq<Sql>, rest: Sql)
    requires |parts| > 1
    ensures Join(parts, [Comma]) + rest == parts[0] + ([Comma] + (Join(parts[1..], [Comma]) + rest))
  {
  }

  lemma ReadUpdate(table: string, list: Sql, sets: seq<Assignment>, w: Sql, where: Option<SqlExpr>)
    requires ReadAssignments(list + w) == Some((sets, w)) && ReadClause(KwWhere, w) == Some((where, []))
    ensures ReadStatement([KwUpdate, Ident(table), KwSet] + list + w) == Some(Update(table, sets, where))
  {
    DropThree(KwUpdate, Ident(table), KwSet, list, w);
  }

  lemma DropThree(a: Tok, b: Tok, c: Tok, s: Sql, rest: Sql)
    ensures var ts := [a, b, c] + s + rest;
      |ts| >= 3 && ts[0] == a && ts[1] == b && ts[2] == c && ts[3..] == s + rest
  {
  }

  lemma FilterAloneReads(where: Option<WhereClause>, entity: EntityMeta, n: nat)
    requires CompileFilter(where, entity, n).Ok? && Readable(where)
    ensures ReadClause(KwWhere, CompileFilter(where, entity, n).value.sql) == Some((FilterExpr(where, entity, n), []))
  {
    var w := CompileFilter(where, entity, n).value.sql;
    FilterReads(where, entity, n, []);
    assert w + [] == w;
  }

  lemma UpdateReads(q: Query, entity: EntityMeta)
    requires q.kind == QueryUpdate && ReadableQuery(q) && CompileUpdate(q, entity).Ok?
    ensures ReadStatement(CompileUpdate(q, entity).value.sql) == Some(StatementOf(q, entity))
  {
    var w := CompileFilter(q.where, entity, |q.updates|).value.sql;
    var sets := Assignments(q.updates, entity);
    FilterStarts(q.where, entity, |q.updates|);
    SetListReads(q.updates, entity, w);
    FilterAloneReads(q.where, entity, |q.updates|);
    ReadUpdate(entity.tableName, Join(SetParts(q.updates, entity), [Comma]), sets, w,
               FilterExpr(q.where, entity, |q.updates|));
  }

  lemma FilterStarts(where: Option<WhereClause>, entity: EntityMeta, n: nat)
    requires CompileFilter(where, entity, n).Ok?
    ensures var w := CompileFilter(where, entity, n).value.sql; w == [] || w[0] == KwWhere
  {
  }

  lemma StampReads(col: string, w: Sql)
    requires w == [] || w[0] == KwWhere
    ensures ReadAssignments(Stamp(col) + w) == Some(([AssignNow(col)], w))
  {
    assert (Stamp(col) + w)[5..] == w;
  }

  lemma DeleteReads(q: Query, entity: EntityMeta)
    requires q.kind == QueryDelete && Readable(q.where) && CompileFiltered(DeleteHead(entity), q, entity).Ok?
    ensures ReadStatement(CompileFiltered(DeleteHead(entity), q, entity).value.sql) == Some(StatementOf(q, entity))
  {
    var w := CompileFilter(q.where, entity, 0).value.sql;
    FilterAloneReads(q.where, entity, 0);
    if entity.softDelete == "" {
      ReadDelete(entity.tableName, w, FilterExpr(q.where, entity, 0));
    } else {
      FilterStarts(q.where, entity, 0);
      StampReads(entity.softDelete, w);
      ReadUpdate(entity.tableName, Stamp(entity.softDelete), [AssignNow(entity.softDelete)], w,
                 FilterExpr(q.where, entity, 0));
      DeleteHeadStamps(entity);
    }
  }

  lemma ReadDelete(table: string, w: Sql, where: Option<SqlExpr>)
    requires ReadClause(KwWhere, w) == Some((where, []))
    ensures ReadStatement([KwDelete, KwFrom, Ident(table)] + w) == Some(Delete(table, where))
  {
    assert ([KwDelete, KwFrom, Ident(table)] + w)[3..] == w;
  }

  function Stamp(col: string): Sql {
    [Ident(col), Cmp(Equal), FuncName(Now), LParen, RParen]
  }

  lemma DeleteHeadStamps(entity: EntityMeta)
    requires entity.softDelete != ""
    ensures DeleteHead(entity) == [KwUpdate, Ident(entity.tableName), KwSet] + Stamp(entity.softDelete)
  {
  }

  lemma BareSelectReads(p: Projection, table: string, w: Sql, where: Option<SqlExpr>)
    requires ReadClause(KwWhere, w) == Some((where, []))
    ensures ReadSelectTail(p, table, w) == Some(Select(p, table, where, [], None, [], None, None))
  {
  }

  lemma AggregateReads(q: Query, entity: EntityMeta)
    requires q.kind !in {QuerySelect, QueryUpdate, QueryDelete} && Readable(q.where) && CompileFor(q, entity).Ok?
    ensures ReadStatement(CompileFor(q, entity).value.sql) == Some(StatementOf(q, entity))
  {
    var w := CompileFilter(q.where, entity, 0).value.sql;
    FilterAloneReads(q.where, entity, 0);
    var columns := AggregateColumns(q, entity);
    AggregateText(q, entity, w);
    AggregateProjects(q, entity, [KwFrom, Ident(entity.tableName)] + w);
    SelectFromReads(columns, ProjectionOf(q, entity), entity.tableName, w);
    BareSelectReads(ProjectionOf(q, entity), entity.tableName, w, FilterExpr(q.where, entity, 0));
  }

  function AggregateColumns(q: Query, entity: EntityMeta): Sql {
    if q.kind == QueryCount then [FuncName(Count), LParen, Star, RParen]
    else [FuncName(AggregateFunc(q.kind)), LParen, Ident(MapColumn(entity, q.aggField)), RParen]
  }

  lemma AggregateProjects(q: Query, entity: EntityMeta, from: Sql)
    requires q.kind !in {QuerySelect, QueryUpdate, QueryDelete} && from != [] && from[0] == KwFrom
    ensures ReadProjection(AggregateColumns(q, entity) + from) == Some((ProjectionOf(q, entity), from))
  {
    assert (AggregateColumns(q, entity) + from)[4..] == from;
  }

  lemma AggregateText(q: Query, entity: EntityMeta, w: Sql)
    requires q.kind !in {QuerySelect, QueryUpdate, QueryDelete} && CompileFor(q, entity).Ok?
    requires w == CompileFilter(q.where, entity, 0).value.sql
    ensures CompileFor(q, entity).value.sql
         == [KwSelect] + (AggregateColumns(q, entity) + ([KwFrom, Ident(entity.tableName)] + w))
  {
  }

  /** The text of every query with readable clauses is the statement the query stands for. */
  lemma StatementReads(q: Query, entity: EntityMeta)
    requires CompileFor(q, entity).Ok? && ReadableQuery(q)
    ensures ReadStatement(CompileFor(q, entity).value.sql) == Some(StatementOf(q, entity))
  {
    match q.kind
    case QuerySelect => SelectReads(q, entity);
    case QueryUpdate => UpdateReads(q, entity);
    case QueryDelete => DeleteReads(q, entity);
    case _ => AggregateReads(q, entity);
  }
}
