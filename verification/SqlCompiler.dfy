/** The SQL compiler (internal/query/compiler.go): what each construct compiles to, as functions
    of the syntax and of the number of parameters already used, and the class whose methods
    build the same text while its parameter list grows. */
module SqlCompiler {
  import opened Results
  import opened QueryAst
  import opened Truth
  import opened SqlReader
  import Columns

  datatype CompileError =
    | UnknownEntity(name: string)
    | RequiresArray(op: CompareOp)
    | RequiresBetweenValue
    | NoTextSearchColumn
    | UnsupportedOperator(op: CompareOp)

  /** Emitted tokens with the arguments their placeholders stand for. */
  datatype Piece = Piece(sql: Sql, args: seq<Arg>)

  type Compiled = Result<Piece, CompileError>

  // ----- column names -----

  function SnakeCaseFrom(s: string, first: bool): string {
    if s == "" then ""
    else
      (if 'A' <= s[0] <= 'Z'
       then (if first then [] else ['_']) + [(s[0] as int + 32) as char]
       else [s[0]]) + SnakeCaseFrom(s[1..], false)
  }

  /** Character by character it is the words of the name, joined. */
  lemma {:induction false} SnakeCaseIs(s: string)
    ensures SnakeCaseFrom(s, true) == Columns.Snake(s)
    ensures SnakeCaseFrom(s, false) == Columns.Inner(s)
    decreases |s|
  {
    if |s| <= 1 {
      Columns.SnakeShort(s);
    } else {
      Columns.WordsStep(s);
      SnakeCaseIs(s[1..]);
    }
  }

  function MapColumn(entity: EntityMeta, field: string): (col: string)
    ensures col == Columns.FieldColumn(entity, field)
  {
    SnakeCaseIs(field);
    if field in entity.columns then entity.columns[field] else SnakeCaseFrom(field, true)
  }

  // ----- joining -----

  function Join(parts: seq<Sql>, sep: Sql): Sql {
    if parts == [] then []
    else if |parts| == 1 then parts[0]
    else parts[0] + sep + Join(parts[1..], sep)
  }

  function PlaceholderParts(n: nat, k: nat): (parts: seq<Sql>) {
    seq(k, (i: nat) => [Ph(n + 1 + i)])
  }

  function ColumnParts(entity: EntityMeta, names: seq<string>): seq<Sql> {
    seq(|names|, i requires 0 <= i < |names| => [Ident(MapColumn(entity, names[i]))])
  }

  function Vals(vs: seq<Value>): (args: seq<Arg>)
    ensures |args| == |vs|
  {
    seq(|vs|, i requires 0 <= i < |vs| => Val(vs[i]))
  }

  // ----- conditions -----

  function NotPrefix(negated: bool): Sql {
    if negated then [KwNot] else []
  }

  function Unary(c: Condition, col: string, test: Tok, n: nat, arg: Arg): Compiled {
    Ok(Piece(NotPrefix(c.negated) + [Ident(col), test, Ph(n + 1)], [arg]))
  }

  /** Text search names no field; its Not flag is not consulted. */
  function CompileTextSearch(c: Condition, entity: EntityMeta, n: nat): Compiled {
    if entity.tsvColumns == [] then Err(NoTextSearchColumn) else
    var f := if c.operator == OpFuzzy then ToTsquery
             else if c.operator == OpExact then PhrasetoTsquery else PlaintoTsquery;
    Ok(Piece([Ident(entity.tsvColumns[0]), TsMatch, FuncName(f), LParen, SimpleLit, Comma, Ph(n + 1), RParen],
             [Pattern("", c.value, "")]))
  }

  function InTest(col: string, notIn: bool, list: Sql): Sql {
    [Ident(col)] + (if notIn then [KwNot, KwIn] else [KwIn]) + [LParen] + list + [RParen]
  }

  function CompileInList(c: Condition, col: string, notIn: bool, n: nat): Compiled {
    if !c.value.List? then Err(RequiresArray(c.operator)) else
    var k := |c.value.items|;
    if k == 0 then
      Ok(Piece(if notIn || c.negated then [KwTrue] else [KwFalse], []))
    else
      Ok(Piece(NotPrefix(c.negated) + InTest(col, notIn, Join(PlaceholderParts(n, k), [Comma])), Vals(c.value.items)))
  }

  function IsNullTest(col: string, negated: bool): Sql {
    [Ident(col), KwIs] + NotPrefix(negated) + [KwNull]
  }

  /** A condition that is not a nested group; `n` parameters are already in use. */
  function CompileLeaf(c: Condition, entity: EntityMeta, n: nat): Compiled {
    if c.field == "" then CompileTextSearch(c, entity, n) else
    var col := MapColumn(entity, c.field);
    match c.operator
    case OpEquals =>
      if c.field in entity.jsonColumns
      then Ok(Piece(NotPrefix(c.negated) + [Ident(col), AtGt, Ph(n + 1), AsJsonb], [Val(c.value)]))
      else Unary(c, col, Cmp(Equal), n, Val(c.value))
    case OpNotEquals => Unary(c, col, Cmp(NotEqual), n, Val(c.value))
    case OpGreaterThan => Unary(c, col, Cmp(Greater), n, Val(c.value))
    case OpGreaterThanOrEqual => Unary(c, col, Cmp(GreaterOrEqual), n, Val(c.value))
    case OpLessThan => Unary(c, col, Cmp(Less), n, Val(c.value))
    case OpLessThanOrEqual => Unary(c, col, Cmp(LessOrEqual), n, Val(c.value))
    case OpContains => Unary(c, col, KwILike, n, Pattern("%", c.value, "%"))
    case OpILike => Unary(c, col, KwILike, n, Pattern("%", c.value, "%"))
    case OpLike => Unary(c, col, KwLike, n, Val(c.value))
    case OpStartsWith => Unary(c, col, KwILike, n, Pattern("", c.value, "%"))
    case OpEndsWith => Unary(c, col, KwILike, n, Pattern("%", c.value, ""))
    case OpIn => CompileInList(c, col, false, n)
    case OpNotIn => CompileInList(c, col, true, n)
    case OpIsNull => Ok(Piece(IsNullTest(col, c.negated), []))
    case OpIsNotNull => Ok(Piece(IsNullTest(col, !c.negated), []))
    case OpIncludes => Unary(c, col, AtGt, n, Val(c.value))
    case OpArrayContains => Unary(c, col, AtGt, n, Val(c.value))
    case OpBetween =>
      if !c.value.Between? then Err(RequiresBetweenValue) else
      Ok(Piece(NotPrefix(c.negated) + [Ident(col), KwBetween, Ph(n + 1), KwAnd, Ph(n + 2)],
               [Val(c.value.low), Val(c.value.high)]))
    case _ => Err(UnsupportedOperator(c.operator))
  }

  function CompileCondition(c: Condition, entity: EntityMeta, n: nat): Compiled
    decreases c
  {
    if c.nested.Some? then
      var inner :- CompileWhere(c.nested, entity, n);
      Ok(if c.negated then Piece([KwNot, LParen] + inner.sql + [RParen], inner.args) else inner)
    else CompileLeaf(c, entity, n)
  }

  /** The non-empty texts of the conditions, with all their arguments. */
  function CompileConditions(cs: seq<Condition>, entity: EntityMeta, n: nat): Result<(seq<Sql>, seq<Arg>), CompileError>
    decreases cs
  {
    if cs == [] then Ok(([], [])) else
    var p :- CompileCondition(cs[0], entity, n);
    var more :- CompileConditions(cs[1..], entity, n + |p.args|);
    Ok((if p.sql == [] then more.0 else [p.sql] + more.0, p.args + more.1))
  }

  function Connective(op: LogicalOp): Tok {
    if op == LogicalOr then KwOr else KwAnd
  }

  function JoinClause(parts: seq<Sql>, op: LogicalOp): Sql {
    if |parts| <= 1 then Join(parts, [Connective(op)])
    else [LParen] + Join(parts, [Connective(op)]) + [RParen]
  }

  function CompileWhere(where: Option<WhereClause>, entity: EntityMeta, n: nat): Compiled
    decreases where
  {
    if where.None? || where.value.conditions == [] then Ok(Piece([], [])) else
    var parts :- CompileConditions(where.value.conditions, entity, n);
    Ok(Piece(JoinClause(parts.0, where.value.operator), parts.1))
  }

  /** Several conditions are each parenthesised: `(a) AND (b)`. */
  function Conjoin(parts: seq<Sql>): Sql {
    if |parts| <= 1 then Join(parts, [])
    else [LParen] + Join(parts, [RParen, KwAnd, LParen]) + [RParen]
  }

  function WithSoftDelete(sql: Sql, softDelete: string): Sql {
    Conjoin((if sql == [] then [] else [sql])
            + (if softDelete == "" then [] else [[Ident(softDelete), KwIs, KwNull]]))
  }

  function CompileWhereWithSoftDelete(where: Option<WhereClause>, entity: EntityMeta, n: nat): Compiled {
    var p :- CompileWhere(where, entity, n);
    Ok(Piece(WithSoftDelete(p.sql, entity.softDelete), p.args))
  }

  // ----- statements -----

  function Prefixed(keywords: Sql, sql: Sql): Sql {
    if sql == [] then [] else keywords + sql
  }

  function OrderParts(entity: EntityMeta, orders: seq<OrderClause>): seq<Sql> {
    seq(|orders|, i requires 0 <= i < |orders| =>
      [Ident(MapColumn(entity, orders[i].field)), if orders[i].direction == Descending then KwDesc else KwAsc])
  }

  function SelectTail(q: Query, entity: EntityMeta): Sql {
    Prefixed([KwOrder, KwBy], Join(OrderParts(entity, q.orderBy), [Comma]))
    + (if q.limit.Some? then [KwLimit, Number(q.limit.value)] else [])
    + (if q.offset.Some? then [KwOffset, Number(q.offset.value)] else [])
  }

  function SelectHead(q: Query, entity: EntityMeta): Sql {
    [KwSelect] + (if q.fields == [] then [Star] else Join(ColumnParts(entity, q.fields), [Comma]))
    + [KwFrom, Ident(entity.tableName)]
  }

  function GroupPart(q: Query, entity: EntityMeta): Sql {
    Prefixed([KwGroup, KwBy], Join(ColumnParts(entity, q.groupBy), [Comma]))
  }

  /** The WHERE part of a statement, nothing when there is no condition. */
  function CompileFilter(where: Option<WhereClause>, entity: EntityMeta, n: nat): Compiled {
    var w :- CompileWhereWithSoftDelete(where, entity, n);
    Ok(Piece(Prefixed([KwWhere], w.sql), w.args))
  }

  /** HAVING is written whenever the clause is present, even when it compiles to nothing. */
  function CompileHaving(having: Option<WhereClause>, entity: EntityMeta, n: nat): Compiled {
    if having.None? then Ok(Piece([], [])) else
    var h :- CompileWhere(having, entity, n);
    Ok(Piece([KwHaving] + h.sql, h.args))
  }

  function CompileSelect(q: Query, entity: EntityMeta): Compiled {
    var w :- CompileFilter(q.where, entity, 0);
    var h :- CompileHaving(q.having, entity, |w.args|);
    Ok(Piece(SelectHead(q, entity) + w.sql + GroupPart(q, entity) + h.sql + SelectTail(q, entity), w.args + h.args))
  }

  function CompileFiltered(head: Sql, q: Query, entity: EntityMeta): Compiled {
    var w :- CompileFilter(q.where, entity, 0);
    Ok(Piece(head + w.sql, w.args))
  }

  function AggregateFunc(kind: QueryType): Func {
    match kind
    case QueryAvg => Avg
    case QueryMin => Min
    case QueryMax => Max
    case _ => Sum
  }

  function SetPart(u: UpdateSet, entity: EntityMeta, i: nat): Sql {
    var col := Ident(MapColumn(entity, u.field));
    [col, Cmp(Equal)] + match u.op
      case SetValue => [Ph(i)]
      case Increment => [col, Plus, Ph(i)]
      case Decrement => [col, Minus, Ph(i)]
      case Append => [FuncName(ArrayAppend), LParen, col, Comma, Ph(i), RParen]
      case Remove => [FuncName(ArrayRemove), LParen, col, Comma, Ph(i), RParen]
  }

  function SetParts(us: seq<UpdateSet>, entity: EntityMeta): (parts: seq<Sql>)
    ensures |parts| == |us|
  {
    seq(|us|, i requires 0 <= i < |us| => SetPart(us[i], entity, i + 1))
  }

  function SetArgs(us: seq<UpdateSet>): (args: seq<Arg>)
    ensures |args| == |us|
  {
    seq(|us|, i requires 0 <= i < |us| => Val(us[i].value))
  }

  function CompileUpdate(q: Query, entity: EntityMeta): Compiled {
    var w :- CompileFilter(q.where, entity, |q.updates|);
    Ok(Piece([KwUpdate, Ident(entity.tableName), KwSet] + Join(SetParts(q.updates, entity), [Comma]) + w.sql,
             SetArgs(q.updates) + w.args))
  }

  function DeleteHead(entity: EntityMeta): Sql {
    if entity.softDelete != ""
    then [KwUpdate, Ident(entity.tableName), KwSet, Ident(entity.softDelete), Cmp(Equal), FuncName(Now), LParen, RParen]
    else [KwDelete, KwFrom, Ident(entity.tableName)]
  }

  function CompileFor(q: Query, entity: EntityMeta): Compiled {
    match q.kind
    case QuerySelect => CompileSelect(q, entity)
    case QueryCount =>
      CompileFiltered([KwSelect, FuncName(Count), LParen, Star, RParen, KwFrom, Ident(entity.tableName)], q, entity)
    case QueryUpdate => CompileUpdate(q, entity)
    case QueryDelete => CompileFiltered(DeleteHead(entity), q, entity)
    case _ =>
      CompileFiltered([KwSelect, FuncName(AggregateFunc(q.kind)), LParen, Ident(MapColumn(entity, q.aggField)), RParen,
                       KwFrom, Ident(entity.tableName)], q, entity)
  }

  function CompileQuery(entities: map<string, EntityMeta>, q: Query): Compiled {
    if q.entity !in entities then Err(UnknownEntity(q.entity)) else CompileFor(q, entities[q.entity])
  }

  // ----- the compiler object -----

  /** A compilation result as the methods see it: the text is returned, the arguments have been
      appended to `params`. After an error the compiler's state is of no further use. */
  ghost predicate Emits(spec: Compiled, r: Result<Sql, CompileError>, before: seq<Arg>, after: seq<Arg>) {
    match spec
    case Ok(p) => r == Ok(p.sql) && after == before + p.args
    case Err(e) => r == Err(e)
  }

  ghost function Prepend(sqls: seq<Sql>, args: seq<Arg>, r: Result<(seq<Sql>, seq<Arg>), CompileError>)
    : Result<(seq<Sql>, seq<Arg>), CompileError>
  {
    match r
    case Ok(p) => Ok((sqls + p.0, args + p.1))
    case Err(e) => Err(e)
  }

  class SQLCompiler {
    const entities: map<string, EntityMeta>
    var params: seq<Arg>
    var paramIdx: nat

    /** The placeholder counter never leaves the parameter list. */
    predicate Valid()
      reads this
    {
      paramIdx == |params|
    }

    constructor (entities: map<string, EntityMeta>)
      ensures Valid() && this.entities == entities && params == []
    {
      this.entities := entities;
      params := [];
      paramIdx := 0;
    }

    method Compile(q: Query) returns (r: Compiled)
      modifies this
      ensures Valid()
      ensures r == CompileQuery(entities, q)
      ensures r.Ok? ==> params == r.value.args
    {
      params := [];
      paramIdx := 0;
      var sql: Result<Sql, CompileError>;
      if q.entity !in entities {
        return Err(UnknownEntity(q.entity));
      }
      var entity := entities[q.entity];
      match q.kind {
        case QuerySelect => sql := EmitSelect(q, entity);
        case QueryCount =>
          sql := EmitFiltered([KwSelect, FuncName(Count), LParen, Star, RParen, KwFrom, Ident(entity.tableName)],
                              q, entity);
        case QueryUpdate => sql := EmitUpdate(q, entity);
        case QueryDelete => sql := EmitFiltered(DeleteHead(entity), q, entity);
        case _ =>
          sql := EmitFiltered([KwSelect, FuncName(AggregateFunc(q.kind)), LParen, Ident(MapColumn(entity, q.aggField)),
                               RParen, KwFrom, Ident(entity.tableName)], q, entity);
      }
      if sql.Err? {
        return Err(sql.error);
      }
      ghost var spec := CompileFor(q, entity).value;
      assert params == spec.args;
      r := Ok(Piece(sql.value, params));
    }

    method Bind(a: Arg)
      requires Valid()
      modifies this
      ensures Valid() && params == old(params) + [a] && paramIdx == old(paramIdx) + 1
    {
      paramIdx := paramIdx + 1;
      params := params + [a];
    }

    method EmitColumns(names: seq<string>, entity: EntityMeta) returns (sql: Sql)
      ensures sql == Join(ColumnParts(entity, names), [Comma])
    {
      var parts: seq<Sql> := [];
      for i := 0 to |names|
        invariant parts == ColumnParts(entity, names)[..i]
      {
        parts := parts + [[Ident(MapColumn(entity, names[i]))]];
      }
      assert parts == ColumnParts(entity, names);
      sql := Join(parts, [Comma]);
    }

    method EmitSelect(q: Query, entity: EntityMeta) returns (r: Result<Sql, CompileError>)
      requires Valid() && params == []
      modifies this
      ensures Valid() && Emits(CompileSelect(q, entity), r, old(params), params)
    {
      var head := EmitSelectHead(q, entity);
      var where := EmitFilter(q.where, entity);
      if where.Err? {
        return where;
      }
      assert params == [] + params;
      var groups := EmitGroupBy(q, entity);
      var having := EmitHaving(q.having, entity);
      if having.Err? {
        return having;
      }
      var tail := EmitSelectTail(q, entity);
      r := Ok(head + where.value + groups + having.value + tail);
    }

    method EmitGroupBy(q: Query, entity: EntityMeta) returns (sql: Sql)
      ensures sql == GroupPart(q, entity)
    {
      sql := [];
      if q.groupBy != [] {
        sql := EmitColumns(q.groupBy, entity);
        sql := [KwGroup, KwBy] + sql;
      }
      NonEmptyJoin(ColumnParts(entity, q.groupBy), [Comma]);
    }

    method EmitFilter(where: Option<WhereClause>, entity: EntityMeta) returns (r: Result<Sql, CompileError>)
      requires Valid()
      modifies this
      ensures Valid() && Emits(CompileFilter(where, entity, |old(params)|), r, old(params), params)
    {
      r := EmitWhereWithSoftDelete(where, entity);
      if r.Ok? && r.value != [] {
        r := Ok([KwWhere] + r.value);
      }
    }

    method EmitHaving(having: Option<WhereClause>, entity: EntityMeta) returns (r: Result<Sql, CompileError>)
      requires Valid()
      modifies this
      ensures Valid() && Emits(CompileHaving(having, entity, |old(params)|), r, old(params), params)
    {
      if having.None? {
        return Ok([]);
      }
      r := EmitWhere(having, entity);
      if r.Ok? {
        r := Ok([KwHaving] + r.value);
      }
    }

    method EmitSelectHead(q: Query, entity: EntityMeta) returns (sql: Sql)
      ensures sql == SelectHead(q, entity)
    {
      sql := [KwSelect];
      if q.fields == [] {
        sql := sql + [Star];
      } else {
        var columns := EmitColumns(q.fields, entity);
        sql := sql + columns;
      }
      sql := sql + [KwFrom, Ident(entity.tableName)];
    }

    method EmitSelectTail(q: Query, entity: EntityMeta) returns (sql: Sql)
      ensures sql == SelectTail(q, entity)
    {
      sql := [];
      if q.orderBy != [] {
        var orders: seq<Sql> := [];
        for i := 0 to |q.orderBy|
          invariant orders == OrderParts(entity, q.orderBy)[..i]
        {
          var dir := KwAsc;
          if q.orderBy[i].direction == Descending {
            dir := KwDesc;
          }
          orders := orders + [[Ident(MapColumn(entity, q.orderBy[i].field)), dir]];
        }
        assert orders == OrderParts(entity, q.orderBy);
        sql := sql + [KwOrder, KwBy] + Join(orders, [Comma]);
      }
      NonEmptyJoin(OrderParts(entity, q.orderBy), [Comma]);
      if q.limit.Some? {
        sql := sql + [KwLimit, Number(q.limit.value)];
      }
      if q.offset.Some? {
        sql := sql + [KwOffset, Number(q.offset.value)];
      }
    }

    method EmitFiltered(head: Sql, q: Query, entity: EntityMeta) returns (r: Result<Sql, CompileError>)
      requires Valid() && params == []
      modifies this
      ensures Valid() && Emits(CompileFiltered(head, q, entity), r, old(params), params)
    {
      r := EmitFilter(q.where, entity);
      if r.Ok? {
        r := Ok(head + r.value);
      }
    }

    method EmitUpdate(q: Query, entity: EntityMeta) returns (r: Result<Sql, CompileError>)
      requires Valid() && params == []
      modifies this
      ensures Valid() && Emits(CompileUpdate(q, entity), r, old(params), params)
    {
      var sets: seq<Sql> := [];
      for i := 0 to |q.updates|
        invariant Valid() && params == SetArgs(q.updates)[..i]
        invariant sets == SetParts(q.updates, entity)[..i]
      {
        var u := q.updates[i];
        var col := Ident(MapColumn(entity, u.field));
        Bind(Val(u.value));
        var rhs: Sql;
        match u.op {
          case SetValue => rhs := [Ph(paramIdx)];
          case Increment => rhs := [col, Plus, Ph(paramIdx)];
          case Decrement => rhs := [col, Minus, Ph(paramIdx)];
          case Append => rhs := [FuncName(ArrayAppend), LParen, col, Comma, Ph(paramIdx), RParen];
          case Remove => rhs := [FuncName(ArrayRemove), LParen, col, Comma, Ph(paramIdx), RParen];
        }
        sets := sets + [[col, Cmp(Equal)] + rhs];
      }
      assert sets == SetParts(q.updates, entity) && params == SetArgs(q.updates);
      var sql := [KwUpdate, Ident(entity.tableName), KwSet] + Join(sets, [Comma]);
      r := EmitFilter(q.where, entity);
      if r.Ok? {
        r := Ok(sql + r.value);
      }
    }

    method EmitWhereWithSoftDelete(where: Option<WhereClause>, entity: EntityMeta)
      returns (r: Result<Sql, CompileError>)
      requires Valid()
      modifies this
      ensures Valid() && Emits(CompileWhereWithSoftDelete(where, entity, |old(params)|), r, old(params), params)
    {
      var conditions: seq<Sql> := [];
      if where.Some? {
        var sql := EmitWhere(where, entity);
        if sql.Err? {
          return sql;
        }
        if sql.value != [] {
          conditions := conditions + [sql.value];
        }
      }
      if entity.softDelete != "" {
        conditions := conditions + [[Ident(entity.softDelete), KwIs, KwNull]];
      }
      if |conditions| == 0 {
        return Ok([]);
      }
      if |conditions| == 1 {
        return Ok(conditions[0]);
      }
      r := Ok([LParen] + Join(conditions, [RParen, KwAnd, LParen]) + [RParen]);
    }

    method EmitWhere(where: Option<WhereClause>, entity: EntityMeta) returns (r: Result<Sql, CompileError>)
      requires Valid()
      modifies this
      ensures Valid() && Emits(CompileWhere(where, entity, |old(params)|), r, old(params), params)
      decreases where
    {
      if where.None? || where.value.conditions == [] {
        return Ok([]);
      }
      var cs := where.value.conditions;
      var conditions: seq<Sql> := [];
      ghost var args: seq<Arg> := [];
      assert cs[0..] == cs;
      PrependNothing(CompileConditions(cs, entity, |params|));
      for i := 0 to |cs|
        invariant Valid() && params == old(params) + args
        invariant CompileConditions(cs, entity, |old(params)|)
          == Prepend(conditions, args, CompileConditions(cs[i..], entity, |params|))
      {
        ghost var before, sofar, bound := params, conditions, args;
        var sql := EmitCondition(cs[i], entity);
        if sql.Err? {
          return sql;
        }
        if sql.value != [] {
          conditions := conditions + [sql.value];
        }
        args := params[|old(params)|..];
        assert cs[i..][1..] == cs[i + 1..];
        var p := CompileCondition(cs[i], entity, |before|).value;
        assert args == bound + p.args;
        PrependAll(sofar, bound, if p.sql == [] then [] else [p.sql], p.args,
                   CompileConditions(cs[i + 1..], entity, |params|));
      }
      assert cs[|cs|..] == [] && conditions + [] == conditions && args + [] == args;
      assert CompileConditions(cs, entity, |old(params)|) == Ok((conditions, args));
      ghost var sql := JoinClause(conditions, where.value.operator);
      assert CompileWhere(where, entity, |old(params)|) == Ok(Piece(sql, args));
      var op := KwAnd;
      if where.value.operator == LogicalOr {
        op := KwOr;
      }
      if |conditions| == 0 {
        return Ok([]);
      }
      if |conditions| == 1 {
        return Ok(conditions[0]);
      }
      r := Ok([LParen] + Join(conditions, [op]) + [RParen]);
    }

    method EmitCondition(c: Condition, entity: EntityMeta) returns (r: Result<Sql, CompileError>)
      requires Valid()
      modifies this
      ensures Valid() && Emits(CompileCondition(c, entity, |old(params)|), r, old(params), params)
      decreases c
    {
      if c.nested.Some? {
        var sql := EmitWhere(c.nested, entity);
        if sql.Ok? && c.negated {
          return Ok([KwNot, LParen] + sql.value + [RParen]);
        }
        return sql;
      }
      r := EmitLeaf(c, entity);
    }

    method EmitUnary(c: Condition, col: string, test: Tok, a: Arg) returns (r: Result<Sql, CompileError>)
      requires Valid()
      modifies this
      ensures Valid() && Emits(Unary(c, col, test, |old(params)|, a), r, old(params), params)
    {
      Bind(a);
      r := Ok(NotPrefix(c.negated) + [Ident(col), test, Ph(paramIdx)]);
    }

    method EmitInList(c: Condition, col: string, notIn: bool) returns (r: Result<Sql, CompileError>)
      requires Valid()
      modifies this
      ensures Valid() && Emits(CompileInList(c, col, notIn, |old(params)|), r, old(params), params)
    {
      if !c.value.List? {
        return Err(RequiresArray(c.operator));
      }
      var values := c.value.items;
      if |values| == 0 {
        if notIn || c.negated {
          return Ok([KwTrue]);
        }
        return Ok([KwFalse]);
      }
      var placeholders: seq<Sql> := [];
      for i := 0 to |values|
        invariant Valid() && params == old(params) + Vals(values)[..i]
        invariant placeholders == PlaceholderParts(|old(params)|, |values|)[..i]
      {
        Bind(Val(values[i]));
        placeholders := placeholders + [[Ph(paramIdx)]];
      }
      assert placeholders == PlaceholderParts(|old(params)|, |values|);
      assert Vals(values)[..|values|] == Vals(values);
      r := Ok(NotPrefix(c.negated) + InTest(col, notIn, Join(placeholders, [Comma])));
    }

    method EmitLeaf(c: Condition, entity: EntityMeta) returns (r: Result<Sql, CompileError>)
      requires Valid()
      modifies this
      ensures Valid() && Emits(CompileLeaf(c, entity, |old(params)|), r, old(params), params)
    {
      if c.field == "" {
        r := EmitTextSearch(c, entity);
        return;
      }
      var col := MapColumn(entity, c.field);
      match c.operator {
        case OpEquals =>
          if c.field in entity.jsonColumns {
            Bind(Val(c.value));
            r := Ok(NotPrefix(c.negated) + [Ident(col), AtGt, Ph(paramIdx), AsJsonb]);
          } else {
            r := EmitUnary(c, col, Cmp(Equal), Val(c.value));
          }
        case OpNotEquals => r := EmitUnary(c, col, Cmp(NotEqual), Val(c.value));
        case OpGreaterThan => r := EmitUnary(c, col, Cmp(Greater), Val(c.value));
        case OpGreaterThanOrEqual => r := EmitUnary(c, col, Cmp(GreaterOrEqual), Val(c.value));
        case OpLessThan => r := EmitUnary(c, col, Cmp(Less), Val(c.value));
        case OpLessThanOrEqual => r := EmitUnary(c, col, Cmp(LessOrEqual), Val(c.value));
        case OpContains => r := EmitUnary(c, col, KwILike, Pattern("%", c.value, "%"));
        case OpILike => r := EmitUnary(c, col, KwILike, Pattern("%", c.value, "%"));
        case OpLike => r := EmitUnary(c, col, KwLike, Val(c.value));
        case OpStartsWith => r := EmitUnary(c, col, KwILike, Pattern("", c.value, "%"));
        case OpEndsWith => r := EmitUnary(c, col, KwILike, Pattern("%", c.value, ""));
        case OpIn => r := EmitInList(c, col, false);
        case OpNotIn => r := EmitInList(c, col, true);
        case OpIsNull => r := Ok(IsNullTest(col, c.negated));
        case OpIsNotNull => r := Ok(IsNullTest(col, !c.negated));
        case OpIncludes => r := EmitUnary(c, col, AtGt, Val(c.value));
        case OpArrayContains => r := EmitUnary(c, col, AtGt, Val(c.value));
        case OpBetween =>
          if !c.value.Between? {
            return Err(RequiresBetweenValue);
          }
          Bind(Val(c.value.low));
          var lowIdx := paramIdx;
          Bind(Val(c.value.high));
          r := Ok(NotPrefix(c.negated) + [Ident(col), KwBetween, Ph(lowIdx), KwAnd, Ph(paramIdx)]);
        case _ => r := Err(UnsupportedOperator(c.operator));
      }
    }

    method EmitTextSearch(c: Condition, entity: EntityMeta) returns (r: Result<Sql, CompileError>)
      requires Valid()
      modifies this
      ensures Valid() && Emits(CompileTextSearch(c, entity, |old(params)|), r, old(params), params)
    {
      if entity.tsvColumns == [] {
        return Err(NoTextSearchColumn);
      }
      Bind(Pattern("", c.value, ""));
      var f;
      match c.operator {
        case OpFuzzy => f := ToTsquery;
        case OpExact => f := PhrasetoTsquery;
        case _ => f := PlaintoTsquery;
      }
      r := Ok([Ident(entity.tsvColumns[0]), TsMatch, FuncName(f), LParen, SimpleLit, Comma, Ph(paramIdx), RParen]);
    }
  }

  // ----- facts the methods use -----

  lemma NonEmptyJoin(parts: seq<Sql>, sep: Sql)
    requires forall i :: 0 <= i < |parts| ==> parts[i] != []
    ensures Join(parts, sep) == [] <==> parts == []
  {
  }

  lemma PrependNothing(r: Result<(seq<Sql>, seq<Arg>), CompileError>)
    ensures Prepend([], [], r) == r
  {
    if r.Ok? {
      assert [] + r.value.0 == r.value.0 && [] + r.value.1 == r.value.1;
    }
  }

  lemma PrependAll(
    ss: seq<Sql>, aa: seq<Arg>, ss': seq<Sql>, aa': seq<Arg>, r: Result<(seq<Sql>, seq<Arg>), CompileError>)
    ensures Prepend(ss, aa, Prepend(ss', aa', r)) == Prepend(ss + ss', aa + aa', r)
  {
    if r.Ok? {
      assert ss + (ss' + r.value.0) == ss + ss' + r.value.0;
      assert aa + (aa' + r.value.1) == aa + aa' + r.value.1;
    }
  }
}
