/** The query language's abstract syntax (internal/query/ast.go). */
module QueryAst {
  import opened Results

  /** The dynamic values a condition or an update may carry. A float keeps the text it was
      written with; `Param` is a named parameter and `Between` the operand of BETWEEN. */
  datatype Value =
    | Null
    | Bool(b: bool)
    | Int(n: int)
    | Float(text: string)
    | Str(s: string)
    | Param(name: string)
    | List(items: seq<Value>)
    | Between(low: Value, high: Value)

  datatype CompareOp =
    | OpEquals | OpNotEquals
    | OpGreaterThan | OpGreaterThanOrEqual
    | OpLessThan | OpLessThanOrEqual
    | OpContains | OpStartsWith | OpEndsWith
    | OpIn | OpNotIn
    | OpIsNull | OpIsNotNull
    | OpIncludes | OpLike | OpILike | OpBetween
    | OpFuzzy | OpExact | OpArrayContains

  datatype LogicalOp = LogicalAnd | LogicalOr

  datatype Condition = Condition(
    field: string,
    operator: CompareOp,
    value: Value,
    negated: bool,
    nested: Option<WhereClause>)

  datatype WhereClause = WhereClause(conditions: seq<Condition>, operator: LogicalOp)

  datatype Direction = Ascending | Descending

  datatype OrderClause = OrderClause(field: string, direction: Direction)

  datatype UpdateOp = SetValue | Increment | Decrement | Append | Remove

  datatype UpdateSet = UpdateSet(field: string, value: Value, op: UpdateOp)

  datatype QueryType =
    | QuerySelect | QueryCount
    | QuerySum | QueryAvg | QueryMin | QueryMax
    | QueryUpdate | QueryDelete

  datatype Query = Query(
    kind: QueryType,
    entity: string,
    fields: seq<string>,
    where: Option<WhereClause>,
    orderBy: seq<OrderClause>,
    limit: Option<int>,
    offset: Option<int>,
    includes: seq<string>,
    groupBy: seq<string>,
    having: Option<WhereClause>,
    updates: seq<UpdateSet>,
    aggField: string)

  /** A query of the given kind with every other part at its zero value. */
  function Blank(kind: QueryType): Query {
    Query(kind, "", [], None, [], None, None, [], [], None, [], "")
  }

  /** Metadata the compiler needs about an entity. `softDelete` is empty when rows are really
      deleted. `tsvColumns` lists the text-search columns in the order the map yields them. */
  datatype EntityMeta = EntityMeta(
    tableName: string,
    softDelete: string,
    columns: map<string, string>,
    jsonColumns: set<string>,
    tsvColumns: seq<string>)
}
