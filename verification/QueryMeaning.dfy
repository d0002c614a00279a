/** What a clause tree means on a row, read directly off the syntax. The operators keep SQL's
    three truth values; lists are summarised declaratively, not folded. */
module QueryMeaning {
  import opened Results
  import opened QueryAst
  import opened Truth
  import Columns

  function AllOf(ts: seq<Truth>): Truth {
    if False in ts then False else if Unknown in ts then Unknown else True
  }

  function AnyOf(ts: seq<Truth>): Truth {
    if True in ts then True else if Unknown in ts then Unknown else False
  }

  /** Membership: true with a certain match, false with none possible, otherwise unknown. */
  ghost function Member(db: Interp, v: Value, items: seq<Value>): Truth {
    if exists x :: x in items && Compare(db, Equal, v, Val(x)) == True then True
    else if forall x :: x in items ==> Compare(db, Equal, v, Val(x)) == False then False
    else Unknown
  }

  function Within(db: Interp, v: Value, low: Value, high: Value): Truth {
    And(Compare(db, GreaterOrEqual, v, Val(low)), Compare(db, LessOrEqual, v, Val(high)))
  }

  /** A leaf condition without its Not flag. */
  ghost function LeafTruth(db: Interp, entity: EntityMeta, c: Condition, row: Row): Truth {
    if c.field == "" then
      if entity.tsvColumns == [] then Unknown else
      Search(db, Column(row, entity.tsvColumns[0]), Pattern("", c.value, ""),
             if c.operator == OpFuzzy then Fuzzy else if c.operator == OpExact then Phrase else Plain)
    else
    var v := Column(row, Columns.FieldColumn(entity, c.field));
    match c.operator
    case OpEquals =>
      if c.field in entity.jsonColumns then Contains(db, v, Val(c.value), true)
      else Compare(db, Equal, v, Val(c.value))
    case OpNotEquals => Compare(db, NotEqual, v, Val(c.value))
    case OpGreaterThan => Compare(db, Greater, v, Val(c.value))
    case OpGreaterThanOrEqual => Compare(db, GreaterOrEqual, v, Val(c.value))
    case OpLessThan => Compare(db, Less, v, Val(c.value))
    case OpLessThanOrEqual => Compare(db, LessOrEqual, v, Val(c.value))
    case OpContains => Like(db, v, Pattern("%", c.value, "%"), true)
    case OpILike => Like(db, v, Pattern("%", c.value, "%"), true)
    case OpLike => Like(db, v, Val(c.value), false)
    case OpStartsWith => Like(db, v, Pattern("", c.value, "%"), true)
    case OpEndsWith => Like(db, v, Pattern("%", c.value, ""), true)
    case OpIn => if c.value.List? then Member(db, v, c.value.items) else Unknown
    case OpNotIn => if c.value.List? then Not(Member(db, v, c.value.items)) else Unknown
    case OpIsNull => FromBool(v == Null)
    case OpIsNotNull => FromBool(v != Null)
    case OpIncludes => Contains(db, v, Val(c.value), false)
    case OpArrayContains => Contains(db, v, Val(c.value), false)
    case OpBetween => if c.value.Between? then Within(db, v, c.value.low, c.value.high) else Unknown
    case _ => Unknown
  }

  function Negate(negated: bool, t: Truth): Truth {
    if negated then Not(t) else t
  }

  /** The truths of the conditions that say something; empty groups say nothing. */
  ghost function Truths(db: Interp, entity: EntityMeta, cs: seq<Condition>, row: Row): seq<Truth>
    decreases cs
  {
    if cs == [] then [] else
    ConditionTruth(db, entity, cs[0], row) + Truths(db, entity, cs[1..], row)
  }

  /** The truth of one condition, as a sequence that is empty when it says nothing. */
  ghost function ConditionTruth(db: Interp, entity: EntityMeta, c: Condition, row: Row): seq<Truth>
    decreases c
  {
    if c.nested.None? then [Negate(c.negated, LeafTruth(db, entity, c, row))] else
    match ClauseTruth(db, entity, c.nested, row)
    case None => []
    case Some(t) => [Negate(c.negated, t)]
  }

  ghost function ClauseTruth(db: Interp, entity: EntityMeta, where: Option<WhereClause>, row: Row): Option<Truth>
    decreases where
  {
    if where.None? then None else
    var ts := Truths(db, entity, where.value.conditions, row);
    if ts == [] then None else Some(if where.value.operator == LogicalOr then AnyOf(ts) else AllOf(ts))
  }

  // ----- the clauses the compiler serves faithfully -----

  /** The condition is dropped from the text: an unnegated group with nothing in it. */
  predicate Absent(c: Condition)
    decreases c
  {
    c.nested.Some? && !c.negated && EmptyClause(c.nested)
  }

  predicate AllAbsent(cs: seq<Condition>)
    decreases cs
  {
    cs == [] || (Absent(cs[0]) && AllAbsent(cs[1..]))
  }

  predicate EmptyClause(where: Option<WhereClause>)
    decreases where
  {
    where.None? || AllAbsent(where.value.conditions)
  }

  /** No group under a NOT is empty; otherwise the text would contain `NOT ()`. */
  predicate ReadableCondition(c: Condition)
    decreases c
  {
    c.nested.Some? ==> Readable(c.nested) && !(c.negated && EmptyClause(c.nested))
  }

  predicate AllReadable(cs: seq<Condition>)
    decreases cs
  {
    cs == [] || (ReadableCondition(cs[0]) && AllReadable(cs[1..]))
  }

  predicate Readable(where: Option<WhereClause>)
    decreases where
  {
    where.None? || AllReadable(where.value.conditions)
  }

  /** Two leaves lose their Not flag: a text search, and NOT IN over an empty list. */
  predicate FaithfulLeaf(c: Condition) {
    c.negated ==> c.field != "" && !(c.operator == OpNotIn && c.value == List([]))
  }

  predicate FaithfulCondition(c: Condition)
    decreases c
  {
    if c.nested.Some? then Faithful(c.nested) else FaithfulLeaf(c)
  }

  predicate AllFaithful(cs: seq<Condition>)
    decreases cs
  {
    cs == [] || (FaithfulCondition(cs[0]) && AllFaithful(cs[1..]))
  }

  predicate Faithful(where: Option<WhereClause>)
    decreases where
  {
    where.None? || AllFaithful(where.value.conditions)
  }
}
